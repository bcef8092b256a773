/** The renderer session of components/a2ui/A2UIRenderer.tsx: a flat list of
    nodes `{id, component: {Type: props}}` is indexed by id, and a node is
    rendered by looking up the renderer of its type. Renderer output is an
    abstract `Visual`; the hand-written renderers are opaque, while the
    generic wrapper of `registerSimple` (ComponentRegistry.tsx lines
    1356-1370) is modelled down to its props and children. */
module Render {

  import opened Wrappers
  import opened Json
  import Text
  import opened Types
  import Registry
  import RegistryContents

  /** What rendering produces. */
  datatype Visual =
    | Unknown(id: string)            // the id has no node
    | Empty(id: string)              // the node's `component` has no entry
    | Unsupported(componentType: string)  // no renderer for the type
    | Drawn(componentType: string, line: nat, id: string, props: Json, dataModel: Json)
                                     // a hand-written renderer (registered at `line`) called with these
    | Element(component: string, attributes: seq<(string, Json)>, children: Children)
                                     // the generic wrapper's `React.createElement`
    | Fails(id: string)              // the generic wrapper throws: `explicitList` is truthy but has no `map`
    | InvalidChild(ref: Json)        // React throws: an object reaches JSX as the id of the "Unknown" diagnostic
    | Exhausted(id: string)          // the fuel bound was reached
    | Placeholder                    // "No UI Generated Yet"

  /** The third argument of `React.createElement` in the wrapper. */
  datatype Children = NoChildren | Single(node: Visual) | Fragment(nodes: seq<Visual>)

  // ---------------------------------------------------------------------------
  // The id index (lines 40-46)
  // ---------------------------------------------------------------------------

  /** The `Map` after `map.set(comp.id, comp)` for every node in order. */
  function IndexOf(nodes: seq<Node>): map<string, Node>
    decreases |nodes|
  {
    if nodes == [] then map[]
    else IndexOf(nodes[..|nodes| - 1])[nodes[|nodes| - 1].id := nodes[|nodes| - 1]]
  }

  /** The `componentMap` of lines 40-46; `None` is a `null` list. */
  method BuildIndex(components: Option<seq<Node>>) returns (m: map<string, Node>)
    ensures m == if components.None? then map[] else IndexOf(components.value)
  {
    m := map[];
    if components.Some? {
      var nodes := components.value;
      for i := 0 to |nodes|
        invariant m == IndexOf(nodes[..i])
      {
        assert nodes[..i + 1][..i] == nodes[..i];
        m := m[nodes[i].id := nodes[i]];
      }
      assert nodes[..|nodes|] == nodes;
    }
  }

  /** The index holds exactly the ids of the list. */
  lemma {:induction false} IndexKeys(nodes: seq<Node>, id: string)
    ensures id in IndexOf(nodes) <==> exists i :: 0 <= i < |nodes| && nodes[i].id == id
    decreases |nodes|
  {
    if nodes != [] {
      var prefix := nodes[..|nodes| - 1];
      IndexKeys(prefix, id);
      if exists i :: 0 <= i < |prefix| && prefix[i].id == id {
        var i :| 0 <= i < |prefix| && prefix[i].id == id;
        assert nodes[i] == prefix[i];
      }
      if exists i :: 0 <= i < |nodes| - 1 && nodes[i].id == id {
        var i :| 0 <= i < |nodes| - 1 && nodes[i].id == id;
        assert prefix[i] == nodes[i];
      }
    }
  }

  /** With duplicate ids the last node wins. */
  lemma {:induction false} IndexLastWins(nodes: seq<Node>, i: nat)
    requires i < |nodes|
    requires forall j :: i < j < |nodes| ==> nodes[j].id != nodes[i].id
    ensures nodes[i].id in IndexOf(nodes) && IndexOf(nodes)[nodes[i].id] == nodes[i]
    decreases |nodes|
  {
    if i < |nodes| - 1 {
      var prefix := nodes[..|nodes| - 1];
      assert prefix[i] == nodes[i];
      IndexLastWins(prefix, i);
    }
  }

  // ---------------------------------------------------------------------------
  // The generic wrapper's reading of its props (lines 1356-1363)
  // ---------------------------------------------------------------------------

  /** `props?.child`. */
  function ChildRef(props: Json): Option<Json> {
    if props.JNull? then None else Prop(props, "child")
  }

  /** `props?.children?.explicitList`. */
  function ExplicitList(props: Json): Option<Json> {
    if props.JNull? then None
    else
      match Prop(props, "children")
      case None => None
      case Some(c) => if c.JNull? then None else Prop(c, "explicitList")
  }

  /** The own entries `{...props}` copies: an object's entries, an array's or
      a string's indexed elements, nothing for other values. */
  function Spread(props: Json): seq<(string, Json)> {
    match props
    case JObj(entries) => entries
    case JArr(items) => seq(|items|, i requires 0 <= i < |items| => (Text.NatToString(i), items[i]))
    case JStr(s) => seq(|s|, i requires 0 <= i < |s| => (Text.NatToString(i), JStr([s[i]])))
    case _ => []
  }

  /** The entries left after deleting `child` and `children`. */
  function WithoutChildKeys(entries: seq<(string, Json)>): seq<(string, Json)>
    decreases |entries|
  {
    if entries == [] then []
    else
      var rest := WithoutChildKeys(entries[1..]);
      if entries[0].0 == "child" || entries[0].0 == "children" then rest else [entries[0]] + rest
  }

  /** `safeProps` (lines 1361-1363). */
  function SafeProps(props: Json): seq<(string, Json)> {
    WithoutChildKeys(Spread(props))
  }

  /** Deleting the two keys keeps every other entry, in order, and nothing
      else. */
  lemma {:induction false} WithoutChildKeysSpec(entries: seq<(string, Json)>)
    ensures forall k :: Get(WithoutChildKeys(entries), k) ==
              if k == "child" || k == "children" then None else Get(entries, k)
    ensures forall e :: e in WithoutChildKeys(entries) <==> e in entries && e.0 != "child" && e.0 != "children"
    decreases |entries|
  {
    if entries != [] {
      WithoutChildKeysSpec(entries[1..]);
      var rest := WithoutChildKeys(entries[1..]);
      assert forall e :: e in entries <==> e == entries[0] || e in entries[1..];
      if entries[0].0 != "child" && entries[0].0 != "children" {
        assert ([entries[0]] + rest)[1..] == rest;
      }
    }
  }

  /** Deleting the keys works entry by entry: it distributes over
      concatenation, so the kept entries stay in their written order. */
  lemma {:induction false} WithoutChildKeysAppend(a: seq<(string, Json)>, b: seq<(string, Json)>)
    ensures WithoutChildKeys(a + b) == WithoutChildKeys(a) + WithoutChildKeys(b)
    decreases |a|
  {
    if a == [] {
      assert a + b == b;
    } else {
      var ab := a + b;
      assert ab[0] == a[0] && ab[1..] == a[1..] + b;
      WithoutChildKeysAppend(a[1..], b);
      var head := if a[0].0 == "child" || a[0].0 == "children" then [] else [a[0]];
      assert WithoutChildKeys(ab) == head + WithoutChildKeys(a[1..] + b);
      assert WithoutChildKeys(a) == head + WithoutChildKeys(a[1..]);
    }
  }

  /** A single entry is dropped exactly when its key is `child` or `children`. */
  lemma WithoutChildKeysOne(e: (string, Json))
    ensures WithoutChildKeys([e]) == if e.0 == "child" || e.0 == "children" then [] else [e]
  {
    assert [e][1..] == [];
  }

  /** For object props the wrapper forwards every prop except `child` and
      `children`, unchanged. */
  lemma SafePropsOfObject(entries: seq<(string, Json)>)
    ensures forall k :: Get(SafeProps(JObj(entries)), k) ==
              if k == "child" || k == "children" then None else Get(entries, k)
  {
    WithoutChildKeysSpec(entries);
  }

  // ---------------------------------------------------------------------------
  // Rendering (lines 100-145), bounded by fuel
  // ---------------------------------------------------------------------------

  /** `renderComponent(id)` under the renderer map `reg`. Only the generic
      wrapper recurses, and it spends one unit of fuel per level: the source
      recurses without bound and overflows the stack on a cycle of child ids. */
  function Render(reg: map<string, Registry.Renderer>, index: map<string, Node>, dataModel: Json,
                  id: string, fuel: nat): Visual
    decreases fuel, 0
  {
    if id !in index then Unknown(id)
    else
      var entries := index[id].component;
      if entries == [] then Empty(id)
      else
        var entry := FirstEntry(entries);
        if entry.0 !in reg then Unsupported(entry.0)
        else
          match reg[entry.0]
          case Curated(line) => Drawn(entry.0, line, id, entry.1, dataModel)
          case Generic(comp) =>
            if fuel == 0 then Exhausted(id)
            else RenderGeneric(reg, index, dataModel, id, comp, entry.1, fuel - 1)
  }

  /** Whether React accepts `v` as a JSX child: any value but an object, and
      an array only when each of its elements is accepted. */
  predicate RenderableChild(v: Json)
    decreases v
  {
    match v
    case JObj(_) => false
    case JArr(items) => forall i :: 0 <= i < |items| ==> RenderableChild(items[i])
    case _ => true
  }

  /** The pieces of text written one after the other. */
  function Texts(parts: seq<string>): string
    decreases |parts|
  {
    if parts == [] then [] else parts[0] + Texts(parts[1..])
  }

  /** The text React shows for an accepted child `{v}`: a string as it is, a
      number in decimal, nothing for `true`, `false` and `null`, and an array
      as the texts of its elements with no separator. */
  function ChildText(v: Json): string
    decreases v
  {
    match v
    case JStr(s) => s
    case JNum(n) => Text.IntToString(n)
    case JArr(items) => Texts(seq(|items|, i requires 0 <= i < |items| => ChildText(items[i])))
    case _ => ""
  }

  /** `renderComponent` applied to a child reference. `Map.get` with a value
      that is not a string finds no node (node ids are strings), so the
      "Unknown component" diagnostic shows the value as a JSX child: React
      prints what it accepts and throws on an object. */
  function RenderRef(reg: map<string, Registry.Renderer>, index: map<string, Node>, dataModel: Json,
                     ref: Json, fuel: nat): Visual
    decreases fuel, 1
  {
    match ref
    case JStr(s) => Render(reg, index, dataModel, s, fuel)
    case _ => if RenderableChild(ref) then Unknown(ChildText(ref)) else InvalidChild(ref)
  }

  /** `explicitList.map((id) => renderComponent(id))`. */
  function RenderAll(reg: map<string, Registry.Renderer>, index: map<string, Node>, dataModel: Json,
                     refs: seq<Json>, fuel: nat): (r: seq<Visual>)
    ensures |r| == |refs|
    ensures forall i :: 0 <= i < |refs| ==> r[i] == RenderRef(reg, index, dataModel, refs[i], fuel)
    decreases fuel, 2, |refs|
  {
    if refs == [] then []
    else RenderAll(reg, index, dataModel, refs[..|refs| - 1], fuel)
         + [RenderRef(reg, index, dataModel, refs[|refs| - 1], fuel)]
  }

  /** The generic wrapper (lines 1356-1370) for the node `id` of component
      `comp`. Both reads happen before the choice: a truthy `explicitList`
      that is not an array throws even when `child` is set. */
  function RenderGeneric(reg: map<string, Registry.Renderer>, index: map<string, Node>, dataModel: Json,
                         id: string, comp: string, props: Json, fuel: nat): Visual
    decreases fuel, 3
  {
    var child := ChildRef(props);
    var list := ExplicitList(props);
    if TruthyOpt(list) && !list.value.JArr? then Fails(id)
    else if TruthyOpt(child) then Element(comp, SafeProps(props), Single(RenderRef(reg, index, dataModel, child.value, fuel)))
    else if TruthyOpt(list) then Element(comp, SafeProps(props), Fragment(RenderAll(reg, index, dataModel, list.value.items, fuel)))
    else Element(comp, SafeProps(props), NoChildren)
  }

  /** The whole component (lines 151-177): the placeholder for a `null` or
      empty list; otherwise the root is `rootId` when it is truthy, and the
      first node's id when not. */
  function Session(reg: map<string, Registry.Renderer>, components: Option<seq<Node>>,
                   rootId: Option<string>, dataModel: Json, fuel: nat): Visual
  {
    if components.None? || components.value == [] then Placeholder
    else
      var root := if rootId.Some? && rootId.value != "" then rootId.value else components.value[0].id;
      Render(reg, IndexOf(components.value), dataModel, root, fuel)
  }

  /** `A2UIRenderer`: a fresh registry, the index, then the root. */
  method A2UIRenderer(components: Option<seq<Node>>, rootId: Option<string>, dataModel: Json, fuel: nat)
    returns (v: Visual)
    ensures v == Session(Registry.InitialRegistry().renderers, components, rootId, dataModel, fuel)
  {
    var registry := new Registry.ComponentRegistry();
    var index := BuildIndex(components);
    if components.None? || components.value == [] {
      return Placeholder;
    }
    var root := if rootId.Some? && rootId.value != "" then rootId.value else components.value[0].id;
    v := Render(registry.renderers, index, dataModel, root, fuel);
  }

  // ---------------------------------------------------------------------------
  // Properties of one dispatch step
  // ---------------------------------------------------------------------------

  /** The three diagnostics, each exactly when its condition holds: a missing
      id, a node whose `component` has no entry, a type with no renderer. */
  lemma Diagnostics(reg: map<string, Registry.Renderer>, index: map<string, Node>, dataModel: Json,
                    id: string, fuel: nat)
    ensures Render(reg, index, dataModel, id, fuel).Unknown? <==> id !in index
    ensures Render(reg, index, dataModel, id, fuel).Unknown? ==> Render(reg, index, dataModel, id, fuel).id == id
    ensures Render(reg, index, dataModel, id, fuel) == Empty(id) <==> id in index && index[id].component == []
    ensures Render(reg, index, dataModel, id, fuel).Unsupported? <==>
              id in index && index[id].component != [] && FirstEntry(index[id].component).0 !in reg
    ensures Render(reg, index, dataModel, id, fuel).Unsupported? ==>
              Render(reg, index, dataModel, id, fuel).componentType == FirstEntry(index[id].component).0
  {
  }

  /** A hand-written renderer receives the first entry's props, the node's id
      and the data model; when no key is an integer index, the first entry is
      the first one written and the rest are ignored. */
  lemma CuratedDispatch(reg: map<string, Registry.Renderer>, index: map<string, Node>, dataModel: Json,
                        id: string, fuel: nat, t: string, props: Json, rest: seq<(string, Json)>, line: nat)
    requires id in index && index[id].component == [(t, props)] + rest
    requires forall i :: 0 <= i < |index[id].component| ==> !IsArrayIndexKey(index[id].component[i].0)
    requires t in reg && reg[t] == Registry.Curated(line)
    ensures Render(reg, index, dataModel, id, fuel) == Drawn(t, line, id, props, dataModel)
  {
  }

  /** The wrapper prefers `child` to `explicitList`, renders the list in
      order otherwise, and forwards the props without `child` and `children`. */
  lemma GenericChildren(reg: map<string, Registry.Renderer>, index: map<string, Node>, dataModel: Json,
                        id: string, comp: string, props: Json, fuel: nat)
    requires !(TruthyOpt(ExplicitList(props)) && !ExplicitList(props).value.JArr?)
    ensures var v := RenderGeneric(reg, index, dataModel, id, comp, props, fuel);
            && v.Element? && v.component == comp && v.attributes == SafeProps(props)
            && (TruthyOpt(ChildRef(props)) ==>
                  v.children == Single(RenderRef(reg, index, dataModel, ChildRef(props).value, fuel)))
            && (!TruthyOpt(ChildRef(props)) && TruthyOpt(ExplicitList(props)) ==>
                  && v.children.Fragment?
                  && |v.children.nodes| == |ExplicitList(props).value.items|
                  && forall i :: 0 <= i < |v.children.nodes| ==>
                       v.children.nodes[i] == RenderRef(reg, index, dataModel, ExplicitList(props).value.items[i], fuel))
            && (!TruthyOpt(ChildRef(props)) && !TruthyOpt(ExplicitList(props)) ==> v.children == NoChildren)
  {
  }

  /** Whether rendering the tree throws: a `Fails` or an `InvalidChild`
      anywhere in it stops the whole render. */
  predicate Aborts(v: Visual)
    decreases v
  {
    match v
    case Fails(_) => true
    case InvalidChild(_) => true
    case Element(_, _, c) =>
      (match c
       case NoChildren => false
       case Single(node) => Aborts(node)
       case Fragment(nodes) => exists i :: 0 <= i < |nodes| && Aborts(nodes[i]))
    case _ => false
  }

  /** A child reference that is not a string shows as an "Unknown component"
      diagnostic when React accepts it, and makes the render throw when it
      is, or holds, an object. */
  lemma NonStringReference(reg: map<string, Registry.Renderer>, index: map<string, Node>, dataModel: Json,
                           ref: Json, fuel: nat)
    requires !ref.JStr?
    ensures RenderableChild(ref) ==> RenderRef(reg, index, dataModel, ref, fuel) == Unknown(ChildText(ref))
    ensures !RenderableChild(ref) ==> RenderRef(reg, index, dataModel, ref, fuel) == InvalidChild(ref)
    ensures Aborts(RenderRef(reg, index, dataModel, ref, fuel)) <==> !RenderableChild(ref)
  {
  }

  /** The diagnostic text of some references: `true` and `null` show nothing,
      `["x", "y"]` shows `xy`, and an array holding an object is refused. */
  lemma ChildTextExamples()
    ensures ChildText(JBool(true)) == "" && ChildText(JNull) == ""
    ensures ChildText(JArr([JStr("x"), JStr("y")])) == "xy"
    ensures !RenderableChild(JArr([JStr("x"), JArr([EmptyObject])]))
  {
    var items := [JStr("x"), JStr("y")];
    var texts := seq(|items|, i requires 0 <= i < |items| => ChildText(items[i]));
    assert texts == ["x", "y"];
    assert texts[1..][1..] == [];
    assert Texts(texts[1..]) == "y" + Texts(texts[1..][1..]);
    assert Texts(texts) == "x" + Texts(texts[1..]);
    var inner := [EmptyObject];
    assert inner[0] == EmptyObject && !RenderableChild(inner[0]);
    var outer := [JStr("x"), JArr(inner)];
    assert outer[1] == JArr(inner) && !RenderableChild(outer[1]);
  }

  /** An object under `child` makes the generic wrapper's render throw. */
  lemma ObjectChildAborts(reg: map<string, Registry.Renderer>, index: map<string, Node>, dataModel: Json,
                          id: string, comp: string, props: Json, fuel: nat)
    requires !(TruthyOpt(ExplicitList(props)) && !ExplicitList(props).value.JArr?)
    requires ChildRef(props).Some? && ChildRef(props).value.JObj?
    ensures RenderGeneric(reg, index, dataModel, id, comp, props, fuel).children == Single(InvalidChild(ChildRef(props).value))
    ensures Aborts(RenderGeneric(reg, index, dataModel, id, comp, props, fuel))
  {
  }

  /** The empty state and the choice of root. */
  lemma SessionRoot(reg: map<string, Registry.Renderer>, components: Option<seq<Node>>,
                    rootId: Option<string>, dataModel: Json, fuel: nat)
    ensures components.None? || components == Some([]) ==>
              Session(reg, components, rootId, dataModel, fuel) == Placeholder
    ensures components.Some? && components.value != [] && rootId.Some? && rootId.value != "" ==>
              Session(reg, components, rootId, dataModel, fuel) ==
              Render(reg, IndexOf(components.value), dataModel, rootId.value, fuel)
    ensures components.Some? && components.value != [] && (rootId.None? || rootId == Some("")) ==>
              Session(reg, components, rootId, dataModel, fuel) ==
              Render(reg, IndexOf(components.value), dataModel, components.value[0].id, fuel)
  {
  }

  /** A truthy `rootId` that no node has gives `Unknown(rootId)`, not a fallback
      to the first node. */
  lemma MissingRootIsUnknown(reg: map<string, Registry.Renderer>, nodes: seq<Node>, root: string,
                             dataModel: Json, fuel: nat)
    requires nodes != [] && root != ""
    requires forall i :: 0 <= i < |nodes| ==> nodes[i].id != root
    ensures Session(reg, Some(nodes), Some(root), dataModel, fuel) == Unknown(root)
  {
    IndexKeys(nodes, root);
  }

  /** A node of type `Stepper` renders the "Unsupported type" diagnostic under
      the registry a fresh `ComponentRegistry` holds. */
  lemma StepperIsUnsupported(index: map<string, Node>, dataModel: Json, id: string, props: Json, fuel: nat)
    requires id in index && index[id].component == [("Stepper", props)]
    ensures Render(Registry.InitialRegistry().renderers, index, dataModel, id, fuel) == Unsupported("Stepper")
  {
    RegistryContents.InitialLacksStepper();
    assert !Text.IsDigit("Stepper"[0]);
    assert !IsArrayIndexKey("Stepper");
  }
}
