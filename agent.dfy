/** The pure checks of lib/agent.ts around the model call: `validateA2UI`, the
    cleaning and acceptance of the model's output in `generateA2UI`, the
    preparation of the chat history sent with a request, and the sanitising
    of a component name before a file lookup. `JSON.parse` and the model are
    foreign: their results are parameters. */
module Agent {

  import opened Wrappers
  import Text
  import opened Json
  import opened Types

  // ---------------------------------------------------------------------------
  // validateA2UI (lines 497-523)
  // ---------------------------------------------------------------------------

  /** The result of `validateA2UI`; `Throws` is the `TypeError` raised when an
      element is `null` (reading `.id` of it). */
  datatype Validation = Report(valid: bool, errors: seq<string>) | Throws

  /** Whether the id of element `i` equals the id of an earlier element, as the
      `Set` of ids compares them. Parsed objects and arrays are distinct
      references, so only strings, numbers and booleans can repeat. */
  predicate RepeatsEarlierId(xs: seq<Json>, i: nat)
    requires i < |xs|
  {
    var id := Prop(xs[i], "id");
    id.Some? && IsPrimitive(id.value) && exists j :: 0 <= j < i && Prop(xs[j], "id") == id
  }

  /** The errors element `i` contributes. */
  function NodeErrors(xs: seq<Json>, i: nat): seq<string>
    requires i < |xs|
  {
    var id := Prop(xs[i], "id");
    if !TruthyOpt(id) then ["Component at index " + Text.NatToString(i) + " missing id"]
    else
      (if RepeatsEarlierId(xs, i) then ["Duplicate id: " + ToStr(id.value)] else [])
      + (if !TruthyOpt(Prop(xs[i], "component")) then ["Component " + ToStr(id.value) + " missing component object"] else [])
  }

  /** The errors of each element, in element order. */
  function PerNode(xs: seq<Json>): seq<seq<string>> {
    seq(|xs|, i requires 0 <= i < |xs| => NodeErrors(xs, i))
  }

  /** The lists of `parts` one after the other. */
  function Concat(parts: seq<seq<string>>): seq<string>
    decreases |parts|
  {
    if parts == [] then [] else Concat(parts[..|parts| - 1]) + parts[|parts| - 1]
  }

  /** What `validateA2UI` returns for a value. */
  function Validate(a: Json): Validation {
    if !a.JArr? then Report(false, ["A2UI must be an array"])
    else if exists i :: 0 <= i < |a.items| && a.items[i].JNull? then Throws
    else
      var errors := Concat(PerNode(a.items));
      Report(errors == [], errors)
  }

  /** The ids the loop's `Set` holds after `i` elements: the truthy ids of
      those elements that compare by value. */
  ghost predicate SeenIds(xs: seq<Json>, i: nat, ids: set<Json>)
    requires i <= |xs|
  {
    forall v :: v in ids <==> IsPrimitive(v) && Truthy(v) && exists j :: 0 <= j < i && Prop(xs[j], "id") == Some(v)
  }

  /** What the `Set` update of one element does. */
  function AddId(ids: set<Json>, id: Option<Json>): set<Json> {
    if TruthyOpt(id) && IsPrimitive(id.value) then ids + {id.value} else ids
  }

  lemma SeenIdsStep(xs: seq<Json>, i: nat, ids: set<Json>)
    requires i < |xs| && SeenIds(xs, i, ids)
    ensures SeenIds(xs, i + 1, AddId(ids, Prop(xs[i], "id")))
    ensures TruthyOpt(Prop(xs[i], "id")) && IsPrimitive(Prop(xs[i], "id").value) ==>
              (Prop(xs[i], "id").value in ids <==> RepeatsEarlierId(xs, i))
  {
    var id := Prop(xs[i], "id");
    var next := AddId(ids, id);
    forall v
      ensures v in next <==> IsPrimitive(v) && Truthy(v) && exists j :: 0 <= j < i + 1 && Prop(xs[j], "id") == Some(v)
    {
      if IsPrimitive(v) && Truthy(v) && exists j :: 0 <= j < i + 1 && Prop(xs[j], "id") == Some(v) {
        var j :| 0 <= j < i + 1 && Prop(xs[j], "id") == Some(v);
        if j < i {
          assert v in ids;
        }
      }
    }
  }

  lemma ConcatSnoc(parts: seq<seq<string>>, i: nat)
    requires i < |parts|
    ensures Concat(parts[..i + 1]) == Concat(parts[..i]) + parts[i]
  {
    assert parts[..i + 1][..i] == parts[..i];
  }

  /** One iteration of the loop of lines 505-520 for an element that is not
      `null`: its errors, and the `Set` after it. */
  method CheckElement(xs: seq<Json>, i: nat, ids: set<Json>) returns (nodeErrors: seq<string>, ids': set<Json>)
    requires i < |xs| && SeenIds(xs, i, ids)
    ensures nodeErrors == NodeErrors(xs, i)
    ensures ids' == AddId(ids, Prop(xs[i], "id")) && SeenIds(xs, i + 1, ids')
  {
    var component := xs[i];
    var id := Prop(component, "id");
    SeenIdsStep(xs, i, ids);
    if !TruthyOpt(id) {
      return ["Component at index " + Text.NatToString(i) + " missing id"], ids;
    }
    nodeErrors := [];
    if IsPrimitive(id.value) && id.value in ids {
      nodeErrors := nodeErrors + ["Duplicate id: " + ToStr(id.value)];
    }
    ids' := ids;
    if IsPrimitive(id.value) {
      ids' := ids + {id.value};
    }
    if !TruthyOpt(Prop(component, "component")) {
      nodeErrors := nodeErrors + ["Component " + ToStr(id.value) + " missing component object"];
    }
  }

  lemma ValidateStopsAtNull(xs: seq<Json>, i: nat)
    requires i < |xs| && xs[i].JNull?
    ensures Validate(JArr(xs)) == Throws
  {
  }

  lemma ValidateWithoutNull(xs: seq<Json>, errors: seq<string>)
    requires forall j :: 0 <= j < |xs| ==> !xs[j].JNull?
    requires errors == Concat(PerNode(xs))
    ensures Validate(JArr(xs)) == Report(errors == [], errors)
  {
  }

  /** `validateA2UI`: one pass over the elements with a set of the ids seen. */
  method ValidateA2UI(a2ui: Json) returns (r: Validation)
    ensures r == Validate(a2ui)
  {
    if !a2ui.JArr? {
      return Report(false, ["A2UI must be an array"]);
    }
    var xs := a2ui.items;
    ghost var perNode := PerNode(xs);
    var errors: seq<string> := [];
    var ids: set<Json> := {};
    var i := 0;
    while i < |xs|
      invariant 0 <= i <= |xs|
      invariant errors == Concat(perNode[..i])
      invariant SeenIds(xs, i, ids)
      invariant forall j :: 0 <= j < i ==> !xs[j].JNull?
    {
      var component := xs[i];
      if component.JNull? {
        ValidateStopsAtNull(xs, i);
        return Throws;
      }
      var nodeErrors;
      nodeErrors, ids := CheckElement(xs, i, ids);
      ConcatSnoc(perNode, i);
      errors := errors + nodeErrors;
      i := i + 1;
    }
    assert perNode[..|xs|] == perNode;
    ValidateWithoutNull(xs, errors);
    return Report(errors == [], errors);
  }

  /** A structurally sound element: a truthy id and a truthy `component`. */
  predicate SoundNode(xs: seq<Json>, i: nat)
    requires i < |xs|
  {
    TruthyOpt(Prop(xs[i], "id")) && TruthyOpt(Prop(xs[i], "component"))
  }

  lemma NodeErrorsEmpty(xs: seq<Json>, i: nat)
    requires i < |xs|
    ensures NodeErrors(xs, i) == [] <==> SoundNode(xs, i) && !RepeatsEarlierId(xs, i)
  {
  }

  /** A concatenation is empty exactly when every part is. */
  lemma {:induction false} ConcatEmpty(parts: seq<seq<string>>)
    ensures Concat(parts) == [] <==> forall i :: 0 <= i < |parts| ==> parts[i] == []
    decreases |parts|
  {
    if parts != [] {
      var front := parts[..|parts| - 1];
      ConcatEmpty(front);
      var last := parts[|parts| - 1];
      assert Concat(parts) == Concat(front) + last;
      if Concat(front) == [] && last == [] {
        forall i | 0 <= i < |parts|
          ensures parts[i] == []
        {
          if i < |parts| - 1 {
            assert parts[i] == front[i];
          }
        }
      } else {
        assert |Concat(parts)| > 0;
        assert !(forall i :: 0 <= i < |parts| ==> parts[i] == []) by {
          if Concat(front) != [] {
            var k :| 0 <= k < |front| && front[k] != [];
            assert parts[k] == front[k];
          }
        }
      }
    }
  }

  /** The parts appear in order: those before `m`, then part `m`, begin the
      concatenation. */
  lemma {:induction false} ConcatOrder(parts: seq<seq<string>>, m: nat)
    requires m < |parts|
    ensures Concat(parts[..m]) + parts[m] <= Concat(parts)
    decreases |parts|
  {
    var front := parts[..|parts| - 1];
    assert Concat(parts) == Concat(front) + parts[|parts| - 1];
    if m < |parts| - 1 {
      ConcatOrder(front, m);
      assert front[..m] == parts[..m];
      assert front[m] == parts[m];
    } else {
      assert front == parts[..m];
    }
  }

  /** An array without `null` elements is valid exactly when every element has
      a truthy id and a truthy `component` and no id repeats; the error list is
      empty exactly when it is valid. */
  lemma ValidIffSound(xs: seq<Json>)
    requires forall i :: 0 <= i < |xs| ==> !xs[i].JNull?
    ensures Validate(JArr(xs)).Report?
    ensures Validate(JArr(xs)).valid <==> Validate(JArr(xs)).errors == []
    ensures Validate(JArr(xs)).valid <==> forall i :: 0 <= i < |xs| ==> SoundNode(xs, i) && !RepeatsEarlierId(xs, i)
  {
    var parts := PerNode(xs);
    ConcatEmpty(parts);
    forall i | 0 <= i < |xs|
      ensures parts[i] == [] <==> SoundNode(xs, i) && !RepeatsEarlierId(xs, i)
    {
      NodeErrorsEmpty(xs, i);
    }
  }

  /** An element without a truthy id contributes exactly one error, and its
      other fields are not checked. */
  lemma MissingIdIsOneError(xs: seq<Json>, i: nat)
    requires i < |xs| && !TruthyOpt(Prop(xs[i], "id"))
    ensures NodeErrors(xs, i) == ["Component at index " + Text.NatToString(i) + " missing id"]
  {
  }

  /** Errors appear in element order: those of the elements before `i`, then
      those of element `i`, begin the error list. */
  lemma ErrorsInOrder(xs: seq<Json>, i: nat)
    requires i < |xs|
    ensures Concat(PerNode(xs)[..i]) + NodeErrors(xs, i) <= Concat(PerNode(xs))
  {
    ConcatOrder(PerNode(xs), i);
  }

  /** Every element whose string id repeats an earlier one is reported. */
  lemma DuplicateReported(xs: seq<Json>, j: nat, i: nat, id: string)
    requires j < i < |xs|
    requires forall k :: 0 <= k < |xs| ==> !xs[k].JNull?
    requires id != [] && Prop(xs[j], "id") == Some(JStr(id)) && Prop(xs[i], "id") == Some(JStr(id))
    ensures Validate(JArr(xs)).Report? && !Validate(JArr(xs)).valid
    ensures "Duplicate id: " + id in Validate(JArr(xs)).errors
  {
    assert RepeatsEarlierId(xs, i);
    var mine := NodeErrors(xs, i);
    assert mine[0] == "Duplicate id: " + id;
    ErrorsInOrder(xs, i);
    var front := Concat(PerNode(xs)[..i]);
    var all := Concat(PerNode(xs));
    assert all[|front|] == (front + mine)[|front|];
  }

  /** An empty `component` object passes `validateA2UI`. */
  lemma EmptyComponentObjectIsValid(id: string)
    requires id != []
    ensures Validate(JArr([JObj([("id", JStr(id)), ("component", EmptyObject)])])) == Report(true, [])
  {
    var xs := [JObj([("id", JStr(id)), ("component", EmptyObject)])];
    assert Get([("component", EmptyObject)], "component") == Some(EmptyObject);
    assert Prop(xs[0], "id") == Some(JStr(id));
    assert Prop(xs[0], "component") == Some(EmptyObject);
    assert NodeErrors(xs, 0) == [];
    assert PerNode(xs) == [[]];
    assert !xs[0].JNull?;
    var parts: seq<seq<string>> := [[]];
    assert parts[..0] == [];
    assert Concat(parts) == [];
  }

  // ---------------------------------------------------------------------------
  // Cleaning the output text (line 455)
  // ---------------------------------------------------------------------------

  /** A run of three backticks starting at `i`. */
  predicate FenceAt(s: string, i: int) {
    0 <= i && i + 3 <= |s| && s[i] == '`' && s[i + 1] == '`' && s[i + 2] == '`'
  }

  predicate NoFence(s: string) {
    forall i :: 0 <= i < |s| ==> !FenceAt(s, i)
  }

  /** `s.replace(/```json\n?|```/g, '')`: scanning left to right, the first
      alternative is tried first, and it takes the newline when there is one. */
  function StripFences(s: string): string
    decreases |s|
  {
    if |s| >= 7 && s[..7] == "```json" then
      if |s| >= 8 && s[7] == '\n' then StripFences(s[8..]) else StripFences(s[7..])
    else if |s| >= 3 && s[..3] == "```" then StripFences(s[3..])
    else if s == [] then []
    else [s[0]] + StripFences(s[1..])
  }

  /** The cleaned text: fences removed, then trimmed. */
  function CleanOutput(raw: string): string {
    Text.Trim(StripFences(raw))
  }

  lemma StripHead(t: string)
    requires t != [] && t[0] != '`'
    ensures StripFences(t) != [] && StripFences(t)[0] == t[0]
  {
  }

  /** A text that does not start with two backticks is not stripped into one
      that does. */
  lemma StripNoDoubleStart(t: string)
    requires !(|t| >= 2 && t[0] == '`' && t[1] == '`')
    ensures !(|StripFences(t)| >= 2 && StripFences(t)[0] == '`' && StripFences(t)[1] == '`')
  {
    if t != [] && t[0] == '`' && |t| >= 2 {
      StripHead(t[1..]);
    }
  }

  /** No three backticks survive the replacement, wherever they occurred. */
  lemma {:induction false} StripLeavesNoFence(s: string)
    ensures NoFence(StripFences(s))
    decreases |s|
  {
    if |s| >= 7 && s[..7] == "```json" {
      if |s| >= 8 && s[7] == '\n' { StripLeavesNoFence(s[8..]); } else { StripLeavesNoFence(s[7..]); }
    } else if |s| >= 3 && s[..3] == "```" {
      StripLeavesNoFence(s[3..]);
    } else if s != [] {
      var rest := StripFences(s[1..]);
      StripLeavesNoFence(s[1..]);
      assert StripFences(s) == [s[0]] + rest;
      forall i
        ensures !FenceAt(StripFences(s), i)
      {
        if i > 0 {
          assert !FenceAt(rest, i - 1);
        }
        if i == 0 && s[0] == '`' {
          assert !(|s| >= 3 && s[1] == '`' && s[2] == '`');
          StripNoDoubleStart(s[1..]);
        }
      }
    }
  }

  /** Text without fences is left as it is; so the replacement is idempotent. */
  lemma {:induction false} StripKeepsPlainText(s: string)
    requires NoFence(s)
    ensures StripFences(s) == s
    decreases |s|
  {
    if s != [] {
      assert !FenceAt(s, 0);
      assert NoFence(s[1..]) by {
        forall i ensures !FenceAt(s[1..], i) {
          assert !FenceAt(s, i + 1);
        }
      }
      StripKeepsPlainText(s[1..]);
    }
  }

  lemma StripIdempotent(s: string)
    ensures StripFences(StripFences(s)) == StripFences(s)
  {
    StripLeavesNoFence(s);
    StripKeepsPlainText(StripFences(s));
  }

  /** The cleaned text holds no fence and has no white space at either end. */
  lemma CleanOutputShape(raw: string)
    ensures NoFence(CleanOutput(raw))
    ensures CleanOutput(raw) != [] ==>
              !Text.IsJsSpace(CleanOutput(raw)[0]) && !Text.IsJsSpace(CleanOutput(raw)[|CleanOutput(raw)| - 1])
  {
    var t := StripFences(raw);
    StripLeavesNoFence(raw);
    Text.TrimIsSlice(t);
    Text.TrimSpan(t);
    var k := |t| - |Text.TrimStart(t)|;
    var c := CleanOutput(raw);
    forall i | 0 <= i < |c|
      ensures !FenceAt(c, i)
    {
      if i + 3 <= |c| {
        assert c[i] == t[k + i] && c[i + 1] == t[k + i + 1] && c[i + 2] == t[k + i + 2];
        assert !FenceAt(t, k + i);
      }
    }
  }

  // ---------------------------------------------------------------------------
  // Accepting the output (lines 453-478)
  // ---------------------------------------------------------------------------

  /** What `JSON.parse` does with the cleaned text. */
  datatype ParseResult = Parsed(value: Json) | SyntaxError(message: string)

  /** `AgentResponse` as `generateA2UI` returns it from this stage. */
  datatype AgentResponse = Success(components: seq<Json>, dataModel: Json) | Failure(error: string)

  /** The message of the `TypeError` a `null` element raises in V8 when its
      `id` is read. */
  const NullIdMessage: string := "Cannot read properties of null (reading 'id')"

  /** The per-node check of line 470: a truthy id, a truthy `component` with
      at least one own key. */
  predicate WellShaped(c: Json) {
    var comp := Prop(c, "component");
    TruthyOpt(Prop(c, "id")) && TruthyOpt(comp) && KeyCount(comp.value) > 0
  }

  /** `comp.id || 'unknown'`, as the message writes it. */
  function NameOf(c: Json): string {
    var id := Prop(c, "id");
    if TruthyOpt(id) then ToStr(id.value) else "unknown"
  }

  /** Why the loop of lines 469-473 stops at this node, if it does. */
  function RejectionOf(c: Json): Option<string> {
    if c.JNull? then Some(NullIdMessage)
    else if !WellShaped(c) then Some("Invalid component structure for " + NameOf(c))
    else None
  }

  /** The first message of the list, if any. */
  function FirstSome(opts: seq<Option<string>>): Option<string>
    decreases |opts|
  {
    if opts == [] then None else if opts[0].Some? then opts[0] else FirstSome(opts[1..])
  }

  /** The message of the first rejected node, if any. */
  function FirstRejection(items: seq<Json>): Option<string> {
    FirstSome(seq(|items|, i requires 0 <= i < |items| => RejectionOf(items[i])))
  }

  /** The outcome of lines 453-478. `lastCalls` is the JSON text of the names
      of the last function calls, and `parse` stands for `JSON.parse`. */
  function Acceptance(raw: string, lastCalls: string, parse: string -> ParseResult): AgentResponse {
    var clean := CleanOutput(raw);
    if clean == [] then
      Failure("Protocol Error: Received empty response from AI model. lastFunctionCalls=" + lastCalls)
    else
      match parse(clean)
      case SyntaxError(m) => Failure("Protocol Error: " + m)
      case Parsed(v) =>
        if !v.JArr? || v.items == [] then Failure("Protocol Error: A2UI output must be a non-empty array")
        else
          match FirstRejection(v.items)
          case None => Success(v.items, EmptyObject)
          case Some(m) => Failure("Protocol Error: " + m)
  }

  /** The acceptance stage of `generateA2UI`. */
  method AcceptOutput(raw: string, lastCalls: string, parse: string -> ParseResult) returns (r: AgentResponse)
    ensures r == Acceptance(raw, lastCalls, parse)
  {
    var cleanText := Text.Trim(StripFences(raw));
    if cleanText == [] {
      return Failure("Protocol Error: Received empty response from AI model. lastFunctionCalls=" + lastCalls);
    }
    var parsed := parse(cleanText);
    if parsed.SyntaxError? {
      return Failure("Protocol Error: " + parsed.message);
    }
    var components := parsed.value;
    if !components.JArr? || components.items == [] {
      return Failure("Protocol Error: A2UI output must be a non-empty array");
    }
    var rejection := FindRejection(components.items);
    if rejection.Some? {
      return Failure("Protocol Error: " + rejection.value);
    }
    return Success(components.items, EmptyObject);
  }

  /** The loop of lines 469-473: the first node that is `null` or not well
      shaped stops it. */
  method FindRejection(items: seq<Json>) returns (rejection: Option<string>)
    ensures rejection == FirstRejection(items)
  {
    ghost var opts := seq(|items|, i requires 0 <= i < |items| => RejectionOf(items[i]));
    for i := 0 to |items|
      invariant FirstRejection(items) == FirstSome(opts[i..])
    {
      assert opts[i..][1..] == opts[i + 1..];
      assert opts[i..][0] == RejectionOf(items[i]);
      var comp := items[i];
      if comp.JNull? {
        return Some(NullIdMessage);
      }
      if !WellShaped(comp) {
        return Some("Invalid component structure for " + NameOf(comp));
      }
    }
    return None;
  }

  /** The first message is absent exactly when every entry is, and otherwise
      it is the entry at the first index that has one. */
  lemma {:induction false} FirstSomeSpec(opts: seq<Option<string>>)
    ensures FirstSome(opts).None? <==> forall i :: 0 <= i < |opts| ==> opts[i].None?
    ensures FirstSome(opts).Some? ==>
              exists i :: 0 <= i < |opts| && (forall j :: 0 <= j < i ==> opts[j].None?) && opts[i] == FirstSome(opts)
    decreases |opts|
  {
    if opts != [] && opts[0].None? {
      var rest := opts[1..];
      FirstSomeSpec(rest);
      assert forall i :: 1 <= i < |opts| ==> opts[i] == rest[i - 1];
      if FirstSome(rest).Some? {
        var i :| 0 <= i < |rest| && (forall j :: 0 <= j < i ==> rest[j].None?) && rest[i] == FirstSome(rest);
        assert opts[i + 1] == rest[i];
        assert forall j :: 0 <= j < i + 1 ==> opts[j].None? by {
          forall j | 0 <= j < i + 1 ensures opts[j].None? {
            if j > 0 { assert opts[j] == rest[j - 1]; }
          }
        }
      }
    } else if opts != [] {
      assert opts[0] == FirstSome(opts);
    }
  }

  /** No rejection exactly when every node is present and well shaped; a
      rejection names the first node that is not. */
  lemma FirstRejectionSpec(items: seq<Json>)
    ensures FirstRejection(items).None? <==> forall i :: 0 <= i < |items| ==> !items[i].JNull? && WellShaped(items[i])
    ensures FirstRejection(items).Some? ==>
              exists i :: 0 <= i < |items| && (forall j :: 0 <= j < i ==> !items[j].JNull? && WellShaped(items[j]))
                && FirstRejection(items) == RejectionOf(items[i])
  {
    var opts := seq(|items|, i requires 0 <= i < |items| => RejectionOf(items[i]));
    FirstSomeSpec(opts);
    assert forall i :: 0 <= i < |items| ==> (opts[i].None? <==> !items[i].JNull? && WellShaped(items[i]));
    if FirstRejection(items).Some? {
      var i :| 0 <= i < |opts| && (forall j :: 0 <= j < i ==> opts[j].None?) && opts[i] == FirstSome(opts);
      assert forall j :: 0 <= j < i ==> !items[j].JNull? && WellShaped(items[j]);
    }
  }

  /** The output is accepted exactly when its cleaned text is not empty and
      parses to a non-empty array of present, well-shaped nodes; the accepted
      components are that array and the data model is `{}`. */
  lemma AcceptanceSpec(raw: string, lastCalls: string, parse: string -> ParseResult)
    ensures var r := Acceptance(raw, lastCalls, parse);
            r.Success? <==>
              && CleanOutput(raw) != []
              && parse(CleanOutput(raw)).Parsed?
              && parse(CleanOutput(raw)).value.JArr?
              && parse(CleanOutput(raw)).value.items != []
              && forall i :: 0 <= i < |parse(CleanOutput(raw)).value.items| ==>
                   !parse(CleanOutput(raw)).value.items[i].JNull? && WellShaped(parse(CleanOutput(raw)).value.items[i])
    ensures var r := Acceptance(raw, lastCalls, parse);
            r.Success? ==> r.components == parse(CleanOutput(raw)).value.items && r.dataModel == EmptyObject
  {
    var clean := CleanOutput(raw);
    if clean != [] && parse(clean).Parsed? && parse(clean).value.JArr? {
      FirstRejectionSpec(parse(clean).value.items);
    }
  }

  /** Accepted output whose string ids are all distinct also passes
      `validateA2UI`. */
  lemma AcceptedIsValid(items: seq<Json>)
    requires FirstRejection(items).None?
    requires forall i, j :: 0 <= j < i < |items| ==> Prop(items[j], "id") != Prop(items[i], "id")
    ensures Validate(JArr(items)) == Report(true, [])
  {
    FirstRejectionSpec(items);
    ValidIffSound(items);
    assert forall i :: 0 <= i < |items| ==> !RepeatsEarlierId(items, i);
  }

  /** Output acceptance is stricter than `validateA2UI`: an empty
      `component` object is rejected here. */
  lemma EmptyComponentObjectRejected(id: string)
    requires id != []
    ensures FirstRejection([JObj([("id", JStr(id)), ("component", EmptyObject)])]) ==
            Some("Invalid component structure for " + id)
  {
    var c := JObj([("id", JStr(id)), ("component", EmptyObject)]);
    assert Get([("component", EmptyObject)], "component") == Some(EmptyObject);
    assert Prop(c, "id") == Some(JStr(id));
    assert Prop(c, "component") == Some(EmptyObject);
    assert RejectionOf(c) == Some("Invalid component structure for " + id);
    assert seq(1, i requires 0 <= i < 1 => RejectionOf([c][i])) == [RejectionOf(c)];
  }

  // ---------------------------------------------------------------------------
  // The chat history sent with a request (lines 287-294)
  // ---------------------------------------------------------------------------

  /** One history entry as the model client receives it. */
  datatype Content = Content(role: string, text: string)

  /** `filter((msg) => !msg.components)`: a message with a components array,
      even an empty one, is dropped. */
  function PlainMessages(history: seq<ChatMessage>): seq<ChatMessage>
    decreases |history|
  {
    if history == [] then []
    else
      var rest := PlainMessages(history[..|history| - 1]);
      if history[|history| - 1].components.None? then rest + [history[|history| - 1]] else rest
  }

  /** `slice(-n)`: the last `n` elements, or all of them when there are fewer. */
  function LastN<T>(xs: seq<T>, n: nat): seq<T> {
    if |xs| <= n then xs else xs[|xs| - n..]
  }

  function RoleFor(role: string): string {
    if role == "user" then "user" else "model"
  }

  /** `map((msg) => ({ role: ..., parts: [{ text: msg.content }] }))`. */
  function Contents(kept: seq<ChatMessage>): seq<Content> {
    seq(|kept|, i requires 0 <= i < |kept| => Content(RoleFor(kept[i].role), kept[i].content))
  }

  function ModelHistory(history: seq<ChatMessage>): seq<Content> {
    Contents(LastN(PlainMessages(history), 10))
  }

  /** The filter keeps exactly the messages without components, in order. */
  lemma {:induction false} PlainMessagesSpec(history: seq<ChatMessage>)
    ensures |PlainMessages(history)| <= |history|
    ensures forall i :: 0 <= i < |PlainMessages(history)| ==> PlainMessages(history)[i].components.None?
    ensures forall m :: m in PlainMessages(history) <==> m in history && m.components.None?
    decreases |history|
  {
    if history != [] {
      var front := history[..|history| - 1];
      PlainMessagesSpec(front);
      assert history == front + [history[|history| - 1]];
      assert forall m :: m in history <==> m in front || m == history[|history| - 1];
    }
  }

  /** The filter works message by message: a plain message is kept in place
      and a message with components is dropped, so the kept messages stay in
      their original order. */
  lemma {:induction false} PlainMessagesAppend(a: seq<ChatMessage>, b: seq<ChatMessage>)
    ensures PlainMessages(a + b) == PlainMessages(a) + PlainMessages(b)
    decreases |b|
  {
    if b == [] {
      assert a + b == a;
    } else {
      var front := b[..|b| - 1];
      PlainMessagesAppend(a, front);
      assert (a + b)[..|a + b| - 1] == a + front;
      assert (a + b)[|a + b| - 1] == b[|b| - 1];
    }
  }

  /** At most the ten most recent plain messages are sent, in order, with
      `user` kept and every other role sent as `model`. */
  lemma ModelHistorySpec(history: seq<ChatMessage>)
    ensures var plain := PlainMessages(history);
            var r := ModelHistory(history);
            && |r| == (if |plain| <= 10 then |plain| else 10)
            && forall i :: 0 <= i < |r| ==>
                 var m := plain[|plain| - |r| + i];
                 && r[i].text == m.content
                 && (r[i].role == "user" <==> m.role == "user")
                 && (r[i].role != "user" ==> r[i].role == "model")
  {
  }

  /** Sending a message that carries components does not change the history
      the next request uses. */
  lemma ComponentMessagesAreSkipped(history: seq<ChatMessage>, m: ChatMessage)
    requires m.components.Some?
    ensures ModelHistory(history + [m]) == ModelHistory(history)
  {
    assert (history + [m])[..|history + [m]| - 1] == history;
  }

  /** The window of the last ten after one more message: it grows while it
      is not full, and loses its oldest message once it is. */
  lemma LastNSnoc<T>(xs: seq<T>, x: T)
    ensures |xs| < 10 ==> LastN(xs + [x], 10) == xs + [x]
    ensures |xs| >= 10 ==> LastN(xs + [x], 10) == LastN(xs, 10)[1..] + [x]
  {
    if |xs| >= 10 {
      var w := LastN(xs, 10);
      assert w == xs[|xs| - 10..];
      assert LastN(xs + [x], 10) == (xs + [x])[|xs| - 9..];
      assert (xs + [x])[|xs| - 9..] == xs[|xs| - 9..] + [x];
      assert w[1..] == xs[|xs| - 9..];
    }
  }

  lemma ContentsSnoc(kept: seq<ChatMessage>, m: ChatMessage)
    ensures Contents(kept + [m]) == Contents(kept) + [Content(RoleFor(m.role), m.content)]
  {
  }

  lemma ContentsTail(kept: seq<ChatMessage>)
    requires kept != []
    ensures Contents(kept[1..]) == Contents(kept)[1..]
  {
  }

  /** One more plain message is sent last; it joins the window while fewer
      than ten plain messages precede it, and once the window is full the
      oldest message leaves it. */
  lemma PlainMessageEntersWindow(history: seq<ChatMessage>, m: ChatMessage)
    requires m.components.None?
    ensures |PlainMessages(history)| < 10 ==>
              ModelHistory(history + [m]) == ModelHistory(history) + [Content(RoleFor(m.role), m.content)]
    ensures |PlainMessages(history)| >= 10 ==>
              ModelHistory(history + [m]) == ModelHistory(history)[1..] + [Content(RoleFor(m.role), m.content)]
  {
    assert (history + [m])[..|history + [m]| - 1] == history;
    var plain := PlainMessages(history);
    assert PlainMessages(history + [m]) == plain + [m];
    LastNSnoc(plain, m);
    if |plain| >= 10 {
      ContentsTail(LastN(plain, 10));
      ContentsSnoc(LastN(plain, 10)[1..], m);
    } else {
      ContentsSnoc(plain, m);
    }
  }

  // ---------------------------------------------------------------------------
  // The component-name sanitiser (line 350)
  // ---------------------------------------------------------------------------

  predicate SafeChar(c: char) {
    Text.IsLower(c) || Text.IsDigit(c) || c == '-'
  }

  predicate AllSafe(s: string) {
    forall i :: 0 <= i < |s| ==> SafeChar(s[i])
  }

  /** `replace(/[^a-z0-9-]/g, '')`. */
  function KeepSafe(s: string): string
    decreases |s|
  {
    if s == [] then []
    else (if SafeChar(s[0]) then [s[0]] else []) + KeepSafe(s[1..])
  }

  /** `componentName.toLowerCase().replace(/[^a-z0-9-]/g, '')`. */
  function SafeName(name: string): string {
    KeepSafe(Text.Lower(name))
  }

  /** The filter keeps exactly the allowed characters, in order. */
  lemma {:induction false} KeepSafeSpec(s: string)
    ensures AllSafe(KeepSafe(s))
    ensures AllSafe(s) ==> KeepSafe(s) == s
    ensures |KeepSafe(s)| <= |s|
    ensures (forall i :: 0 <= i < |s| ==> !SafeChar(s[i])) ==> KeepSafe(s) == []
    decreases |s|
  {
    if s != [] {
      KeepSafeSpec(s[1..]);
      assert forall i :: 0 <= i < |s[1..]| ==> s[1..][i] == s[i + 1];
    }
  }

  /** The filter works character by character: an allowed character is kept
      in place and any other is dropped, so the allowed characters of a mixed
      name survive in their order. */
  lemma {:induction false} KeepSafeAppend(a: string, b: string)
    ensures KeepSafe(a + b) == KeepSafe(a) + KeepSafe(b)
    decreases |a|
  {
    if a == [] {
      assert a + b == b;
    } else {
      var ab := a + b;
      assert ab[1..] == a[1..] + b;
      assert ab[0] == a[0];
      KeepSafeAppend(a[1..], b);
      var head: string := if SafeChar(a[0]) then [a[0]] else [];
      assert KeepSafe(ab) == head + KeepSafe(a[1..] + b);
      assert KeepSafe(a) == head + KeepSafe(a[1..]);
    }
  }

  /** A character outside the allowed set is dropped from between two kept
      ones: `a!b` is filtered to `ab`. */
  lemma KeepSafeExample()
    ensures KeepSafe("a!b") == "ab"
  {
    assert "a!b"[1..] == "!b" && "!b"[1..] == "b" && "b"[1..] == [];
  }

  /** The sanitised name holds only lower-case letters, digits and '-', so no
      '/' or '.' reaches the file path; a name already in that form is kept,
      so the sanitiser is idempotent. */
  lemma SafeNameSpec(name: string)
    ensures AllSafe(SafeName(name))
    ensures forall i :: 0 <= i < |SafeName(name)| ==> SafeName(name)[i] != '/' && SafeName(name)[i] != '.'
    ensures AllSafe(name) ==> SafeName(name) == name
    ensures SafeName(SafeName(name)) == SafeName(name)
  {
    KeepSafeSpec(Text.Lower(name));
    KeepSafeSpec(SafeName(name));
    if AllSafe(name) {
      Text.LowerOfLowercase(name);
    }
    assert Text.NoUpper(SafeName(name));
    Text.LowerOfLowercase(SafeName(name));
  }
}
