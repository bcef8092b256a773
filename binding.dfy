/** `resolveDataBinding` (components/a2ui/A2UIRenderer.tsx, lines 57-90): a
    bound value is either a plain primitive, an object carrying one of the
    literal fields, or an object whose `path` is walked through the data
    model one `/`-separated segment at a time. */
module Binding {

  import opened Wrappers
  import Text
  import opened Json

  /** What a call produces: `undefined`, a value, or a thrown `TypeError`
      (a truthy `path` that is not a string has no `split` method). */
  datatype Resolved = Undefined | Value(v: Json) | Throws

  function FromOption(o: Option<Json>): (r: Resolved)
    ensures o.Some? ==> r == Value(o.value)
    ensures o.None? ==> r == Undefined
  {
    if o.Some? then Value(o.value) else Undefined
  }

  /** `path.split('/').filter(Boolean)`: the non-empty runs between slashes. */
  function Segments(path: string): seq<string> {
    Text.NonEmpty(Text.Split(path, '/'))
  }

  /** Every segment is a non-empty string without a slash. */
  lemma SegmentsShape(path: string)
    ensures forall i :: 0 <= i < |Segments(path)| ==> Segments(path)[i] != [] && '/' !in Segments(path)[i]
  {
    Text.SplitPiecesAvoidSeparator(path, '/');
    Text.NonEmptyShape(Text.Split(path, '/'));
    Text.NonEmptyKeepsSubset(Text.Split(path, '/'), '/');
  }

  /** How one segment reads a value that is neither `undefined` nor `null`
      (lines 78-83): when `parseInt(part, 10)` is a number and the value is an
      array, the element at that number (none for a negative or out-of-range
      number; `-0` reads element 0, as `String(-0)` is `"0"`); otherwise the
      property named by the segment itself. */
  function Step(value: Json, part: string): Option<Json> {
    match Text.ParseInt(part)
    case Some(n) =>
      if value.JArr? then (if 0 <= n < |value.items| then Some(value.items[n]) else None)
      else Prop(value, part)
    case None => Prop(value, part)
  }

  /** The `for` loop of lines 75-84 as a function: a value that is `undefined`
      or `null` before a segment makes the whole walk `undefined`. */
  function Walk(value: Option<Json>, parts: seq<string>): Option<Json>
    decreases |parts|
  {
    if parts == [] then value
    else if value.None? || value.value.JNull? then None
    else Walk(Step(value.value, parts[0]), parts[1..])
  }

  /** What `resolveDataBinding(bound)` returns against `dataModel`; `None` is
      an `undefined` argument. */
  function Resolution(dataModel: Json, bound: Option<Json>): Resolved {
    if bound.None? || bound.value.JNull? then Undefined
    else
      var b := bound.value;
      if IsPrimitive(b) then Value(b)
      else if Prop(b, "literalString").Some? then Value(Prop(b, "literalString").value)
      else if Prop(b, "literalNumber").Some? then Value(Prop(b, "literalNumber").value)
      else if Prop(b, "literalBoolean").Some? then Value(Prop(b, "literalBoolean").value)
      else if TruthyOpt(Prop(b, "path")) then
        match Prop(b, "path").value
        case JStr(p) => FromOption(Walk(Some(dataModel), Segments(p)))
        case _ => Throws
      else Undefined
  }

  /** `resolveDataBinding` (lines 57-90), with its loop over the segments. */
  method ResolveDataBinding(dataModel: Json, bound: Option<Json>) returns (r: Resolved)
    ensures r == Resolution(dataModel, bound)
  {
    if bound.None? || bound.value.JNull? {
      return Undefined;
    }
    var b := bound.value;
    if IsPrimitive(b) {
      return Value(b);
    }
    var literalString := Prop(b, "literalString");
    if literalString.Some? {
      return Value(literalString.value);
    }
    var literalNumber := Prop(b, "literalNumber");
    if literalNumber.Some? {
      return Value(literalNumber.value);
    }
    var literalBoolean := Prop(b, "literalBoolean");
    if literalBoolean.Some? {
      return Value(literalBoolean.value);
    }
    var path := Prop(b, "path");
    if !TruthyOpt(path) {
      return Undefined;
    }
    if !path.value.JStr? {
      return Throws;
    }
    var value := WalkPath(dataModel, Segments(path.value.s));
    return FromOption(value);
  }

  /** The loop of lines 73-86 over the segments of the path. */
  method WalkPath(dataModel: Json, parts: seq<string>) returns (value: Option<Json>)
    ensures value == Walk(Some(dataModel), parts)
  {
    value := Some(dataModel);
    var i := 0;
    while i < |parts|
      invariant 0 <= i <= |parts|
      invariant Walk(value, parts[i..]) == Walk(Some(dataModel), parts)
    {
      if value.None? || value.value.JNull? {
        return None;
      }
      assert parts[i..][1..] == parts[i + 1..];
      value := Step(value.value, parts[i]);
      i := i + 1;
    }
  }

  // ---------------------------------------------------------------------------
  // Properties
  // ---------------------------------------------------------------------------

  /** `undefined` and `null` give `undefined`; a string, number or boolean is
      its own value; and a call throws only for a truthy `path` that is not a
      string. */
  lemma ResolutionOfPlainValues(dataModel: Json, bound: Option<Json>)
    ensures bound.None? || bound == Some(JNull) ==> Resolution(dataModel, bound) == Undefined
    ensures bound.Some? && IsPrimitive(bound.value) ==> Resolution(dataModel, bound) == Value(bound.value)
    ensures Resolution(dataModel, bound) == Throws <==>
              && bound.Some? && (bound.value.JArr? || bound.value.JObj?)
              && Prop(bound.value, "literalString").None?
              && Prop(bound.value, "literalNumber").None?
              && Prop(bound.value, "literalBoolean").None?
              && TruthyOpt(Prop(bound.value, "path")) && !Prop(bound.value, "path").value.JStr?
  {
  }

  /** The literal fields come first, in the order string, number, boolean; a
      field counts as soon as it is present, whatever its value (an empty
      `literalString` still wins over a path). */
  lemma LiteralPriority(dataModel: Json, entries: seq<(string, Json)>)
    ensures Get(entries, "literalString").Some? ==>
              Resolution(dataModel, Some(JObj(entries))) == Value(Get(entries, "literalString").value)
    ensures Get(entries, "literalString").None? && Get(entries, "literalNumber").Some? ==>
              Resolution(dataModel, Some(JObj(entries))) == Value(Get(entries, "literalNumber").value)
    ensures Get(entries, "literalString").None? && Get(entries, "literalNumber").None? &&
            Get(entries, "literalBoolean").Some? ==>
              Resolution(dataModel, Some(JObj(entries))) == Value(Get(entries, "literalBoolean").value)
  {
  }

  /** An object with none of the four fields, or with an empty `path`, gives
      `undefined`. */
  lemma NoBindingIsUndefined(dataModel: Json, entries: seq<(string, Json)>)
    requires Get(entries, "literalString").None? && Get(entries, "literalNumber").None?
    requires Get(entries, "literalBoolean").None?
    requires Get(entries, "path").None? || Get(entries, "path") == Some(JStr(""))
    ensures Resolution(dataModel, Some(JObj(entries))) == Undefined
  {
  }

  /** Splitting at one slash splits each side on its own. */
  lemma SegmentsAcrossSlash(a: string, b: string)
    ensures Segments(a + "/" + b) == Segments(a) + Segments(b)
  {
    Text.SplitAcross(a, '/', b);
    Text.NonEmptyAppend(Text.Split(a, '/'), Text.Split(b, '/'));
  }

  lemma SegmentsOfEmpty()
    ensures Segments("") == []
  {
    assert Text.Split("", '/') == [[]];
    assert Text.NonEmpty([[]]) == Text.NonEmpty([]);
  }

  lemma SegmentsLeadingSlash(b: string)
    ensures Segments("/" + b) == Segments(b)
  {
    SegmentsOfEmpty();
    SegmentsAcrossSlash("", b);
    assert "" + "/" + b == "/" + b;
  }

  lemma SegmentsDoubleSlash(a: string, b: string)
    ensures Segments(a + "//" + b) == Segments(a + "/" + b)
  {
    SegmentsOfEmpty();
    SegmentsAcrossSlash(a + "/", b);
    SegmentsAcrossSlash(a, "");
    SegmentsAcrossSlash(a, b);
    assert a + "/" + "/" + b == a + "//" + b;
    assert a + "/" + "" == a + "/";
  }

  lemma SegmentsTrailingSlash(a: string)
    ensures Segments(a + "/") == Segments(a)
  {
    SegmentsOfEmpty();
    SegmentsAcrossSlash(a, "");
    assert a + "/" + "" == a + "/";
  }

  /** Leading, doubled and trailing slashes do not matter: `/a/b`, `a/b`,
      `a//b` and `a/b/` name the same segments, and `/` names none. */
  lemma SegmentsIgnoreEmptyRuns(a: string, b: string)
    ensures Segments("/" + b) == Segments(b)
    ensures Segments(a + "//" + b) == Segments(a + "/" + b)
    ensures Segments(a + "/") == Segments(a)
    ensures Segments("/") == []
  {
    SegmentsLeadingSlash(b);
    SegmentsDoubleSlash(a, b);
    SegmentsTrailingSlash(a);
    SegmentsLeadingSlash("");
    SegmentsOfEmpty();
    assert "/" + "" == "/";
  }

  /** Segments joined by slashes are read back as written. */
  lemma SegmentsOfJoin(parts: seq<string>)
    requires parts != []
    requires forall i :: 0 <= i < |parts| ==> parts[i] != [] && '/' !in parts[i]
    ensures Segments(Text.Join(parts, '/')) == parts
  {
    Text.SplitJoin(parts, '/');
    Text.NonEmptyKeepsNonEmpty(parts);
  }

  /** The bound value `{path: p}`. */
  function PathBinding(p: string): Json {
    JObj([("path", JStr(p))])
  }

  /** A bare path binding walks the data model along the segments of a
      non-empty path. */
  lemma ResolutionOfPath(dataModel: Json, p: string)
    ensures Resolution(dataModel, Some(PathBinding(p))) ==
              if p == "" then Undefined else FromOption(Walk(Some(dataModel), Segments(p)))
  {
    var e := [("path", JStr(p))];
    assert e[1..] == [];
    assert Get(e, "literalString") == None;
    assert Get(e, "literalNumber") == None;
    assert Get(e, "literalBoolean") == None;
    assert Get(e, "path") == Some(JStr(p));
  }

  /** Paths with the same segments resolve identically, so `/a/b`, `a/b` and
      `a//b` do. */
  lemma SameSegmentsSameResolution(dataModel: Json, p1: string, p2: string)
    requires p1 != "" && p2 != ""
    requires Segments(p1) == Segments(p2)
    ensures Resolution(dataModel, Some(PathBinding(p1))) == Resolution(dataModel, Some(PathBinding(p2)))
  {
    ResolutionOfPath(dataModel, p1);
    ResolutionOfPath(dataModel, p2);
  }

  /** A path of slashes only resolves to the whole data model. */
  lemma SlashPathIsDataModel(dataModel: Json)
    ensures Resolution(dataModel, Some(PathBinding("/"))) == Value(dataModel)
  {
    SegmentsIgnoreEmptyRuns("", "");
    ResolutionOfPath(dataModel, "/");
  }

  /** Walking a path in two pieces is walking it whole. */
  lemma {:induction false} WalkAppend(value: Option<Json>, p: seq<string>, q: seq<string>)
    ensures Walk(value, p + q) == Walk(Walk(value, p), q)
    decreases |p|
  {
    if p == [] {
      assert p + q == q;
    } else if value.None? || value.value.JNull? {
      assert (p + q) != [];
      WalkFromNothing(q);
    } else {
      assert (p + q)[1..] == p[1..] + q;
      WalkAppend(Step(value.value, p[0]), p[1..], q);
    }
  }

  /** Once the walk is `undefined` it stays so; after `null`, any further
      segment makes it `undefined` without throwing. */
  lemma WalkFromNothing(q: seq<string>)
    ensures Walk(None, q) == None
    ensures q != [] ==> Walk(Some(JNull), q) == None
  {
  }

  /** An array is indexed by the number `parseInt` reads from the front of
      the segment, so `1` and `1abc` both pick element 1; an index past the
      end gives `undefined`. */
  lemma StepIndexesArrays(items: seq<Json>, n: nat, rest: string)
    requires rest == [] || !Text.IsDigit(rest[0])
    ensures Step(JArr(items), Text.NatToString(n) + rest) == if n < |items| then Some(items[n]) else None
  {
    Text.ParseIntOfNumericPrefix(n, rest);
  }

  /** On an object, a segment is always a property name, numeric or not. */
  lemma StepReadsObjects(entries: seq<(string, Json)>, part: string)
    ensures Step(JObj(entries), part) == Get(entries, part)
  {
  }

  /** The data model `{a: {b: [{c: 42}]}}`. */
  function SampleModel(): Json {
    JObj([("a", JObj([("b", JArr([JObj([("c", JNum(42))])]))]))])
  }

  lemma SegmentsOfWord(w: string)
    requires w != [] && '/' !in w
    ensures Segments(w) == [w]
  {
    Text.SplitWithoutSeparator(w, '/');
    Text.NonEmptyKeepsNonEmpty([w]);
  }

  /** Prepending one segment and a slash adds that segment in front. */
  lemma SegmentsCons(w: string, rest: string)
    requires w != [] && '/' !in w
    ensures Segments(w + "/" + rest) == [w] + Segments(rest)
  {
    SegmentsOfWord(w);
    SegmentsAcrossSlash(w, rest);
  }

  lemma SampleSegmentsTail()
    ensures Segments("0/c") == ["0", "c"]
  {
    SegmentsCons("0", "c");
    SegmentsOfWord("c");
    assert "0" + "/" + "c" == "0/c";
  }

  lemma SampleSegmentsMiddle()
    ensures Segments("b/0/c") == ["b", "0", "c"]
  {
    SampleSegmentsTail();
    SegmentsCons("b", "0/c");
    assert "b" + "/" + "0/c" == "b/0/c";
  }

  lemma SampleSegments()
    ensures Segments("/a/b/0/c") == ["a", "b", "0", "c"]
  {
    SampleSegmentsMiddle();
    SegmentsCons("a", "b/0/c");
    assert "a" + "/" + "b/0/c" == "a/b/0/c";
    SegmentsLeadingSlash("a/b/0/c");
    assert "/" + "a/b/0/c" == "/a/b/0/c";
  }

  lemma LettersAreNotNumbers()
    ensures Text.ParseInt("a") == None && Text.ParseInt("b") == None && Text.ParseInt("c") == None
  {
    NotANumber("a");
    NotANumber("b");
    NotANumber("c");
  }

  lemma NotANumber(part: string)
    requires part != [] && !Text.IsDigit(part[0]) && !Text.IsJsSpace(part[0])
    requires part[0] != '-' && part[0] != '+'
    ensures Text.ParseInt(part) == None
  {
    assert Text.TrimStart(part) == part;
  }

  /** A value other than `undefined` and `null` takes the first segment's step. */
  lemma WalkCons(v: Json, part: string, rest: seq<string>)
    requires !v.JNull?
    ensures Walk(Some(v), [part] + rest) == Walk(Step(v, part), rest)
  {
    assert ([part] + rest)[1..] == rest;
  }

  /** A non-numeric segment reads an object's property. */
  lemma StepByKey(k: string, v: Json)
    requires Text.ParseInt(k) == None
    ensures Step(JObj([(k, v)]), k) == Some(v)
  {
  }

  /** Object keys and an array index compose: `a/b/n/c` reads `c` from the
      `n`-th element of the array under `b` under `a`. */
  lemma NestedWalk(a: string, b: string, c: string, n: nat, items: seq<Json>, leaf: Json)
    requires Text.ParseInt(a) == None && Text.ParseInt(b) == None && Text.ParseInt(c) == None
    requires n < |items| && items[n] == JObj([(c, leaf)])
    ensures Walk(Some(JObj([(a, JObj([(b, JArr(items))]))])), [a, b, Text.NatToString(n), c]) == Some(leaf)
  {
    var inner := JObj([(b, JArr(items))]);
    var index := Text.NatToString(n);
    StepByKey(a, inner);
    StepByKey(b, JArr(items));
    StepIndexesArrays(items, n, "");
    assert index + "" == index;
    StepByKey(c, leaf);
    WalkCons(JObj([(c, leaf)]), c, []);
    WalkCons(JArr(items), index, [c]);
    WalkCons(inner, b, [index, c]);
    WalkCons(JObj([(a, inner)]), a, [b, index, c]);
    assert [c] + [] == [c];
    assert [index] + [c] == [index, c];
    assert [b] + [index, c] == [b, index, c];
    assert [a] + [b, index, c] == [a, b, index, c];
  }

  /** `/a/b/0/c` against `{a: {b: [{c: 42}]}}` is 42: object keys, then an
      array index, then an object key. */
  lemma SampleResolution()
    ensures Resolution(SampleModel(), Some(PathBinding("/a/b/0/c"))) == Value(JNum(42))
  {
    SampleSegments();
    LettersAreNotNumbers();
    NestedWalk("a", "b", "c", 0, [JObj([("c", JNum(42))])], JNum(42));
    assert Text.NatToString(0) == "0";
    ResolutionOfPath(SampleModel(), "/a/b/0/c");
  }
}
