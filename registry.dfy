/** The type registry of components/a2ui/ComponentRegistry.tsx: a map from a
    component type name to its renderer, kept by a JavaScript `Map` whose key
    order is the order of first insertion. Renderers are opaque tokens. */
module Registry {

  import opened Wrappers
  import Text
  import opened Registrations

  /** A renderer. A hand-written one is known by the line of its `register`
      call; the generic wrapper built by `registerSimple` by the component it
      wraps (the primary name and its aliases share one wrapper). */
  datatype Renderer = Curated(line: nat) | Generic(component: string)

  // ---------------------------------------------------------------------------
  // Alias derivation
  // ---------------------------------------------------------------------------

  predicate IsLowerOrDigit(c: char) { Text.IsLower(c) || Text.IsDigit(c) }

  /** `s.replace(/([a-z0-9])([A-Z])/g, '$1-$2')`: scanning left to right, a
      lower-case letter or digit followed by an upper-case letter is a match;
      a hyphen goes between the two and the scan resumes after the match. */
  function HyphenateLowerUpper(s: string): string
    decreases |s|
  {
    if |s| >= 2 && IsLowerOrDigit(s[0]) && Text.IsUpper(s[1]) then
      [s[0], '-', s[1]] + HyphenateLowerUpper(s[2..])
    else if s == [] then []
    else [s[0]] + HyphenateLowerUpper(s[1..])
  }

  /** `s.replace(/([A-Z])([A-Z][a-z])/g, '$1-$2')`: an upper-case letter
      followed by an upper-case letter and a lower-case letter is a match; a
      hyphen goes after the first letter and the scan resumes after the match. */
  function HyphenateAcronym(s: string): string
    decreases |s|
  {
    if |s| >= 3 && Text.IsUpper(s[0]) && Text.IsUpper(s[1]) && Text.IsLower(s[2]) then
      [s[0], '-', s[1], s[2]] + HyphenateAcronym(s[3..])
    else if s == [] then []
    else [s[0]] + HyphenateAcronym(s[1..])
  }

  /** The kebab-case alias of lines 1377-1380: both rewrites, then lower case. */
  function Kebab(name: string): string {
    Text.Lower(HyphenateAcronym(HyphenateLowerUpper(name)))
  }

  /** The two aliases of line 1382, lower case first. */
  function Aliases(name: string): seq<string> {
    [Text.Lower(name), Kebab(name)]
  }

  /** `s` with every hyphen removed. */
  function Unhyphenated(s: string): (r: string)
    ensures '-' !in r
    decreases |s|
  {
    if s == [] then [] else (if s[0] == '-' then [] else [s[0]]) + Unhyphenated(s[1..])
  }

  lemma {:induction false} UnhyphenatedAppend(a: string, b: string)
    ensures Unhyphenated(a + b) == Unhyphenated(a) + Unhyphenated(b)
    decreases |a|
  {
    if a != [] {
      assert (a + b)[1..] == a[1..] + b;
      UnhyphenatedAppend(a[1..], b);
    } else {
      assert a + b == b;
    }
  }

  lemma {:induction false} HyphenateLowerUpperOnlyInsertsHyphens(s: string)
    ensures Unhyphenated(HyphenateLowerUpper(s)) == Unhyphenated(s)
    ensures |HyphenateLowerUpper(s)| >= |s|
    decreases |s|
  {
    if |s| >= 2 && IsLowerOrDigit(s[0]) && Text.IsUpper(s[1]) {
      HyphenateLowerUpperOnlyInsertsHyphens(s[2..]);
      UnhyphenatedAppend([s[0], '-', s[1]], HyphenateLowerUpper(s[2..]));
      UnhyphenatedAppend([s[0], s[1]], s[2..]);
      assert s == [s[0], s[1]] + s[2..];
      assert Unhyphenated([s[0], '-', s[1]]) == Unhyphenated([s[0], s[1]]);
    } else if s != [] {
      HyphenateLowerUpperOnlyInsertsHyphens(s[1..]);
      UnhyphenatedAppend([s[0]], HyphenateLowerUpper(s[1..]));
    }
  }

  lemma {:induction false} HyphenateAcronymOnlyInsertsHyphens(s: string)
    ensures Unhyphenated(HyphenateAcronym(s)) == Unhyphenated(s)
    ensures |HyphenateAcronym(s)| >= |s|
    decreases |s|
  {
    if |s| >= 3 && Text.IsUpper(s[0]) && Text.IsUpper(s[1]) && Text.IsLower(s[2]) {
      HyphenateAcronymOnlyInsertsHyphens(s[3..]);
      UnhyphenatedAppend([s[0], '-', s[1], s[2]], HyphenateAcronym(s[3..]));
      UnhyphenatedAppend([s[0], s[1], s[2]], s[3..]);
      assert s == [s[0], s[1], s[2]] + s[3..];
      assert Unhyphenated([s[0], '-', s[1], s[2]]) == Unhyphenated([s[0], s[1], s[2]]);
    } else if s != [] {
      HyphenateAcronymOnlyInsertsHyphens(s[1..]);
      UnhyphenatedAppend([s[0]], HyphenateAcronym(s[1..]));
    }
  }

  lemma {:induction false} UnhyphenatedLower(s: string)
    ensures Unhyphenated(Text.Lower(s)) == Text.Lower(Unhyphenated(s))
    decreases |s|
  {
    if s != [] {
      UnhyphenatedLower(s[1..]);
      assert Text.Lower(s) == [Text.LowerChar(s[0])] + Text.Lower(s[1..]);
      assert Text.Lower(s)[1..] == Text.Lower(s[1..]);
      if s[0] != '-' {
        assert Text.Lower([s[0]] + Unhyphenated(s[1..])) == [Text.LowerChar(s[0])] + Text.Lower(Unhyphenated(s[1..]));
      }
    }
  }

  /** The kebab alias is the lower-case name with hyphens inserted, and no
      shorter than the name. */
  lemma KebabIsLowerWithHyphens(name: string)
    ensures Unhyphenated(Kebab(name)) == Text.Lower(Unhyphenated(name))
    ensures |Kebab(name)| >= |name|
    ensures Text.NoUpper(Kebab(name))
  {
    HyphenateLowerUpperOnlyInsertsHyphens(name);
    HyphenateAcronymOnlyInsertsHyphens(HyphenateLowerUpper(name));
    UnhyphenatedLower(HyphenateAcronym(HyphenateLowerUpper(name)));
  }

  lemma {:induction false} HyphenateLowerUpperOfLowercase(s: string)
    requires Text.NoUpper(s)
    ensures HyphenateLowerUpper(s) == s
    decreases |s|
  {
    if s != [] {
      HyphenateLowerUpperOfLowercase(s[1..]);
      assert [s[0]] + s[1..] == s;
    }
  }

  lemma {:induction false} HyphenateAcronymOfLowercase(s: string)
    requires Text.NoUpper(s)
    ensures HyphenateAcronym(s) == s
    decreases |s|
  {
    if s != [] {
      HyphenateAcronymOfLowercase(s[1..]);
      assert [s[0]] + s[1..] == s;
    }
  }

  /** A name without upper-case letters is its own kebab form, so the kebab
      rewrite is idempotent. */
  lemma KebabIdempotent(name: string)
    ensures Text.NoUpper(name) ==> Kebab(name) == name
    ensures Kebab(Kebab(name)) == Kebab(name)
  {
    if Text.NoUpper(name) {
      HyphenateLowerUpperOfLowercase(name);
      HyphenateAcronymOfLowercase(name);
      Text.LowerOfLowercase(name);
    }
    KebabIsLowerWithHyphens(name);
    var k := Kebab(name);
    HyphenateLowerUpperOfLowercase(k);
    HyphenateAcronymOfLowercase(k);
    Text.LowerOfLowercase(k);
  }

  /** The string starts with a match of the first rewrite. */
  predicate StartsLowerUpper(s: string) {
    |s| >= 2 && IsLowerOrDigit(s[0]) && Text.IsUpper(s[1])
  }

  /** The string starts with a match of the second rewrite. */
  predicate StartsAcronym(s: string) {
    |s| >= 3 && Text.IsUpper(s[0]) && Text.IsUpper(s[1]) && Text.IsLower(s[2])
  }

  /** Appending to a piece whose last character is not a lower-case letter
      or digit leaves the first rewrite's decision at its start unchanged. */
  lemma LowerUpperSameStart(a: string, b: string)
    requires a != [] && !IsLowerOrDigit(a[|a| - 1])
    ensures StartsLowerUpper(a + b) == StartsLowerUpper(a)
    ensures (a + b)[0] == a[0]
  {
    var ab := a + b;
    if |a| >= 2 {
      assert ab[0] == a[0] && ab[1] == a[1];
    } else {
      assert ab[0] == a[0];
    }
  }

  /** The first rewrite works piece by piece when the left piece cannot start
      a match across the boundary. */
  lemma {:induction false} HyphenateLowerUpperAppend(a: string, b: string)
    requires a == [] || !IsLowerOrDigit(a[|a| - 1])
    ensures HyphenateLowerUpper(a + b) == HyphenateLowerUpper(a) + HyphenateLowerUpper(b)
    decreases |a|
  {
    var ab := a + b;
    if a == [] {
      assert ab == b;
    } else {
      LowerUpperSameStart(a, b);
      var k := if StartsLowerUpper(a) then 2 else 1;
      assert ab[k..] == a[k..] + b;
      HyphenateLowerUpperAppend(a[k..], b);
      if k == 2 { assert ab[1] == a[1]; }
    }
  }

  /** Appending to a piece that does not end in an upper-case letter leaves
      the second rewrite's decision at its start unchanged. */
  lemma AcronymSameStart(a: string, b: string)
    requires a != [] && !Text.IsUpper(a[|a| - 1])
    ensures StartsAcronym(a + b) == StartsAcronym(a)
    ensures (a + b)[0] == a[0]
  {
    var ab := a + b;
    if |a| >= 3 {
      assert ab[0] == a[0] && ab[1] == a[1] && ab[2] == a[2];
    } else if |a| == 2 {
      assert ab[0] == a[0] && ab[1] == a[1];
    } else {
      assert ab[0] == a[0];
    }
  }

  /** The second rewrite works piece by piece when the left piece does not end
      in an upper-case letter. */
  lemma {:induction false} HyphenateAcronymAppend(a: string, b: string)
    requires a == [] || !Text.IsUpper(a[|a| - 1])
    ensures HyphenateAcronym(a + b) == HyphenateAcronym(a) + HyphenateAcronym(b)
    decreases |a|
  {
    var ab := a + b;
    if a == [] {
      assert ab == b;
    } else {
      AcronymSameStart(a, b);
      var k := if StartsAcronym(a) then 3 else 1;
      assert ab[k..] == a[k..] + b;
      HyphenateAcronymAppend(a[k..], b);
      if k == 3 { assert ab[1] == a[1] && ab[2] == a[2]; }
    }
  }

  /** A capitalised word: an upper-case letter, a lower-case letter, then
      any lower-case letters and digits, as in `Card`, `Content` or `Area2`. */
  predicate IsCapitalisedWord(w: string) {
    |w| >= 2 && Text.IsUpper(w[0]) && Text.IsLower(w[1]) && forall i :: 1 <= i < |w| ==> IsLowerOrDigit(w[i])
  }

  /** An acronym: a run of upper-case letters, as in `OTP`. */
  predicate IsAcronym(w: string) {
    w != [] && forall i :: 0 <= i < |w| ==> Text.IsUpper(w[i])
  }

  /** The words of a PascalCase type name: capitalised words and acronyms, an
      acronym being followed by a capitalised word or ending the name. */
  predicate IsWordList(words: seq<string>) {
    && words != []
    && (forall i :: 0 <= i < |words| ==> IsCapitalisedWord(words[i]) || IsAcronym(words[i]))
    && (forall i :: 0 <= i < |words| - 1 && IsAcronym(words[i]) ==> IsCapitalisedWord(words[i + 1]))
  }

  lemma IsWordListTail(words: seq<string>)
    requires IsWordList(words) && |words| > 1
    ensures IsWordList(words[1..])
  {
    var rest := words[1..];
    forall i | 0 <= i < |rest| - 1 && IsAcronym(rest[i])
      ensures IsCapitalisedWord(rest[i + 1])
    {
      assert rest[i] == words[i + 1] && rest[i + 1] == words[i + 2];
    }
  }

  /** The words written one after the other. */
  function Concat(words: seq<string>): string
    decreases |words|
  {
    if words == [] then [] else words[0] + Concat(words[1..])
  }

  /** The words after the first rewrite: a hyphen after every capitalised
      word that is not the last, none after an acronym. */
  function AfterFirstRewrite(words: seq<string>): string
    decreases |words|
  {
    if words == [] then []
    else if |words| > 1 && IsCapitalisedWord(words[0]) then words[0] + ['-'] + AfterFirstRewrite(words[1..])
    else words[0] + AfterFirstRewrite(words[1..])
  }

  function LowerWords(words: seq<string>): (r: seq<string>)
    ensures |r| == |words| && forall i :: 0 <= i < |words| ==> r[i] == Text.Lower(words[i])
  {
    seq(|words|, i requires 0 <= i < |words| => Text.Lower(words[i]))
  }

  lemma {:induction false} HyphenateLowerUpperRun(u: string, rest: string)
    requires u != [] && forall i :: 0 <= i < |u| ==> IsLowerOrDigit(u[i])
    requires rest != [] ==> Text.IsUpper(rest[0])
    ensures HyphenateLowerUpper(u + rest) == u + (if rest == [] then [] else ['-']) + HyphenateLowerUpper(rest)
    decreases |u|
  {
    var s := u + rest;
    if |u| == 1 {
      if rest == [] {
        assert s == [u[0]];
      } else {
        assert s[2..] == rest[1..];
        assert HyphenateLowerUpper(rest) == [rest[0]] + HyphenateLowerUpper(rest[1..]);
      }
    } else {
      assert s[1..] == u[1..] + rest;
      HyphenateLowerUpperRun(u[1..], rest);
      assert u == [u[0]] + u[1..];
    }
  }

  lemma HyphenateLowerUpperWord(w: string, rest: string)
    requires IsCapitalisedWord(w)
    requires rest != [] ==> Text.IsUpper(rest[0])
    ensures HyphenateLowerUpper(w + rest) == w + (if rest == [] then [] else ['-']) + HyphenateLowerUpper(rest)
  {
    assert (w + rest)[1..] == w[1..] + rest;
    HyphenateLowerUpperRun(w[1..], rest);
    assert w == [w[0]] + w[1..];
  }

  lemma {:induction false} HyphenateLowerUpperOfAcronym(w: string)
    requires forall i :: 0 <= i < |w| ==> Text.IsUpper(w[i])
    ensures HyphenateLowerUpper(w) == w
    decreases |w|
  {
    if w != [] {
      HyphenateLowerUpperOfAcronym(w[1..]);
      assert w == [w[0]] + w[1..];
    }
  }

  lemma {:induction false} HyphenateAcronymWord(w: string)
    requires IsCapitalisedWord(w)
    ensures HyphenateAcronym(w) == w
  {
    assert Text.NoUpper(w[1..]);
    HyphenateAcronymOfLowercase(w[1..]);
    assert w == [w[0]] + w[1..];
  }

  /** Within an acronym followed by at least two more upper-case letters the
      second rewrite finds nothing. */
  lemma {:induction false} HyphenateAcronymOfAcronym(w: string)
    requires forall i :: 0 <= i < |w| ==> Text.IsUpper(w[i])
    ensures HyphenateAcronym(w) == w
    decreases |w|
  {
    if w != [] {
      HyphenateAcronymOfAcronym(w[1..]);
      assert w == [w[0]] + w[1..];
    }
  }

  /** An acronym followed by a capitalised word: the second rewrite puts one
      hyphen between them. */
  lemma {:induction false} HyphenateAcronymBeforeWord(a: string, w: string, rest: string)
    requires IsAcronym(a) && IsCapitalisedWord(w)
    ensures HyphenateAcronym(a + w + rest) == a + ['-'] + HyphenateAcronym(w + rest)
    decreases |a|
  {
    var s := a + w + rest;
    var t := w + rest;
    assert HyphenateAcronym(t) == [t[0]] + HyphenateAcronym(t[1..]);
    assert HyphenateAcronym(t[1..]) == [t[1]] + HyphenateAcronym(t[2..]);
    if |a| == 1 {
      assert s[3..] == t[2..];
      assert t == [t[0], t[1]] + t[2..];
    } else {
      assert s == [a[0]] + (a[1..] + w + rest);
      HyphenateAcronymBeforeWord(a[1..], w, rest);
      assert a == [a[0]] + a[1..];
    }
  }

  /** The first rewrite on the words of a name. */
  lemma {:induction false} HyphenateLowerUpperWords(words: seq<string>)
    requires IsWordList(words)
    ensures HyphenateLowerUpper(Concat(words)) == AfterFirstRewrite(words)
    decreases |words|
  {
    var w := words[0];
    var rest := words[1..];
    if rest == [] {
      assert Concat(words) == w + [] == w;
      assert AfterFirstRewrite(words) == w + [] == w;
      if IsCapitalisedWord(w) {
        HyphenateLowerUpperWord(w, []);
      } else {
        assert IsAcronym(w);
        HyphenateLowerUpperOfAcronym(w);
      }
    } else {
      IsWordListTail(words);
      HyphenateLowerUpperWords(rest);
      assert Concat(rest) == rest[0] + Concat(rest[1..]);
      if IsCapitalisedWord(w) {
        HyphenateLowerUpperWord(w, Concat(rest));
      } else {
        assert IsAcronym(w);
        HyphenateLowerUpperAppend(w, Concat(rest));
        HyphenateLowerUpperOfAcronym(w);
      }
    }
  }

  /** The second rewrite on the result of the first: the words joined by
      hyphens. */
  lemma {:induction false} HyphenateAcronymWords(words: seq<string>)
    requires IsWordList(words)
    ensures HyphenateAcronym(AfterFirstRewrite(words)) == Text.Join(words, '-')
    decreases |words|
  {
    var w := words[0];
    var rest := words[1..];
    if rest == [] {
      assert AfterFirstRewrite(words) == w + [] == w;
      if IsCapitalisedWord(w) {
        HyphenateAcronymWord(w);
      } else {
        assert IsAcronym(w);
        HyphenateAcronymOfAcronym(w);
      }
    } else {
      IsWordListTail(words);
      HyphenateAcronymWords(rest);
      var r := AfterFirstRewrite(rest);
      assert Text.Join(words, '-') == w + ['-'] + Text.Join(rest, '-');
      if IsCapitalisedWord(w) {
        assert AfterFirstRewrite(words) == w + ['-'] + r;
        HyphenateAcronymWord(w);
        assert HyphenateAcronym(['-']) == ['-'];
        HyphenateAcronymAppend(w, ['-']);
        HyphenateAcronymAppend(w + ['-'], r);
      } else {
        assert AfterFirstRewrite(words) == w + r;
        AcronymBeforeFirstRewrite(rest, w);
      }
    }
  }

  lemma AcronymBeforeFirstRewrite(rest: seq<string>, w: string)
    requires IsAcronym(w) && rest != [] && IsCapitalisedWord(rest[0])
    ensures HyphenateAcronym(w + AfterFirstRewrite(rest)) == w + ['-'] + HyphenateAcronym(AfterFirstRewrite(rest))
  {
    var v := rest[0];
    var tail := if |rest| > 1 then ['-'] + AfterFirstRewrite(rest[1..]) else AfterFirstRewrite(rest[1..]);
    assert AfterFirstRewrite(rest) == v + tail;
    assert w + (v + tail) == w + v + tail;
    HyphenateAcronymBeforeWord(w, v, tail);
  }

  lemma {:induction false} LowerJoin(words: seq<string>)
    ensures Text.Lower(Text.Join(words, '-')) == Text.Join(LowerWords(words), '-')
    decreases |words|
  {
    if |words| > 1 {
      LowerJoin(words[1..]);
      var j := Text.Join(words[1..], '-');
      assert Text.Lower(words[0] + ['-'] + j) == Text.Lower(words[0]) + ['-'] + Text.Lower(j);
      assert LowerWords(words)[1..] == LowerWords(words[1..]);
    }
  }

  /** The kebab alias of a PascalCase name is its words in lower case joined
      by hyphens, an acronym counting as one word. */
  lemma KebabOfWords(words: seq<string>)
    requires IsWordList(words)
    ensures Kebab(Concat(words)) == Text.Join(LowerWords(words), '-')
  {
    HyphenateLowerUpperWords(words);
    HyphenateAcronymWords(words);
    LowerJoin(words);
  }

  lemma LowerOfCapitalisedWord(w: string)
    requires IsCapitalisedWord(w)
    ensures Text.Lower(w) == [Text.LowerChar(w[0])] + w[1..]
  {
    Text.LowerOfLowercase(w[1..]);
  }

  lemma WordListOfThree(a: string, b: string, c: string)
    requires IsCapitalisedWord(a) || (IsAcronym(a) && IsCapitalisedWord(b))
    requires IsCapitalisedWord(b) || (IsAcronym(b) && IsCapitalisedWord(c))
    requires IsCapitalisedWord(c) || IsAcronym(c)
    ensures IsWordList([a, b, c])
    ensures Concat([a, b, c]) == a + b + c
  {
    var words := [a, b, c];
    assert words[1..] == [b, c] && words[2..] == [c] && words[3..] == [];
    assert Concat([c]) == c;
    assert Concat([b, c]) == b + c;
    assert a + (b + c) == a + b + c;
  }

  lemma LowerWordsOfThree(a: string, b: string, c: string)
    ensures Text.Join(LowerWords([a, b, c]), '-') == Text.Lower(a) + "-" + Text.Lower(b) + "-" + Text.Lower(c)
  {
    var l := LowerWords([a, b, c]);
    assert l[1..][1..] == [l[2]];
    assert Text.Join(l[1..], '-') == l[1] + "-" + l[2];
    assert l[0] + "-" + (l[1] + "-" + l[2]) == l[0] + "-" + l[1] + "-" + l[2];
  }

  lemma InputWord() ensures IsCapitalisedWord("Input") && Text.Lower("Input") == "input" {
    assert IsCapitalisedWord("Input");
    LowerOfCapitalisedWord("Input");
  }

  lemma OTPWord() ensures IsAcronym("OTP") && Text.Lower("OTP") == "otp" {
    var otp := Text.Lower("OTP");
    assert forall i | 0 <= i < 3 :: otp[i] == "otp"[i];
  }

  lemma SlotWord() ensures IsCapitalisedWord("Slot") && Text.Lower("Slot") == "slot" {
    assert IsCapitalisedWord("Slot");
    LowerOfCapitalisedWord("Slot");
  }

  lemma AlertWord() ensures IsCapitalisedWord("Alert") && Text.Lower("Alert") == "alert" {
    assert IsCapitalisedWord("Alert");
    LowerOfCapitalisedWord("Alert");
  }

  lemma DialogWord() ensures IsCapitalisedWord("Dialog") && Text.Lower("Dialog") == "dialog" {
    assert IsCapitalisedWord("Dialog");
    LowerOfCapitalisedWord("Dialog");
  }

  lemma ActionWord() ensures IsCapitalisedWord("Action") && Text.Lower("Action") == "action" {
    assert IsCapitalisedWord("Action");
    LowerOfCapitalisedWord("Action");
  }

  lemma InputOTPSlotWords()
    ensures IsWordList(["Input", "OTP", "Slot"]) && Concat(["Input", "OTP", "Slot"]) == "InputOTPSlot"
  {
    InputWord();
    OTPWord();
    SlotWord();
    WordListOfThree("Input", "OTP", "Slot");
  }

  lemma InputOTPSlotLowered()
    ensures Text.Join(LowerWords(["Input", "OTP", "Slot"]), '-') == "input-otp-slot"
  {
    InputWord();
    OTPWord();
    SlotWord();
    LowerWordsOfThree("Input", "OTP", "Slot");
  }

  /** An acronym inside a name: `InputOTPSlot` becomes `input-otp-slot`. */
  lemma KebabAcronymExample()
    ensures Kebab("InputOTPSlot") == "input-otp-slot"
  {
    InputOTPSlotWords();
    KebabOfWords(["Input", "OTP", "Slot"]);
    InputOTPSlotLowered();
  }

  lemma AlertDialogActionWords()
    ensures IsWordList(["Alert", "Dialog", "Action"]) && Concat(["Alert", "Dialog", "Action"]) == "AlertDialogAction"
  {
    AlertWord();
    DialogWord();
    ActionWord();
    WordListOfThree("Alert", "Dialog", "Action");
  }

  lemma AlertDialogActionLowered()
    ensures Text.Join(LowerWords(["Alert", "Dialog", "Action"]), '-') == "alert-dialog-action"
  {
    AlertWord();
    DialogWord();
    ActionWord();
    LowerWordsOfThree("Alert", "Dialog", "Action");
  }

  /** A name of three words: `AlertDialogAction` becomes `alert-dialog-action`. */
  lemma KebabWordsExample()
    ensures Kebab("AlertDialogAction") == "alert-dialog-action"
  {
    AlertDialogActionWords();
    KebabOfWords(["Alert", "Dialog", "Action"]);
    AlertDialogActionLowered();
  }

  lemma WordListOfTwo(a: string, b: string)
    requires IsCapitalisedWord(a) || (IsAcronym(a) && IsCapitalisedWord(b))
    requires IsCapitalisedWord(b) || IsAcronym(b)
    ensures IsWordList([a, b])
    ensures Concat([a, b]) == a + b
  {
    var words := [a, b];
    assert words[1..] == [b] && words[2..] == [];
    assert Concat([b]) == b;
  }

  lemma LowerWordsOfTwo(a: string, b: string)
    ensures Text.Join(LowerWords([a, b]), '-') == Text.Lower(a) + "-" + Text.Lower(b)
  {
    var l := LowerWords([a, b]);
    assert l[1..] == [l[1]];
  }

  lemma ContentWord() ensures IsCapitalisedWord("Content") && Text.Lower("Content") == "content" {
    assert IsCapitalisedWord("Content");
    LowerOfCapitalisedWord("Content");
  }

  lemma CardWord() ensures IsCapitalisedWord("Card") && Text.Lower("Card") == "card" {
    assert IsCapitalisedWord("Card");
    LowerOfCapitalisedWord("Card");
  }

  lemma CardContentWords()
    ensures IsWordList(["Card", "Content"]) && Concat(["Card", "Content"]) == "CardContent"
  {
    CardWord();
    ContentWord();
    WordListOfTwo("Card", "Content");
  }

  lemma CardContentLowered()
    ensures Text.Join(LowerWords(["Card", "Content"]), '-') == "card-content"
  {
    CardWord();
    ContentWord();
    LowerWordsOfTwo("Card", "Content");
  }

  lemma CardContentLower()
    ensures Text.Lower("CardContent") == "cardcontent"
  {
    CardWord();
    ContentWord();
    Text.LowerAppend("Card", "Content");
    assert "Card" + "Content" == "CardContent";
  }

  /** A name of two words: `CardContent` has the kebab alias `card-content`
      and the lower-case alias `cardcontent`. */
  lemma CardContentAliases()
    ensures Kebab("CardContent") == "card-content"
    ensures Text.Lower("CardContent") == "cardcontent"
  {
    CardContentWords();
    KebabOfWords(["Card", "Content"]);
    CardContentLowered();
    CardContentLower();
  }

  // ---------------------------------------------------------------------------
  // Registry state
  // ---------------------------------------------------------------------------

  /** The registry's `Map`: its bindings and its keys in iteration order. */
  datatype RegState = RegState(renderers: map<string, Renderer>, order: seq<string>)

  const EmptyRegistry: RegState := RegState(map[], [])

  predicate Distinct(xs: seq<string>) {
    forall i, j :: 0 <= i < j < |xs| ==> xs[i] != xs[j]
  }

  /** The iteration order lists every key exactly once. */
  ghost predicate WellFormed(s: RegState) {
    Distinct(s.order) && (forall k :: k in s.renderers <==> k in s.order)
  }

  /** `Map.prototype.set`: a new key goes to the end of the iteration order; an
      existing key keeps its place and gets the new value. */
  function Put(s: RegState, t: string, f: Renderer): (r: RegState)
    requires WellFormed(s)
    ensures WellFormed(r)
    ensures r.renderers == s.renderers[t := f]
    ensures t in s.renderers ==> r.order == s.order
    ensures t !in s.renderers ==> r.order == s.order + [t]
  {
    RegState(s.renderers[t := f], if t in s.renderers then s.order else s.order + [t])
  }

  /** One step of the `forEach` at lines 1382-1386. */
  function AddAlias(s: RegState, name: string, alias: string, f: Renderer): RegState
    requires WellFormed(s)
  {
    if alias != name && alias !in s.renderers then Put(s, alias, f) else s
  }

  function AddAliases(s: RegState, name: string, aliases: seq<string>, f: Renderer): (r: RegState)
    requires WellFormed(s)
    ensures WellFormed(r)
    decreases |aliases|
  {
    if aliases == [] then s
    else AddAlias(AddAliases(s, name, aliases[..|aliases| - 1], f), name, aliases[|aliases| - 1], f)
  }

  /** What `registerSimple(name, Comp)` (lines 1352-1387) does to the registry:
      nothing when the component is missing or the name already has a
      renderer; otherwise the name gets a fresh wrapper, and so does each alias
      that differs from the name and is still free. */
  function SimpleRegistration(s: RegState, name: string, comp: Option<string>): (r: RegState)
    requires WellFormed(s)
    ensures WellFormed(r)
  {
    if comp.None? || name in s.renderers then s
    else AddAliases(Put(s, name, Generic(comp.value)), name, Aliases(name), Generic(comp.value))
  }

  /** `s'` keeps every binding of `s` and extends its iteration order. */
  ghost predicate Extends(s: RegState, s': RegState) {
    && (forall k :: k in s.renderers ==> k in s'.renderers && s'.renderers[k] == s.renderers[k])
    && |s.order| <= |s'.order| && s'.order[..|s.order|] == s.order
  }

  lemma ExtendsTransitive(s1: RegState, s2: RegState, s3: RegState)
    requires Extends(s1, s2) && Extends(s2, s3)
    ensures Extends(s1, s3)
  {
    assert s3.order[..|s1.order|] == s3.order[..|s2.order|][..|s1.order|];
  }

  /** The guard of lines 1353-1354: a missing component or a name that is
      already claimed leaves the registry as it was. */
  lemma SimpleRegistrationGuard(s: RegState, name: string, comp: Option<string>)
    requires WellFormed(s)
    requires comp.None? || name in s.renderers
    ensures SimpleRegistration(s, name, comp) == s
  {
  }

  /** `registerSimple` never overwrites: every existing binding survives and
      the iteration order only grows at the end. */
  lemma SimpleRegistrationExtends(s: RegState, name: string, comp: Option<string>)
    requires WellFormed(s)
    ensures Extends(s, SimpleRegistration(s, name, comp))
  {
    if comp.Some? && name !in s.renderers {
      var f := Generic(comp.value);
      var s1 := Put(s, name, f);
      var s2 := AddAlias(s1, name, Text.Lower(name), f);
      var s3 := AddAlias(s2, name, Kebab(name), f);
      SimpleRegistrationSteps(s, name, comp.value);
      AddAliasEffect(s1, name, Text.Lower(name), f);
      AddAliasEffect(s2, name, Kebab(name), f);
      ExtendsTransitive(s, s1, s2);
      ExtendsTransitive(s, s2, s3);
    }
  }

  /** Whether `registerSimple(name, …)` on a free name claims the lower-case alias. */
  predicate ClaimsLower(s: RegState, name: string) {
    Text.Lower(name) != name && Text.Lower(name) !in s.renderers
  }

  /** Whether it claims the kebab alias: only when that differs from the name,
      from the lower-case alias and from every key already present. */
  predicate ClaimsKebab(s: RegState, name: string) {
    Kebab(name) != name && Kebab(name) != Text.Lower(name) && Kebab(name) !in s.renderers
  }

  /** The iteration order after `registerSimple` on a free name: the name,
      then each alias that differs from the name and is unclaimed; two equal
      aliases are added once. */
  lemma SimpleRegistrationOrder(s: RegState, name: string, c: string)
    requires WellFormed(s)
    requires name !in s.renderers
    ensures SimpleRegistration(s, name, Some(c)).order ==
              s.order + [name] + (if ClaimsLower(s, name) then [Text.Lower(name)] else [])
                               + (if ClaimsKebab(s, name) then [Kebab(name)] else [])
  {
    var f := Generic(c);
    var s1 := Put(s, name, f);
    var s2 := AddAlias(s1, name, Text.Lower(name), f);
    SimpleRegistrationSteps(s, name, c);
    AddAliasEffect(s1, name, Text.Lower(name), f);
    AddAliasEffect(s2, name, Kebab(name), f);
    assert (Kebab(name) != name && Kebab(name) !in s2.renderers) == ClaimsKebab(s, name);
  }

  /** The keys after `registerSimple` on a free name. */
  lemma SimpleRegistrationKeys(s: RegState, name: string, c: string)
    requires WellFormed(s)
    requires name !in s.renderers
    ensures forall k :: k in SimpleRegistration(s, name, Some(c)).renderers <==>
              k in s.renderers || k == name || (ClaimsLower(s, name) && k == Text.Lower(name))
                               || (ClaimsKebab(s, name) && k == Kebab(name))
  {
    var m3 := SimpleRegistrationMap(s, name, c);
  }

  /** Every key `registerSimple` adds is bound to the one new wrapper. */
  lemma SimpleRegistrationValues(s: RegState, name: string, c: string)
    requires WellFormed(s)
    requires name !in s.renderers
    ensures forall k :: k in SimpleRegistration(s, name, Some(c)).renderers && k !in s.renderers ==>
              SimpleRegistration(s, name, Some(c)).renderers[k] == Generic(c)
  {
    var m3 := SimpleRegistrationMap(s, name, c);
    forall k | k in m3 && k !in s.renderers
      ensures m3[k] == Generic(c)
    {
    }
  }

  /** The bindings after `registerSimple` on a free name, written out. */
  lemma SimpleRegistrationMap(s: RegState, name: string, c: string) returns (m3: map<string, Renderer>)
    requires WellFormed(s)
    requires name !in s.renderers
    ensures var f := Generic(c);
            var m1 := s.renderers[name := f];
            var m2 := if ClaimsLower(s, name) then m1[Text.Lower(name) := f] else m1;
            m3 == (if ClaimsKebab(s, name) then m2[Kebab(name) := f] else m2)
    ensures SimpleRegistration(s, name, Some(c)).renderers == m3
  {
    var f := Generic(c);
    var lower, kebab := Text.Lower(name), Kebab(name);
    var s1 := Put(s, name, f);
    var s2 := AddAlias(s1, name, lower, f);
    SimpleRegistrationSteps(s, name, c);
    AddAliasEffect(s1, name, lower, f);
    AddAliasEffect(s2, name, kebab, f);
    var m2 := if ClaimsLower(s, name) then s.renderers[name := f][lower := f] else s.renderers[name := f];
    assert s2.renderers == m2;
    assert (kebab != name && kebab !in m2) == ClaimsKebab(s, name);
    m3 := if ClaimsKebab(s, name) then m2[kebab := f] else m2;
  }

  lemma SimpleRegistrationSteps(s: RegState, name: string, c: string)
    requires WellFormed(s)
    requires name !in s.renderers
    ensures var s1 := Put(s, name, Generic(c));
            var s2 := AddAlias(s1, name, Text.Lower(name), Generic(c));
            SimpleRegistration(s, name, Some(c)) == AddAlias(s2, name, Kebab(name), Generic(c))
  {
    var f := Generic(c);
    var s1 := Put(s, name, f);
    assert Aliases(name)[..1] == [Text.Lower(name)];
    assert AddAliases(s1, name, [Text.Lower(name)], f) == AddAlias(s1, name, Text.Lower(name), f);
  }

  lemma AddAliasEffect(s: RegState, name: string, alias: string, f: Renderer)
    requires WellFormed(s)
    ensures var claims := alias != name && alias !in s.renderers;
            && AddAlias(s, name, alias, f).order == s.order + (if claims then [alias] else [])
            && AddAlias(s, name, alias, f).renderers == (if claims then s.renderers[alias := f] else s.renderers)
  {
  }

  // ---------------------------------------------------------------------------
  // The constructor's registration pass
  // ---------------------------------------------------------------------------

  /** The registry after the `register` calls of `table`, in order. */
  function RunCurated(s: RegState, table: seq<(string, nat)>): (r: RegState)
    requires WellFormed(s)
    ensures WellFormed(r)
    decreases |table|
  {
    if table == [] then s
    else
      var last := table[|table| - 1];
      Put(RunCurated(s, table[..|table| - 1]), last.0, Curated(last.1))
  }

  /** The registry after the `registerSimple` calls of `table`, in order. */
  function RunGeneric(s: RegState, table: seq<(string, string)>): (r: RegState)
    requires WellFormed(s)
    ensures WellFormed(r)
    decreases |table|
  {
    if table == [] then s
    else
      var last := table[|table| - 1];
      SimpleRegistration(RunGeneric(s, table[..|table| - 1]), last.0, Some(last.1))
  }

  /** The registry a freshly constructed `ComponentRegistry` holds. */
  function InitialRegistry(): (r: RegState)
    ensures WellFormed(r)
  {
    RunGeneric(RunCurated(EmptyRegistry, CuratedTable), GenericTable)
  }

  lemma {:induction false} RunGenericExtends(s: RegState, table: seq<(string, string)>)
    requires WellFormed(s)
    ensures Extends(s, RunGeneric(s, table))
    decreases |table|
  {
    if table != [] {
      var prefix := table[..|table| - 1];
      var last := table[|table| - 1];
      RunGenericExtends(s, prefix);
      SimpleRegistrationExtends(RunGeneric(s, prefix), last.0, Some(last.1));
      ExtendsTransitive(s, RunGeneric(s, prefix), RunGeneric(s, table));
    }
  }

  lemma {:induction false} RunGenericAppend(s: RegState, a: seq<(string, string)>, b: seq<(string, string)>)
    requires WellFormed(s)
    ensures RunGeneric(s, a + b) == RunGeneric(RunGeneric(s, a), b)
    decreases |b|
  {
    if b == [] {
      assert a + b == a;
    } else {
      assert (a + b)[..|a + b| - 1] == a + b[..|b| - 1];
      RunGenericAppend(s, a, b[..|b| - 1]);
    }
  }

  /** Later `registerSimple` calls keep what earlier ones bound. */
  lemma RunGenericPrefixExtends(s: RegState, table: seq<(string, string)>, n: nat)
    requires WellFormed(s)
    requires n <= |table|
    ensures Extends(RunGeneric(s, table[..n]), RunGeneric(s, table))
  {
    assert table == table[..n] + table[n..];
    RunGenericAppend(s, table[..n], table[n..]);
    RunGenericExtends(RunGeneric(s, table[..n]), table[n..]);
  }

  /** The `registerSimple` pass adds a key only as the name, the lower-case
      alias or the kebab alias of an entry whose name was still free: a key
      that none of those can be stays absent. */
  lemma {:induction false} RunGenericNoNewKey(s: RegState, table: seq<(string, string)>, k: string)
    requires WellFormed(s)
    requires k !in s.renderers
    requires forall i :: 0 <= i < |table| && table[i].0 !in s.renderers ==>
               k != table[i].0 && k != Text.Lower(table[i].0) && k != Kebab(table[i].0)
    ensures k !in RunGeneric(s, table).renderers
    decreases |table|
  {
    if table != [] {
      var prefix := table[..|table| - 1];
      var last := table[|table| - 1];
      var before := RunGeneric(s, prefix);
      forall i | 0 <= i < |prefix| && prefix[i].0 !in s.renderers
        ensures k != prefix[i].0 && k != Text.Lower(prefix[i].0) && k != Kebab(prefix[i].0)
      {
        assert prefix[i] == table[i];
      }
      RunGenericNoNewKey(s, prefix, k);
      if last.0 !in before.renderers {
        RunGenericExtends(s, prefix);
        SimpleRegistrationKeys(before, last.0, last.1);
      }
    }
  }

  lemma {:induction false} RunCuratedAppend(s: RegState, a: seq<(string, nat)>, b: seq<(string, nat)>)
    requires WellFormed(s)
    ensures RunCurated(s, a + b) == RunCurated(RunCurated(s, a), b)
    decreases |b|
  {
    if b == [] {
      assert a + b == a;
    } else {
      assert (a + b)[..|a + b| - 1] == a + b[..|b| - 1];
      RunCuratedAppend(s, a, b[..|b| - 1]);
    }
  }

  /** A `register` pass that never names `k` leaves its binding alone. */
  lemma {:induction false} RunCuratedKeeps(s: RegState, table: seq<(string, nat)>, k: string)
    requires WellFormed(s)
    requires forall i :: 0 <= i < |table| ==> table[i].0 != k
    ensures k in RunCurated(s, table).renderers <==> k in s.renderers
    ensures k in s.renderers ==> RunCurated(s, table).renderers[k] == s.renderers[k]
    decreases |table|
  {
    if table != [] {
      var prefix := table[..|table| - 1];
      assert forall i :: 0 <= i < |prefix| ==> prefix[i] == table[i];
      RunCuratedKeeps(s, prefix, k);
    }
  }

  /** The keys the `register` pass defines are exactly the types of the table. */
  lemma {:induction false} RunCuratedKeys(s: RegState, table: seq<(string, nat)>, k: string)
    requires WellFormed(s)
    ensures k in RunCurated(s, table).renderers <==>
              k in s.renderers || exists i :: 0 <= i < |table| && table[i].0 == k
    decreases |table|
  {
    if table != [] {
      var prefix := table[..|table| - 1];
      RunCuratedKeys(s, prefix, k);
      if exists i :: 0 <= i < |table| && table[i].0 == k {
        var i :| 0 <= i < |table| && table[i].0 == k;
        if i < |prefix| {
          assert prefix[i] == table[i];
        }
      }
      if exists i :: 0 <= i < |prefix| && prefix[i].0 == k {
        var i :| 0 <= i < |prefix| && prefix[i].0 == k;
        assert table[i] == prefix[i];
      }
    }
  }

  /** When a type is registered twice the later renderer is the one kept, and
      the type stays where its first registration put it in the order. */
  lemma {:induction false} RunCuratedLastWins(s: RegState, table: seq<(string, nat)>, i: nat)
    requires WellFormed(s)
    requires i < |table|
    requires forall j :: i < j < |table| ==> table[j].0 != table[i].0
    ensures table[i].0 in RunCurated(s, table).renderers
    ensures RunCurated(s, table).renderers[table[i].0] == Curated(table[i].1)
    decreases |table|
  {
    if i < |table| - 1 {
      var prefix := table[..|table| - 1];
      assert prefix[i] == table[i];
      RunCuratedLastWins(s, prefix, i);
    }
  }

  /** Overwriting an existing type does not move it in the iteration order. */
  lemma OverwriteKeepsOrder(s: RegState, t: string, f: Renderer, g: Renderer)
    requires WellFormed(s)
    requires t !in s.renderers
    ensures Put(Put(s, t, f), t, g).order == s.order + [t]
    ensures Put(Put(s, t, f), t, g).renderers[t] == g
  {
  }

  // ---------------------------------------------------------------------------
  // The class
  // ---------------------------------------------------------------------------

  class ComponentRegistry {
    var renderers: map<string, Renderer>
    var order: seq<string>

    function State(): RegState
      reads this
    {
      RegState(renderers, order)
    }

    ghost predicate Valid()
      reads this
    {
      WellFormed(State())
    }

    /** The constructor runs `registerAllComponents` (line 219). */
    constructor ()
      ensures Valid() && State() == InitialRegistry()
    {
      renderers := map[];
      order := [];
      new;
      RegisterAllComponents();
    }

    /** Lines 226-1590: the `register` calls, then the `registerSimple` calls. */
    method RegisterAllComponents()
      requires Valid()
      modifies this
      ensures Valid()
      ensures State() == RunGeneric(RunCurated(old(State()), CuratedTable), GenericTable)
    {
      RegisterEach(CuratedTable);
      RegisterSimpleEach(GenericTable);
    }

    /** A run of `register` calls, in order. */
    method RegisterEach(table: seq<(string, nat)>)
      requires Valid()
      modifies this
      ensures Valid() && State() == RunCurated(old(State()), table)
    {
      ghost var start := State();
      for i := 0 to |table|
        invariant Valid() && State() == RunCurated(start, table[..i])
      {
        Register(table[i].0, Curated(table[i].1));
        assert table[..i + 1][..i] == table[..i];
      }
      assert table[..|table|] == table;
    }

    /** A run of `registerSimple` calls, in order. */
    method RegisterSimpleEach(table: seq<(string, string)>)
      requires Valid()
      modifies this
      ensures Valid() && State() == RunGeneric(old(State()), table)
    {
      ghost var start := State();
      for i := 0 to |table|
        invariant Valid() && State() == RunGeneric(start, table[..i])
      {
        RegisterSimple(table[i].0, Some(table[i].1));
        assert table[..i + 1][..i] == table[..i];
      }
      assert table[..|table|] == table;
    }

    /** `register` (lines 1596-1598). */
    method Register(t: string, f: Renderer)
      requires Valid()
      modifies this
      ensures Valid() && State() == Put(old(State()), t, f)
      ensures GetRenderer(t) == Some(f) && HasRenderer(t)
    {
      if t !in renderers {
        order := order + [t];
      }
      renderers := renderers[t := f];
    }

    /** `getRenderer` (lines 1600-1602); `undefined` is `None`. */
    function GetRenderer(t: string): (r: Option<Renderer>)
      reads this
      ensures r.Some? <==> HasRenderer(t)
    {
      if t in renderers then Some(renderers[t]) else None
    }

    /** `hasRenderer` (lines 1604-1606). */
    predicate HasRenderer(t: string)
      reads this
    {
      t in renderers
    }

    /** `getRegisteredTypes` (lines 1608-1610): every key exactly once, in the
        order of first insertion. */
    function GetRegisteredTypes(): (r: seq<string>)
      reads this
      requires Valid()
      ensures Distinct(r)
      ensures forall t :: t in r <==> HasRenderer(t)
    {
      order
    }

    /** `registerSimple` (lines 1352-1387). */
    method RegisterSimple(name: string, comp: Option<string>)
      requires Valid()
      modifies this
      ensures Valid() && State() == SimpleRegistration(old(State()), name, comp)
    {
      if comp.None? {
        return;
      }
      if HasRenderer(name) {
        return;
      }
      var renderFn := Generic(comp.value);
      Register(name, renderFn);
      var aliases := [Text.Lower(name), Kebab(name)];
      ghost var base := State();
      for i := 0 to |aliases|
        invariant Valid() && State() == AddAliases(base, name, aliases[..i], renderFn)
      {
        var alias := aliases[i];
        if alias != name && !HasRenderer(alias) {
          Register(alias, renderFn);
        }
        assert aliases[..i + 1][..i] == aliases[..i];
      }
      assert aliases[..|aliases|] == aliases;
    }
  }
}
