/** What the registry holds once its constructor has run: facts about
    `InitialRegistry()` over the call tables of the constructor. */
module RegistryContents {

  import Text
  import opened Registry
  import opened Registrations

  /** No entry of the table registers type `k`. */
  ghost predicate Avoids<T>(table: seq<(string, T)>, k: string) {
    forall i :: 0 <= i < |table| ==> table[i].0 != k
  }

  lemma AvoidsAppend<T>(a: seq<(string, T)>, b: seq<(string, T)>, k: string)
    requires Avoids(a, k) && Avoids(b, k)
    ensures Avoids(a + b, k)
  {
    forall i | 0 <= i < |a + b|
      ensures (a + b)[i].0 != k
    {
      if i >= |a| {
        assert (a + b)[i] == b[i - |a|];
      }
    }
  }

  /** Every name of at most four characters in the table is one of `names`. */
  ghost predicate ShortNamesAmong(table: seq<(string, string)>, names: set<string>) {
    forall i :: 0 <= i < |table| && |table[i].0| <= 4 ==> table[i].0 in names
  }

  lemma ShortNamesAppend(a: seq<(string, string)>, b: seq<(string, string)>, names: set<string>)
    requires ShortNamesAmong(a, names) && ShortNamesAmong(b, names)
    ensures ShortNamesAmong(a + b, names)
  {
    forall i | 0 <= i < |a + b| && |(a + b)[i].0| <= 4
      ensures (a + b)[i].0 in names
    {
      if i >= |a| {
        assert (a + b)[i] == b[i - |a|];
      }
    }
  }

  /** None of these is a hand-registered type. */
  lemma CuratedAvoids(k: string)
    requires k == "card" || k == "Stepper" || k == "CardContent" || k == "cardcontent" || k == "card-content"
    ensures Avoids(CuratedTable, k)
  {
    assert Avoids(Curated0, k);
    assert Avoids(Curated1, k);
    assert Avoids(Curated2, k);
    assert Avoids(Curated3, k);
    assert Avoids(Curated4, k);
    assert Avoids(Curated5, k);
    AvoidsAppend(Curated0, Curated1, k);
    AvoidsAppend(Curated0 + Curated1, Curated2, k);
    AvoidsAppend(Curated0 + Curated1 + Curated2, Curated3, k);
    AvoidsAppend(Curated0 + Curated1 + Curated2 + Curated3, Curated4, k);
    AvoidsAppend(Curated0 + Curated1 + Curated2 + Curated3 + Curated4, Curated5, k);
  }

  /** What the `registerSimple` calls have in common: none names `Stepper`,
      and the only names of at most four characters are `Card` and `Tabs`. */
  ghost predicate GenericFacts(table: seq<(string, string)>) {
    Avoids(table, "Stepper") && ShortNamesAmong(table, {"Card", "Tabs"})
  }

  lemma GenericFactsAppend(a: seq<(string, string)>, b: seq<(string, string)>)
    requires GenericFacts(a) && GenericFacts(b)
    ensures GenericFacts(a + b)
  {
    AvoidsAppend(a, b, "Stepper");
    ShortNamesAppend(a, b, {"Card", "Tabs"});
  }

  lemma GenericFactsUpTo05()
    ensures GenericFacts(Simple00 + Simple01 + Simple02 + Simple03 + Simple04)
  {
    assert GenericFacts(Simple00);
    assert GenericFacts(Simple01);
    assert GenericFacts(Simple02);
    assert GenericFacts(Simple03);
    assert GenericFacts(Simple04);
    GenericFactsAppend(Simple00, Simple01);
    GenericFactsAppend(Simple00 + Simple01, Simple02);
    GenericFactsAppend(Simple00 + Simple01 + Simple02, Simple03);
    GenericFactsAppend(Simple00 + Simple01 + Simple02 + Simple03, Simple04);
  }

  lemma GenericFactsUpTo10()
    ensures GenericFacts(Simple00 + Simple01 + Simple02 + Simple03 + Simple04 + Simple05 + Simple06 + Simple07 + Simple08 + Simple09)
  {
    GenericFactsUpTo05();
    assert GenericFacts(Simple05);
    assert GenericFacts(Simple06);
    assert GenericFacts(Simple07);
    assert GenericFacts(Simple08);
    assert GenericFacts(Simple09);
    GenericFactsAppend(Simple00 + Simple01 + Simple02 + Simple03 + Simple04, Simple05);
    GenericFactsAppend(Simple00 + Simple01 + Simple02 + Simple03 + Simple04 + Simple05, Simple06);
    GenericFactsAppend(Simple00 + Simple01 + Simple02 + Simple03 + Simple04 + Simple05 + Simple06, Simple07);
    GenericFactsAppend(Simple00 + Simple01 + Simple02 + Simple03 + Simple04 + Simple05 + Simple06 + Simple07, Simple08);
    GenericFactsAppend(Simple00 + Simple01 + Simple02 + Simple03 + Simple04 + Simple05 + Simple06 + Simple07 + Simple08, Simple09);
  }

  lemma GenericFactsUpTo15()
    ensures GenericFacts(Simple00 + Simple01 + Simple02 + Simple03 + Simple04 + Simple05 + Simple06 + Simple07 + Simple08 + Simple09 + Simple10 + Simple11 + Simple12 + Simple13 + Simple14)
  {
    GenericFactsUpTo10();
    assert GenericFacts(Simple10);
    assert GenericFacts(Simple11);
    assert GenericFacts(Simple12);
    assert GenericFacts(Simple13);
    assert GenericFacts(Simple14);
    GenericFactsAppend(Simple00 + Simple01 + Simple02 + Simple03 + Simple04 + Simple05 + Simple06 + Simple07 + Simple08 + Simple09, Simple10);
    GenericFactsAppend(Simple00 + Simple01 + Simple02 + Simple03 + Simple04 + Simple05 + Simple06 + Simple07 + Simple08 + Simple09 + Simple10, Simple11);
    GenericFactsAppend(Simple00 + Simple01 + Simple02 + Simple03 + Simple04 + Simple05 + Simple06 + Simple07 + Simple08 + Simple09 + Simple10 + Simple11, Simple12);
    GenericFactsAppend(Simple00 + Simple01 + Simple02 + Simple03 + Simple04 + Simple05 + Simple06 + Simple07 + Simple08 + Simple09 + Simple10 + Simple11 + Simple12, Simple13);
    GenericFactsAppend(Simple00 + Simple01 + Simple02 + Simple03 + Simple04 + Simple05 + Simple06 + Simple07 + Simple08 + Simple09 + Simple10 + Simple11 + Simple12 + Simple13, Simple14);
  }

  lemma GenericFactsUpTo19()
    ensures GenericFacts(Simple00 + Simple01 + Simple02 + Simple03 + Simple04 + Simple05 + Simple06 + Simple07 + Simple08 + Simple09 + Simple10 + Simple11 + Simple12 + Simple13 + Simple14 + Simple15 + Simple16 + Simple17 + Simple18)
  {
    GenericFactsUpTo15();
    assert GenericFacts(Simple15);
    assert GenericFacts(Simple16);
    assert GenericFacts(Simple17);
    assert GenericFacts(Simple18);
    GenericFactsAppend(Simple00 + Simple01 + Simple02 + Simple03 + Simple04 + Simple05 + Simple06 + Simple07 + Simple08 + Simple09 + Simple10 + Simple11 + Simple12 + Simple13 + Simple14, Simple15);
    GenericFactsAppend(Simple00 + Simple01 + Simple02 + Simple03 + Simple04 + Simple05 + Simple06 + Simple07 + Simple08 + Simple09 + Simple10 + Simple11 + Simple12 + Simple13 + Simple14 + Simple15, Simple16);
    GenericFactsAppend(Simple00 + Simple01 + Simple02 + Simple03 + Simple04 + Simple05 + Simple06 + Simple07 + Simple08 + Simple09 + Simple10 + Simple11 + Simple12 + Simple13 + Simple14 + Simple15 + Simple16, Simple17);
    GenericFactsAppend(Simple00 + Simple01 + Simple02 + Simple03 + Simple04 + Simple05 + Simple06 + Simple07 + Simple08 + Simple09 + Simple10 + Simple11 + Simple12 + Simple13 + Simple14 + Simple15 + Simple16 + Simple17, Simple18);
  }

  lemma GenericTableFacts()
    ensures Avoids(GenericTable, "Stepper")
    ensures ShortNamesAmong(GenericTable, {"Card", "Tabs"})
  {
    GenericFactsUpTo19();
  }

  // ---------------------------------------------------------------------------
  // Bindings after the constructor
  // ---------------------------------------------------------------------------

  /** The registry after the `register` calls alone. */
  function CuratedRegistry(): RegState {
    RunCurated(EmptyRegistry, CuratedTable)
  }

  /** A type registered in chunk `b` and never again keeps that registration. */
  lemma ChunkWins(a: seq<(string, nat)>, b: seq<(string, nat)>, c: seq<(string, nat)>, i: nat)
    requires i < |b|
    requires forall j :: i < j < |b| ==> b[j].0 != b[i].0
    requires Avoids(c, b[i].0)
    ensures b[i].0 in RunCurated(EmptyRegistry, a + b + c).renderers
    ensures RunCurated(EmptyRegistry, a + b + c).renderers[b[i].0] == Curated(b[i].1)
  {
    RunCuratedAppend(EmptyRegistry, a + b, c);
    RunCuratedAppend(EmptyRegistry, a, b);
    RunCuratedLastWins(RunCurated(EmptyRegistry, a), b, i);
    RunCuratedKeeps(RunCurated(EmptyRegistry, a + b), c, b[i].0);
  }

  lemma CuratedCard()
    ensures "Card" in CuratedRegistry().renderers && CuratedRegistry().renderers["Card"] == Curated(274)
  {
    var rest := Curated1 + Curated2 + Curated3 + Curated4 + Curated5;
    assert CuratedTable == [] + Curated0 + rest;
    assert Curated0[2] == ("Card", 274);
    assert Avoids(Curated1, "Card") && Avoids(Curated2, "Card") && Avoids(Curated3, "Card");
    assert Avoids(Curated4, "Card") && Avoids(Curated5, "Card");
    AvoidsAppend(Curated1, Curated2, "Card");
    AvoidsAppend(Curated1 + Curated2, Curated3, "Card");
    AvoidsAppend(Curated1 + Curated2 + Curated3, Curated4, "Card");
    AvoidsAppend(Curated1 + Curated2 + Curated3 + Curated4, Curated5, "Card");
    ChunkWins([], Curated0, rest, 2);
  }

  lemma CuratedTabs()
    ensures "Tabs" in CuratedRegistry().renderers && CuratedRegistry().renderers["Tabs"] == Curated(923)
  {
    var before := Curated0 + Curated1 + Curated2;
    assert CuratedTable == before + Curated3 + (Curated4 + Curated5);
    assert Curated3[8] == ("Tabs", 923);
    assert Avoids(Curated4, "Tabs") && Avoids(Curated5, "Tabs");
    AvoidsAppend(Curated4, Curated5, "Tabs");
    ChunkWins(before, Curated3, Curated4 + Curated5, 8);
  }

  /** `Toggle` is registered twice (lines 692 and 1298); the later renderer wins. */
  lemma CuratedToggle()
    ensures Curated2[6] == ("Toggle", 692) && Curated5[5] == ("Toggle", 1298)
    ensures "Toggle" in CuratedRegistry().renderers && CuratedRegistry().renderers["Toggle"] == Curated(1298)
  {
    var before := Curated0 + Curated1 + Curated2 + Curated3 + Curated4;
    assert CuratedTable == before + Curated5 + [];
    assert Curated5[5] == ("Toggle", 1298);
    ChunkWins(before, Curated5, [], 5);
  }

  /** The hand-written `Card` renderer (line 274) survives the generic pass. */
  lemma InitialCard()
    ensures "Card" in InitialRegistry().renderers && InitialRegistry().renderers["Card"] == Curated(274)
  {
    CuratedCard();
    RunGenericExtends(CuratedRegistry(), GenericTable);
  }

  /** `Toggle` ends bound to its second hand-written renderer (line 1298). */
  lemma InitialToggle()
    ensures "Toggle" in InitialRegistry().renderers && InitialRegistry().renderers["Toggle"] == Curated(1298)
  {
    CuratedToggle();
    RunGenericExtends(CuratedRegistry(), GenericTable);
  }

  /** `Card` is taken before `registerSimple('Card', …)` runs, so that call
      adds nothing, and in particular no `card` alias: the registry has no
      renderer for `card`. */
  lemma InitialLacksLowerCaseCard()
    ensures "card" !in InitialRegistry().renderers
  {
    var c := CuratedRegistry();
    CuratedAvoids("card");
    RunCuratedKeys(EmptyRegistry, CuratedTable, "card");
    CuratedCard();
    CuratedTabs();
    GenericTableFacts();
    forall i | 0 <= i < |GenericTable| && GenericTable[i].0 !in c.renderers
      ensures "card" != GenericTable[i].0 && "card" != Text.Lower(GenericTable[i].0) && "card" != Kebab(GenericTable[i].0)
    {
      KebabIsLowerWithHyphens(GenericTable[i].0);
    }
    RunGenericNoNewKey(c, GenericTable, "card");
  }

  /** No call registers `Stepper`, under any alias. */
  lemma InitialLacksStepper()
    ensures "Stepper" !in InitialRegistry().renderers
  {
    var c := CuratedRegistry();
    CuratedAvoids("Stepper");
    RunCuratedKeys(EmptyRegistry, CuratedTable, "Stepper");
    GenericTableFacts();
    assert Text.IsUpper("Stepper"[0]);
    forall i | 0 <= i < |GenericTable| && GenericTable[i].0 !in c.renderers
      ensures "Stepper" != GenericTable[i].0 && "Stepper" != Text.Lower(GenericTable[i].0) && "Stepper" != Kebab(GenericTable[i].0)
    {
      Text.LowerHasNoUpper(GenericTable[i].0);
      KebabIsLowerWithHyphens(GenericTable[i].0);
    }
    RunGenericNoNewKey(c, GenericTable, "Stepper");
  }

  lemma GenericTableStart()
    ensures GenericTable[..2] == [("Card", "Card"), ("CardContent", "CardContent")]
  {
    assert GenericTable[0] == ("Card", "Card");
    assert GenericTable[1] == ("CardContent", "CardContent");
  }

  /** On a registry holding `Card` but none of the `CardContent` keys, the
      first two `registerSimple` calls bind `CardContent` and both of its
      aliases to one generic wrapper; the `Card` call changes nothing. */
  lemma CardContentRegistration(c: RegState)
    requires WellFormed(c)
    requires "Card" in c.renderers
    requires "CardContent" !in c.renderers && "cardcontent" !in c.renderers && "card-content" !in c.renderers
    ensures var r := RunGeneric(c, [("Card", "Card"), ("CardContent", "CardContent")]);
            forall k | k in ["CardContent", "cardcontent", "card-content"] ::
              k in r.renderers && r.renderers[k] == Generic("CardContent")
  {
    var first := [("Card", "Card"), ("CardContent", "CardContent")];
    assert first[..1] == [("Card", "Card")] && [("Card", "Card")][..0] == [];
    assert RunGeneric(c, first[..1]) == c;
    CardContentAliases();
    SimpleRegistrationKeys(c, "CardContent", "CardContent");
    SimpleRegistrationValues(c, "CardContent", "CardContent");
  }

  lemma CuratedLacksCardContent()
    ensures "CardContent" !in CuratedRegistry().renderers
    ensures "cardcontent" !in CuratedRegistry().renderers
    ensures "card-content" !in CuratedRegistry().renderers
  {
    CuratedAvoids("CardContent");
    CuratedAvoids("cardcontent");
    CuratedAvoids("card-content");
    RunCuratedKeys(EmptyRegistry, CuratedTable, "CardContent");
    RunCuratedKeys(EmptyRegistry, CuratedTable, "cardcontent");
    RunCuratedKeys(EmptyRegistry, CuratedTable, "card-content");
  }

  /** `registerSimple('CardContent', …)` claims the name and both of its
      aliases, `cardcontent` and `card-content`, for one generic wrapper. */
  lemma InitialCardContent()
    ensures forall k | k in ["CardContent", "cardcontent", "card-content"] ::
              k in InitialRegistry().renderers && InitialRegistry().renderers[k] == Generic("CardContent")
  {
    var c := CuratedRegistry();
    GenericTableStart();
    CuratedCard();
    CuratedLacksCardContent();
    CardContentRegistration(c);
    RunGenericPrefixExtends(c, GenericTable, 2);
  }
}
