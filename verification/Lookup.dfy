/** Resolving an identifier: `get_main_id` and the `slug_or_id` querysets. */
module Lookup {
  import opened Common
  import opened Identifiers
  import opened SlugAllocator
  import opened SlugRegistry

  datatype Resolution = AsGiven(id: string) | Found(pk: string) | NotFound | Multiple

  function LiveBySlug(t: Table, s: string): set<string> {
    set pk | pk in t && !t[pk].deleted && t[pk].slug == s
  }

  function LiveByOutdated(t: Table, s: string): set<string> {
    set pk | pk in t && !t[pk].deleted && s in t[pk].outdated
  }

  /** The only row of a query, as `get_object_or_404` returns it. */
  method TheOnly(hits: set<string>) returns (r: Resolution)
    ensures r.NotFound? <==> hits == {}
    ensures r.Found? ==> hits == {r.pk}
    ensures r.Multiple? ==> |hits| > 1
    ensures !r.AsGiven?
  {
    if hits == {} {
      r := NotFound;
    } else if |hits| > 1 {
      r := Multiple;
    } else {
      var pk :| pk in hits;
      assert |hits - {pk}| == 0;
      r := Found(pk);
    }
  }

  method GetMainId(kind: Kind, t: Table, id: string) returns (r: Resolution)
    ensures IsMainId(kind, id) ==> r == AsGiven(id)
    ensures !IsMainId(kind, id) && Consistent(kind, t) ==> Resolves(t, id, r)
  {
    if IsMainId(kind, id) {
      return AsGiven(id);
    }
    r := TheOnly(LiveBySlug(t, id));
    if r.NotFound? {
      r := TheOnly(LiveByOutdated(t, id));
    }
    if Consistent(kind, t) {
      AtMostOneHolder(kind, t, id, LiveBySlug(t, id));
      AtMostOneHolder(kind, t, id, LiveByOutdated(t, id));
      assert r.Found? ==> r.pk in LiveBySlug(t, id) + LiveByOutdated(t, id);
      assert forall pk | Live(t, pk) && id in Ids(t[pk]) :: pk in LiveBySlug(t, id) + LiveByOutdated(t, id);
    }
  }

  /** `r` is the one live object that holds, or has held, the slug. */
  ghost predicate Resolves(t: Table, slug: string, r: Resolution) {
    match r
    case Found(pk) => Live(t, pk) && slug in Ids(t[pk])
    case NotFound => forall pk | Live(t, pk) :: slug !in Ids(t[pk])
    case _ => false
  }

  lemma AtMostOneHolder(kind: Kind, t: Table, id: string, hits: set<string>)
    requires Consistent(kind, t)
    requires forall pk | pk in hits :: pk in t && (t[pk].slug == id || id in t[pk].outdated)
    ensures |hits| <= 1
  {
    if hits != {} {
      var p :| p in hits;
      forall q | q in hits ensures q == p {
        assert WellNamed(kind, t[p]) && WellNamed(kind, t[q]);
        assert id in Ids(t[p]) && id in Ids(t[q]);
      }
      assert hits == {p};
    }
  }

  /** On a consistent table a slug resolves in one way only. */
  lemma ResolvesUniquely(kind: Kind, t: Table, slug: string, r: Resolution, r': Resolution)
    requires Consistent(kind, t) && Resolves(t, slug, r) && Resolves(t, slug, r')
    ensures r == r'
  {
  }

  /** Old links are permanent: over any run that does not hard-delete the object, every slug it
      ever held resolves to it whenever it is live, and to nothing while it is soft-deleted. */
  lemma OldLinksWork(kind: Kind, t: Table, ops: seq<Op>, pk: string, slug: string, r: Resolution)
    requires Consistent(kind, t) && pk in t && slug in Ids(t[pk])
    requires HardDelete(pk) !in ops
    requires Resolves(Run(kind, t, ops), slug, r)
    ensures !IsMainId(kind, slug)
    ensures r == if Live(Run(kind, t, ops), pk) then Found(pk) else NotFound
  {
    var t' := Run(kind, t, ops);
    RunConsistent(kind, t, ops);
    RunKeepsIds(kind, t, ops, pk);
    assert WellNamed(kind, t[pk]);
    assert forall q | q in t' && q != pk :: Ids(t'[q]) !! Ids(t'[pk]);
  }

  lemma OwnLink(kind: Kind, t: Table, pk: string, slug: string)
    requires Consistent(kind, t) && pk in t && slug in Ids(t[pk])
    ensures Resolves(t, slug, if Live(t, pk) then Found(pk) else NotFound) && SlugExists(t, slug)
    ensures Resolves(t - {pk}, slug, NotFound) && !SlugExists(t - {pk}, slug)
  {
    hide Ids;
    assert forall q | q in t && q != pk :: Ids(t[q]) !! Ids(t[pk]);
  }

  /** Soft deletion breaks every link of the object and restoring mends them all; hard deletion
      breaks them for good and leaves the names to others. */
  lemma DeletionAndLinks(kind: Kind, t: Table, pk: string, slug: string, a: Title, b: Title)
    requires Consistent(kind, t) && Live(t, pk) && slug in Ids(t[pk])
    ensures var t1 := Step(kind, t, SoftDelete(pk, a));
            && Resolves(t1, slug, NotFound) && SlugExists(t1, slug)
            && Resolves(Step(kind, t1, Restore(pk, b)), slug, Found(pk))
    ensures var t2 := Step(kind, t, HardDelete(pk));
            Resolves(t2, slug, NotFound) && !SlugExists(t2, slug)
  {
    var t1 := Step(kind, t, SoftDelete(pk, a));
    var t3 := Step(kind, t1, Restore(pk, b));
    assert !Live(t1, pk) && Live(t3, pk) && Step(kind, t, HardDelete(pk)) == t - {pk};
    hide *;
    StepConsistent(kind, t, SoftDelete(pk, a));
    StepConsistent(kind, t1, Restore(pk, b));
    StepKeepsIds(kind, t, SoftDelete(pk, a), pk);
    StepKeepsIds(kind, t1, Restore(pk, b), pk);
    OwnLink(kind, t, pk, slug);
    OwnLink(kind, t1, pk, slug);
    OwnLink(kind, t3, pk, slug);
  }

  // ----- querysets -----

  datatype Field = IdField | SlugField | OutdatedField

  type Query = map<Field, set<string>>

  function MainIds(kind: Kind, ids: seq<string>): set<string> {
    set id | id in ids && IsMainId(kind, id)
  }

  function Slugs(kind: Kind, ids: seq<string>): set<string> {
    set id | id in ids && !IsMainId(kind, id)
  }

  /** `query[field].add(text)` on a dictionary of sets that default to empty. */
  function Added(query: Query, field: Field, text: string): Query {
    query[field := (if field in query then query[field] else {}) + {text}]
  }

  /** The dictionary that collects these main ids and slugs; no field without a value. */
  function QueryOf(mainIds: set<string>, slugs: set<string>): Query {
    (if mainIds == {} then map[] else map[IdField := mainIds]) +
    (if slugs == {} then map[] else map[SlugField := slugs, OutdatedField := slugs])
  }

  lemma AddMainId(mainIds: set<string>, slugs: set<string>, id: string)
    ensures Added(QueryOf(mainIds, slugs), IdField, id) == QueryOf(mainIds + {id}, slugs)
  {
    assert {} + {id} == {id};
  }

  lemma AddSlug(mainIds: set<string>, slugs: set<string>, id: string)
    ensures Added(Added(QueryOf(mainIds, slugs), SlugField, id), OutdatedField, id)
         == QueryOf(mainIds, slugs + {id})
  {
    assert {} + {id} == {id};
  }

  method BuildIdentifiersQuery(kind: Kind, ids: seq<string>) returns (query: Query)
    ensures query == QueryOf(MainIds(kind, ids), Slugs(kind, ids))
  {
    hide IsMainId, QueryOf, Added;
    query := map[];
    EmptyQuery();
    assert MainIds(kind, ids[..0]) == {} && Slugs(kind, ids[..0]) == {};
    for i := 0 to |ids|
      invariant query == QueryOf(MainIds(kind, ids[..i]), Slugs(kind, ids[..i]))
    {
      var id := ids[i];
      ghost var mainIds, slugs := MainIds(kind, ids[..i]), Slugs(kind, ids[..i]);
      ghost var before := query;
      AddMainId(mainIds, slugs, id);
      AddSlug(mainIds, slugs, id);
      MoreIds(kind, ids, i);
      var fields := if IsMainId(kind, id) then [IdField] else [SlugField, OutdatedField];
      for j := 0 to |fields|
        invariant j == 0 ==> query == before
        invariant j == 1 ==> query == Added(before, fields[0], id)
        invariant j == 2 ==> query == Added(Added(before, SlugField, id), OutdatedField, id)
      {
        query := Added(query, fields[j], id);
      }
    }
    assert ids[..|ids|] == ids;
  }

  lemma EmptyQuery()
    ensures QueryOf({}, {}) == map[]
  {
  }

  lemma MoreIds(kind: Kind, ids: seq<string>, i: nat)
    requires i < |ids|
    ensures var m, s := MainIds(kind, ids[..i]), Slugs(kind, ids[..i]);
            && MainIds(kind, ids[..i + 1]) == (if IsMainId(kind, ids[i]) then m + {ids[i]} else m)
            && Slugs(kind, ids[..i + 1]) == (if IsMainId(kind, ids[i]) then s else s + {ids[i]})
  {
  }

  // An integer key matches every text that reads as it.
  function DigitsValue(s: string): nat {
    if s == "" then 0
    else
      var rest, c := s[..|s| - 1], s[|s| - 1];
      if IsDigit(c) then 10 * DigitsValue(rest) + (c as int - '0' as int) else DigitsValue(rest)
  }

  function IntValue(s: string): int {
    if '-' in s then 0 - DigitsValue(s) else DigitsValue(s) as int
  }

  lemma {:induction false} DigitsReadOn(s: string)
    requires forall c | c in s :: IsDigit(c)
    ensures ReadsOn(s, InDigits)
  {
    if s != "" {
      assert s[0] in s && forall c | c in s[1..] :: c in s;
      DigitsReadOn(s[1..]);
    }
  }

  /** A numeral has the value it prints, and no leading zero. */
  lemma {:induction false} NumeralValue(n: nat)
    ensures DigitsValue(Numeral(n)) == n
    ensures if n == 0 then Numeral(n) == "0" else Numeral(n)[0] != '0'
  {
    var s := Numeral(n);
    if n < 10 {
      assert s[..|s| - 1] == "" && s[0] as int == '0' as int + n;
    } else {
      NumeralValue(n / 10);
      assert s[..|s| - 1] == Numeral(n / 10);
    }
  }

  /** A printed key reads as the integer it was printed from. */
  lemma PrintedKeyReads(n: nat)
    ensures ReadsAsInt(Numeral(n)) && IntValue(Numeral(n)) == n
  {
    var s := Numeral(n);
    assert IsDigit(s[0]) && forall c | c in s[1..] :: c in s;
    DigitsReadOn(s[1..]);
    NumeralValue(n);
  }

  lemma {:induction false} NoDigitsBehind(s: string, b: string)
    requires forall c | c in b :: !IsDigit(c)
    ensures DigitsValue(s + b) == DigitsValue(s)
  {
    if b == "" {
      assert s + b == s;
    } else {
      var n := |b| - 1;
      assert b[n] in b && forall c | c in b[..n] :: c in b;
      NoDigitsBehind(s, b[..n]);
      assert (s + b)[..|s + b| - 1] == s + b[..n];
    }
  }

  lemma {:induction false} NoDigitsBefore(a: string, s: string)
    requires forall c | c in a :: !IsDigit(c)
    ensures DigitsValue(a + s) == DigitsValue(s)
  {
    if s == "" {
      NoDigitsBehind("", a);
      assert a + s == a == "" + a;
    } else {
      NoDigitsBefore(a, s[..|s| - 1]);
      assert (a + s)[..|a + s| - 1] == a + s[..|s| - 1];
    }
  }

  lemma {:induction false} NumeralGrouped(s: string)
    requires s != "" && forall c | c in s :: IsDigit(c)
    ensures Grouped(s)
  {
    if |s| > 1 {
      assert forall c | c in s[1..] :: c in s;
      NumeralGrouped(s[1..]);
    }
    assert s[0] in s;
  }

  /** White space around an integer and its sign are read as such. */
  lemma SignedKeyReads(n: nat, a: string, b: string)
    requires AllSpaces(a) && AllSpaces(b)
    ensures var s := a + Numeral(n) + b; ReadsAsInt(s) && IntValue(s) == n
    ensures var s := a + "-" + Numeral(n) + b; ReadsAsInt(s) && IntValue(s) == 0 - n
  {
    NumeralGrouped(Numeral(n));
    NumeralValue(n);
    SpacedReads(a, Numeral(n), b);
    assert ("-" + Numeral(n))[1..] == Numeral(n);
    SpacedReads(a, "-" + Numeral(n), b);
    assert a + ("-" + Numeral(n)) + b == a + "-" + Numeral(n) + b;
    NoDigitsBehind(a + Numeral(n), b);
    NoDigitsBefore(a, Numeral(n));
    NoDigitsBehind(a + "-" + Numeral(n), b);
    NoDigitsBefore(a + "-", Numeral(n));
    assert (a + "-" + Numeral(n) + b)[|a|] == '-';
  }

  lemma SpacedReads(a: string, digits: string, b: string)
    requires AllSpaces(a) && AllSpaces(b) && SignedDigits(digits)
    ensures ReadsAsInt(a + digits + b)
  {
    var s := a + digits + b;
    ReadsAsIntIff(s);
    assert s[..|a|] == a && s[|a|..] == digits + b;
    assert (digits + b)[..|digits|] == digits && (digits + b)[|digits|..] == b;
    assert SplitAt(s[|a|..], |digits|, Leading);
  }

  predicate SameMainId(kind: Kind, pk: string, id: string) {
    if kind == Project then pk == id
    else ReadsAsInt(pk) && ReadsAsInt(id) && IntValue(pk) == IntValue(id)
  }

  /** The filter `id in … or slug in … or outdated_slugs contains all of …`; an empty query
      filters nothing out. */
  predicate Matches(kind: Kind, query: Query, pk: string, r: Row) {
    || query == map[]
    || (IdField in query && exists id :: id in query[IdField] && SameMainId(kind, pk, id))
    || (SlugField in query && r.slug in query[SlugField])
    || (OutdatedField in query && query[OutdatedField] <= Elements(r.outdated))
  }

  function Filtered(kind: Kind, t: Table, query: Query): set<string> {
    set pk | Live(t, pk) && pk in t && Matches(kind, query, pk, t[pk])
  }

  function Selected(kind: Kind, t: Table, ids: seq<string>): set<string> {
    Filtered(kind, t, QueryOf(MainIds(kind, ids), Slugs(kind, ids)))
  }

  method SlugOrIds(kind: Kind, t: Table, ids: seq<string>) returns (r: set<string>)
    ensures r == Selected(kind, t, ids)
  {
    var query := BuildIdentifiersQuery(kind, ids);
    r := Filtered(kind, t, query);
  }

  /** Which rows a non-empty list of identifiers selects. */
  lemma SelectedRow(kind: Kind, t: Table, ids: seq<string>, pk: string)
    requires Live(t, pk) && ids != []
    ensures pk in Selected(kind, t, ids) <==>
              || (exists id :: id in MainIds(kind, ids) && SameMainId(kind, pk, id))
              || t[pk].slug in Slugs(kind, ids)
              || (Slugs(kind, ids) != {} && Slugs(kind, ids) <= Elements(t[pk].outdated))
  {
    hide IsMainId, SameMainId;
    var m, s := MainIds(kind, ids), Slugs(kind, ids);
    assert ids[0] in m || ids[0] in s;
    var query := QueryOf(m, s);
    assert query != map[] by { assert IdField in query || SlugField in query; }
  }

  lemma SelectedRowBySlug(kind: Kind, t: Table, slug: string, pk: string)
    requires Live(t, pk) && !IsMainId(kind, slug) && t[pk].slug != ""
    ensures pk in Selected(kind, t, [slug]) <==> slug in Ids(t[pk])
  {
  }

  lemma SelectedRowByMainId(kind: Kind, t: Table, id: string, pk: string)
    requires Live(t, pk) && IsMainId(kind, id)
    ensures pk in Selected(kind, t, [id]) <==> SameMainId(kind, pk, id)
  {
    hide IsMainId, SameMainId;
    SelectedRow(kind, t, [id], pk);
    assert id in [id];
    assert MainIds(kind, [id]) == {id} && Slugs(kind, [id]) == {};
  }

  /** One slug selects exactly the live object that holds, or has held, it. */
  lemma OneSlugSelects(kind: Kind, t: Table, slug: string, r: Resolution)
    requires Consistent(kind, t) && !IsMainId(kind, slug) && Resolves(t, slug, r)
    ensures Selected(kind, t, [slug]) == if r.Found? then {r.pk} else {}
  {
    hide IsMainId, Selected, Unusable;
    forall pk | Live(t, pk) ensures pk in Selected(kind, t, [slug]) <==> r == Found(pk) {
      assert WellNamed(kind, t[pk]);
      SelectedRowBySlug(kind, t, slug, pk);
      if r.Found? && r.pk != pk { assert Ids(t[pk]) !! Ids(t[r.pk]); }
    }
    SelectedAreLive(kind, t, [slug]);
  }

  /** A main id selects its own row and no other: the eight characters of a project's key, or
      an integer, for the tables whose keys are printed integers. */
  lemma OneMainIdSelects(kind: Kind, t: Table, id: string)
    requires IsMainId(kind, id)
    ensures kind == Project ==> Selected(kind, t, [id]) == if Live(t, id) then {id} else {}
    ensures kind != Project && (forall pk | pk in t :: exists n: nat :: pk == Numeral(n)) ==>
              var key := IntValue(id);
              Selected(kind, t, [id]) == if key >= 0 && Live(t, Numeral(key)) then {Numeral(key)} else {}
  {
    hide Selected, IsMainId;
    SelectedAreLive(kind, t, [id]);
    forall pk | Live(t, pk) ensures pk in Selected(kind, t, [id]) <==> SameMainId(kind, pk, id) {
      SelectedRowByMainId(kind, t, id, pk);
    }
    if kind != Project {
      ReadsWhenMain(kind, id);
      forall n: nat ensures SameMainId(kind, Numeral(n), id) <==> n == IntValue(id) { PrintedKeyReads(n); }
      hide SameMainId, ReadsAsInt, IntValue;
    }
  }

  lemma ReadsWhenMain(kind: Kind, id: string)
    requires IsMainId(kind, id) && kind != Project
    ensures ReadsAsInt(id)
  {
  }

  lemma SelectedAreLive(kind: Kind, t: Table, ids: seq<string>)
    ensures forall pk | pk in Selected(kind, t, ids) :: Live(t, pk)
  {
  }

  // ----- several identifiers at once -----

  function SelectedOneByOne(kind: Kind, t: Table, ids: seq<string>): set<string> {
    set pk, id | pk in t && id in ids && pk in Selected(kind, t, [id]) :: pk
  }

  /** The identifiers select, on every consistent table, what they select one by one. */
  ghost predicate SelectsEach(kind: Kind, ids: seq<string>) {
    forall t | Consistent(kind, t) :: Selected(kind, t, ids) == SelectedOneByOne(kind, t, ids)
  }

  function Unstorable(kind: Kind): set<string> {
    Unusable(kind) + {""}
  }

  lemma OneByOneRow(kind: Kind, t: Table, ids: seq<string>, pk: string)
    requires Live(t, pk) && t[pk].slug != ""
    ensures pk in SelectedOneByOne(kind, t, ids) <==>
              || (exists id :: id in MainIds(kind, ids) && SameMainId(kind, pk, id))
              || Slugs(kind, ids) * Ids(t[pk]) != {}
  {
    hide IsMainId, SameMainId, Selected;
    forall id | id in ids
      ensures pk in Selected(kind, t, [id]) <==>
                if IsMainId(kind, id) then SameMainId(kind, pk, id) else id in Ids(t[pk])
    {
      if IsMainId(kind, id) { SelectedRowByMainId(kind, t, id, pk); }
      else { SelectedRowBySlug(kind, t, id, pk); }
    }
    if id :| id in ids && pk in Selected(kind, t, [id]) {
      assert id in MainIds(kind, ids) || id in Slugs(kind, ids) * Ids(t[pk]);
    }
    if Slugs(kind, ids) * Ids(t[pk]) != {} {
      var id :| id in Slugs(kind, ids) * Ids(t[pk]);
      assert pk in Selected(kind, t, [id]);
    }
  }

  lemma FewSlugsSelectEach(kind: Kind, ids: seq<string>, t: Table)
    requires Consistent(kind, t) && ids != []
    requires |Slugs(kind, ids)| <= 1 || Slugs(kind, ids) <= Unstorable(kind)
    ensures Selected(kind, t, ids) == SelectedOneByOne(kind, t, ids)
  {
    hide IsMainId, SameMainId, Selected, SelectedOneByOne, Unusable;
    SelectedAreLive(kind, t, ids);
    OneByOneAreLive(kind, t, ids);
    var s := Slugs(kind, ids);
    forall pk | Live(t, pk)
      ensures pk in Selected(kind, t, ids) <==> pk in SelectedOneByOne(kind, t, ids)
    {
      assert WellNamed(kind, t[pk]);
      SelectedRow(kind, t, ids, pk);
      OneByOneRow(kind, t, ids, pk);
      if s != {} && |s| <= 1 {
        var a :| a in s;
        assert |s - {a}| == 0 && s == {a};
      } else if s != {} {
        var a :| a in s;
        assert a !in Ids(t[pk]);
        assert s * Ids(t[pk]) == {};
      }
    }
  }

  lemma OneByOneAreLive(kind: Kind, t: Table, ids: seq<string>)
    ensures forall pk | pk in SelectedOneByOne(kind, t, ids) :: Live(t, pk)
  {
  }

  /** A table on which they differ: its one object used to hold the first of two slugs. */
  lemma ManySlugsDiffer(kind: Kind, ids: seq<string>, a: string, b: string) returns (t: Table)
    requires a in Slugs(kind, ids) && b in Slugs(kind, ids) && a != b && a !in Unstorable(kind)
    ensures Consistent(kind, t) && Selected(kind, t, ids) != SelectedOneByOne(kind, t, ids)
  {
    hide IsMainId, Selected, SelectedOneByOne, Unusable;
    var s := Slugs(kind, ids);
    var slug := FreshSlug(kind, s);
    var r := Row(Title("", ""), slug, [a], false);
    t := map["x" := r];
    assert Ids(r) == {a, slug};
    assert Consistent(kind, t);
    NotAMainId(kind, MainIds(kind, ids));
    SelectedRow(kind, t, ids, "x");
    OneByOneRow(kind, t, ids, "x");
    assert a in s * Ids(r);
    assert b !in Elements(r.outdated);
  }

  lemma FreshSlug(kind: Kind, s: set<string>) returns (slug: string)
    ensures slug !in s + Unusable(kind) && slug != "" && !IsMainId(kind, slug)
  {
    hide IsMainId;
    NotAMainId(kind, {});
    var k := FirstFit(kind, s + Unusable(kind), {}, "x", 0);
    CandidateIsSlug(kind, "x", k);
    slug := Candidate(kind, "x", k);
  }

  lemma NotAMainId(kind: Kind, mainIds: set<string>)
    requires forall id | id in mainIds :: IsMainId(kind, id)
    ensures !IsMainId(kind, "x")
    ensures forall id | id in mainIds :: !SameMainId(kind, "x", id)
  {
  }

  /** `slug_or_ids` selects what its identifiers select one by one exactly when it is given
      some identifier and at most one distinct slug (names nobody can hold aside). */
  lemma SelectsEachIff(kind: Kind, ids: seq<string>)
    ensures SelectsEach(kind, ids) <==>
              && ids != []
              && (|Slugs(kind, ids)| <= 1 || Slugs(kind, ids) <= Unstorable(kind))
  {
    hide IsMainId, Selected, SelectedOneByOne, Unusable;
    var s := Slugs(kind, ids);
    if ids == [] {
      NothingSelectsAll(kind);
    } else if |s| <= 1 || s <= Unstorable(kind) {
      forall t | Consistent(kind, t)
        ensures Selected(kind, t, ids) == SelectedOneByOne(kind, t, ids)
      {
        FewSlugsSelectEach(kind, ids, t);
      }
    } else {
      var a :| a in s && a !in Unstorable(kind);
      assert s - {a} != {} by { assert s == (s - {a}) + {a}; }
      var b :| b in s - {a};
      var t := ManySlugsDiffer(kind, ids, a, b);
    }
  }

  /** An empty list of identifiers selects every live object. */
  lemma NothingSelectsAll(kind: Kind)
    ensures forall t: Table, pk | Live(t, pk) :: pk in Selected(kind, t, [])
    ensures !SelectsEach(kind, [])
  {
    var r := Row(Title("", ""), "x", [], false);
    var t := map["x" := r];
    assert Ids(r) == {"x"};
    assert Consistent(kind, t);
    assert MainIds(kind, []) == {} && Slugs(kind, []) == {};
    assert Live(t, "x") && "x" in Selected(kind, t, []);
    assert SelectedOneByOne(kind, t, []) == {};
  }
}
