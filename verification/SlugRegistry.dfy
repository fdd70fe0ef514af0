/** Saving objects with slugs: the table over whole runs of requests. */
module SlugRegistry {
  import opened Common
  import opened Identifiers
  import opened SlugAllocator

  /** An object in memory. `original` is what `save` compares the title with; it is captured
      before the fields are loaded, so a freshly loaded object may hold anything there. */
  datatype Obj = Obj(pk: string, row: Row, original: Title)

  predicate Recomputes(o: Obj) {
    o.row.slug == "" || o.row.title != o.original
  }

  function RowToSave(kind: Kind, t: Table, o: Obj): Row {
    var r := o.row;
    if Recomputes(o) then
      var slug := SlugFor(kind, t, r);
      var outdated :=
        if r.slug != "" && slug != r.slug && r.slug !in r.outdated then r.outdated + [r.slug]
        else r.outdated;
      r.(slug := slug, outdated := outdated)
    else r
  }

  function Save(kind: Kind, t: Table, o: Obj): Table {
    t[o.pk := RowToSave(kind, t, o)]
  }

  /** What a save leaves in memory, also one that is limited to other columns. */
  function InMemory(kind: Kind, t: Table, o: Obj): Obj {
    Obj(o.pk, RowToSave(kind, t, o), o.row.title)
  }

  datatype Op =
    | Create(pk: string, title: Title)
    | Update(pk: string, title: Title, original: Title)
    | SoftDelete(pk: string, original: Title)
    | Restore(pk: string, original: Title)
    | HardDelete(pk: string)
    | Duplicate(pk: string, newPk: string)

  predicate Live(t: Table, pk: string) {
    pk in t && !t[pk].deleted
  }

  /** The object a request saves, as it is in memory then. A request for a row that is not
      there, or one that would insert an existing key, fails and saves nothing. */
  function Saved(t: Table, op: Op): Option<Obj> {
    match op
    case Create(pk, title) =>
      if pk in t then None else Some(Obj(pk, Row(title, "", [], false), Title("", "")))
    case Update(pk, title, original) =>
      if Live(t, pk) then Some(Obj(pk, t[pk].(title := title), original)) else None
    case SoftDelete(pk, original) =>
      if Live(t, pk) then Some(Obj(pk, t[pk].(deleted := true), original)) else None
    case Restore(pk, original) =>
      if pk in t then Some(Obj(pk, t[pk].(deleted := false), original)) else None
    case HardDelete(_) => None
    case Duplicate(pk, newPk) =>
      if Live(t, pk) && newPk !in t then
        Some(Obj(newPk, t[pk].(slug := "", outdated := []), t[pk].title))
      else None
  }

  function Step(kind: Kind, t: Table, op: Op): Table {
    if op.HardDelete? then t - {op.pk}
    else match Saved(t, op) case None => t case Some(o) => Save(kind, t, o)
  }

  function Run(kind: Kind, t: Table, ops: seq<Op>): Table
    decreases |ops|
  {
    if ops == [] then t else Run(kind, Step(kind, t, ops[0]), ops[1..])
  }

  // ----- invariant -----

  ghost predicate Disjoint(t: Table) {
    forall p, q | p in t && q in t && p != q :: Ids(t[p]) !! Ids(t[q])
  }

  ghost predicate WellNamed(kind: Kind, r: Row) {
    && r.slug != ""
    && forall s | s in Ids(r) :: s != "" && s !in Unusable(kind) && !IsMainId(kind, s)
  }

  /** Identifier sets of distinct objects are disjoint, and no stored identifier is reserved,
      equal to the prefix, or readable as a main id. */
  ghost predicate Consistent(kind: Kind, t: Table) {
    Disjoint(t) && forall pk | pk in t :: WellNamed(kind, t[pk])
  }

  /** The object in memory carries the identifiers stored for it, or none when it is new. */
  ghost predicate UpToDate(t: Table, o: Obj) {
    if o.pk in t then o.row.slug == t[o.pk].slug && o.row.outdated == t[o.pk].outdated
    else o.row.slug == "" && o.row.outdated == []
  }

  lemma SaveGrowsIds(kind: Kind, t: Table, o: Obj)
    ensures Ids(o.row) <= Ids(RowToSave(kind, t, o))
    ensures Ids(RowToSave(kind, t, o)) <= Ids(o.row) + {SlugFor(kind, t, o.row)}
    ensures RowToSave(kind, t, o).slug in Ids(RowToSave(kind, t, o))
  {
    hide SlugFor, Unusable;
    SlugForSound(kind, t, o.row);
    var r := RowToSave(kind, t, o);
    assert forall s | s in o.row.outdated :: s in r.outdated;
    assert forall s | s in r.outdated :: s in o.row.outdated || s == o.row.slug;
  }

  lemma StoreConsistent(kind: Kind, t: Table, pk: string, r: Row)
    requires Consistent(kind, t) && WellNamed(kind, r)
    requires forall q | q in t && q != pk :: Ids(r) !! Ids(t[q])
    ensures Consistent(kind, t[pk := r])
  {
  }

  lemma NewIdIsFree(kind: Kind, t: Table, r: Row, q: string)
    requires q in t && SlugFor(kind, t, r) !in Ids(r)
    ensures SlugFor(kind, t, r) !in Ids(t[q])
  {
    SlugForSound(kind, t, r);
  }

  lemma SaveWellNamed(kind: Kind, t: Table, o: Obj)
    requires o.row.slug == "" || WellNamed(kind, o.row)
    requires o.row.slug == "" ==> o.row.outdated == []
    ensures WellNamed(kind, RowToSave(kind, t, o))
  {
    hide SlugFor, Unusable;
    SaveGrowsIds(kind, t, o);
    SlugForSound(kind, t, o.row);
  }

  lemma SavedWellNamed(kind: Kind, t: Table, o: Obj)
    requires Consistent(kind, t) && UpToDate(t, o)
    ensures WellNamed(kind, RowToSave(kind, t, o))
  {
    hide Unusable, RowToSave;
    SaveWellNamed(kind, t, o);
  }

  lemma SavedApart(kind: Kind, t: Table, o: Obj, q: string)
    requires Consistent(kind, t) && UpToDate(t, o) && q in t && q != o.pk
    ensures Ids(RowToSave(kind, t, o)) !! Ids(t[q])
  {
    hide SlugFor;
    SaveGrowsIds(kind, t, o);
    if SlugFor(kind, t, o.row) !in Ids(o.row) { NewIdIsFree(kind, t, o.row, q); }
    assert Ids(o.row) !! Ids(t[q]);
  }

  lemma SaveConsistent(kind: Kind, t: Table, o: Obj)
    requires Consistent(kind, t) && UpToDate(t, o)
    ensures Consistent(kind, Save(kind, t, o))
  {
    SavedWellNamed(kind, t, o);
    forall q | q in t && q != o.pk ensures Ids(RowToSave(kind, t, o)) !! Ids(t[q]) {
      SavedApart(kind, t, o, q);
    }
    StoreConsistent(kind, t, o.pk, RowToSave(kind, t, o));
  }

  lemma StepConsistent(kind: Kind, t: Table, op: Op)
    requires Consistent(kind, t)
    ensures Consistent(kind, Step(kind, t, op))
  {
    var o := Saved(t, op);
    if o.Some? { SaveConsistent(kind, t, o.value); }
  }

  /** Every reachable table is consistent. */
  lemma {:induction false} RunConsistent(kind: Kind, t: Table, ops: seq<Op>)
    requires Consistent(kind, t)
    ensures Consistent(kind, Run(kind, t, ops))
    decreases |ops|
  {
    if ops != [] {
      StepConsistent(kind, t, ops[0]);
      RunConsistent(kind, Step(kind, t, ops[0]), ops[1..]);
    }
  }

  // ----- saves limited to other columns -----

  /** Such a save stores no slug, but the next full save on the same table stores what one
      full save would have stored. */
  lemma LimitedThenFull(kind: Kind, t: Table, o: Obj)
    ensures Save(kind, t, InMemory(kind, t, o)) == Save(kind, t, o)
  {
    InMemoryIsStored(kind, t, t, o);
  }

  lemma InMemoryIsStored(kind: Kind, t: Table, t1: Table, o: Obj)
    ensures RowToSave(kind, t1, InMemory(kind, t, o)) == RowToSave(kind, t, o)
  {
    hide SlugFor;
    SlugForSound(kind, t, o.row);
  }

  /** The unique index on current slugs: another row has this one. */
  predicate IndexRefuses(t: Table, pk: string, slug: string) {
    exists q :: q in t && q != pk && t[q].slug == slug
  }

  /** A save as the database takes it: an `IntegrityError` leaves the table as it was. */
  function Stored(kind: Kind, t: Table, o: Obj): Table {
    if IndexRefuses(t, o.pk, RowToSave(kind, t, o).slug) then t else Save(kind, t, o)
  }

  /** The index never refuses an object that is up to date. */
  lemma IndexNeverRefuses(kind: Kind, t: Table, o: Obj)
    requires Consistent(kind, t) && UpToDate(t, o)
    ensures !IndexRefuses(t, o.pk, RowToSave(kind, t, o).slug)
    ensures Stored(kind, t, o) == Save(kind, t, o)
  {
    hide RowToSave, Unusable;
    SaveGrowsIds(kind, t, o);
    var slug := RowToSave(kind, t, o).slug;
    forall q | q in t && q != o.pk ensures t[q].slug != slug {
      SavedApart(kind, t, o, q);
      assert WellNamed(kind, t[q]) && t[q].slug in Ids(t[q]);
    }
  }

  /** A slug computed on one table and stored on a later one, because a limited save came
      first: the later table stays consistent exactly when the index refuses the slug or no
      other object used to hold it. */
  lemma StaleSaveIff(kind: Kind, t: Table, later: Table, o: Obj)
    requires Consistent(kind, t) && UpToDate(t, o) && Consistent(kind, later) && UpToDate(later, o)
    ensures var slug := RowToSave(kind, t, o).slug;
            Consistent(kind, Stored(kind, later, InMemory(kind, t, o))) <==>
              || IndexRefuses(later, o.pk, slug)
              || forall q | q in later && q != o.pk :: slug !in later[q].outdated
  {
    var r := RowToSave(kind, t, o);
    InMemoryIsStored(kind, t, later, o);
    SavedWellNamed(kind, t, o);
    StaleIds(kind, t, later, o);
    hide RowToSave, SlugFor, UpToDate, WellNamed, Ids;
    if !IndexRefuses(later, o.pk, r.slug) {
      StaleStoreIff(kind, later, o.pk, r);
    }
  }

  /** Whatever else it holds, the stale object held before. */
  lemma StaleIds(kind: Kind, t: Table, later: Table, o: Obj)
    requires UpToDate(t, o) && UpToDate(later, o)
    ensures var r := RowToSave(kind, t, o);
            && r.slug in Ids(r)
            && Ids(r) <= (if o.pk in later then Ids(later[o.pk]) else {}) + {r.slug}
  {
    hide SlugFor;
    SaveGrowsIds(kind, t, o);
  }

  lemma StaleStoreIff(kind: Kind, t: Table, pk: string, r: Row)
    requires Consistent(kind, t) && WellNamed(kind, r) && !IndexRefuses(t, pk, r.slug)
    requires r.slug in Ids(r) && Ids(r) <= (if pk in t then Ids(t[pk]) else {}) + {r.slug}
    ensures Consistent(kind, t[pk := r]) <==> forall q | q in t && q != pk :: r.slug !in t[q].outdated
  {
    hide Unusable;
    var t' := t[pk := r];
    forall q | q in t && q != pk ensures Ids(r) !! Ids(t[q]) <==> r.slug !in t[q].outdated {
      assert t[q].slug != r.slug;
      assert pk in t ==> Ids(t[pk]) !! Ids(t[q]);
    }
    if forall q | q in t && q != pk :: r.slug !in t[q].outdated {
      StoreConsistent(kind, t, pk, r);
    } else {
      var q :| q in t && q != pk && r.slug in t[q].outdated;
      assert t'[pk] == r && t'[q] == t[q];
    }
  }

  /** Every new name can be lost that way: another object takes it and is renamed before the
      stale slug is stored. */
  lemma StaleSaveBreaks(kind: Kind, t: Table, o: Obj, q: string, next: Title)
    requires Consistent(kind, t) && UpToDate(t, o) && Recomputes(o)
    requires q !in t && q != o.pk && next != o.row.title
    requires var slug := SlugFor(kind, t, o.row);
             && slug !in Ids(o.row)
             && var t1 := Step(kind, t, Create(q, o.row.title));
                SlugFor(kind, t1, t1[q].(title := next)) != slug
    ensures var later := Run(kind, t, [Create(q, o.row.title), Update(q, next, o.row.title)]);
            && Consistent(kind, later) && UpToDate(later, o)
            && !Consistent(kind, Stored(kind, later, InMemory(kind, t, o)))
  {
    hide Run, Step, Consistent, SlugFor, Stored, Ids;
    var title, slug := o.row.title, SlugFor(kind, t, o.row);
    var create, rename := Create(q, title), Update(q, next, title);
    var t1 := t[q := Row(title, slug, [], false)];
    NewRowHoldsNothing(title);
    SameNameForNew(kind, t, o.row, Row(title, "", [], false));
    NewRowStored(kind, t, q, title);
    SlugIsUnused(kind, t, o.row);
    var name := SlugFor(kind, t1, t1[q].(title := next));
    var later := t1[q := Row(next, name, [slug], false)];
    RenamedRowStored(kind, t1, q, next, title);
    RunOfTwo(kind, t, create, rename);
    RunConsistent(kind, t, [create, rename]);
    assert later[q].outdated == [slug] && slug in later[q].outdated;
    assert RowToSave(kind, t, o).slug == slug;
    hide RowToSave;
    StaleSaveIff(kind, t, later, o);
  }

  lemma NewRowHoldsNothing(title: Title)
    ensures Ids(Row(title, "", [], false)) == {}
  {
  }

  lemma SlugIsUnused(kind: Kind, t: Table, r: Row)
    requires SlugFor(kind, t, r) !in Ids(r)
    ensures SlugFor(kind, t, r) != "" && forall q | q in t :: t[q].slug != SlugFor(kind, t, r)
  {
    hide SlugFor;
    SlugForSound(kind, t, r);
  }

  lemma RunOfTwo(kind: Kind, t: Table, a: Op, b: Op)
    ensures Run(kind, t, [a, b]) == Step(kind, Step(kind, t, a), b)
  {
    hide Step;
    assert [a, b][1..] == [b] && [b][1..] == [];
    assert Run(kind, t, [a, b]) == Run(kind, Step(kind, t, a), [b]);
  }

  /** A new object of the same title picks the same new name. */
  lemma SameNameForNew(kind: Kind, t: Table, r: Row, newcomer: Row)
    requires SlugFor(kind, t, r) !in Ids(r) && newcomer.title == r.title && Ids(newcomer) == {}
    ensures SlugFor(kind, t, newcomer) == SlugFor(kind, t, r)
  {
    var raw, blocked := Raw(kind, r.title), Blocked(kind, t);
    assert StopsAt(kind, blocked, Ids(r), raw, Retries(kind, t, r));
    assert StopsAt(kind, blocked, Ids(newcomer), raw, Retries(kind, t, r));
    StopIsUnique(kind, blocked, Ids(newcomer), raw, Retries(kind, t, newcomer), Retries(kind, t, r));
  }

  lemma NewRowStored(kind: Kind, t: Table, q: string, title: Title)
    requires q !in t
    ensures Step(kind, t, Create(q, title)) ==
              t[q := Row(title, SlugFor(kind, t, Row(title, "", [], false)), [], false)]
  {
    hide SlugFor;
  }

  lemma RenamedRowStored(kind: Kind, t: Table, q: string, next: Title, was: Title)
    requires Live(t, q) && t[q].slug != "" && t[q].outdated == [] && next != was
    requires SlugFor(kind, t, t[q].(title := next)) != t[q].slug
    ensures Step(kind, t, Update(q, next, was)) ==
              t[q := Row(next, SlugFor(kind, t, t[q].(title := next)), [t[q].slug], false)]
  {
    hide SlugFor;
    assert [] + [t[q].slug] == [t[q].slug];
  }

  // ----- old links -----

  lemma StepKeepsIds(kind: Kind, t: Table, op: Op, pk: string)
    requires pk in t && op != HardDelete(pk)
    ensures pk in Step(kind, t, op) && Ids(t[pk]) <= Ids(Step(kind, t, op)[pk])
  {
    var o := Saved(t, op);
    if o.Some? && o.value.pk == pk {
      assert Ids(o.value.row) == Ids(t[pk]);
      SaveGrowsIds(kind, t, o.value);
    }
  }

  /** An object never loses an identifier, over any run that does not hard-delete it. */
  lemma {:induction false} RunKeepsIds(kind: Kind, t: Table, ops: seq<Op>, pk: string)
    requires pk in t && HardDelete(pk) !in ops
    ensures pk in Run(kind, t, ops) && Ids(t[pk]) <= Ids(Run(kind, t, ops)[pk])
    decreases |ops|
  {
    if ops != [] {
      StepKeepsIds(kind, t, ops[0], pk);
      RunKeepsIds(kind, Step(kind, t, ops[0]), ops[1..], pk);
    }
  }

  /** No history lists a name twice. */
  ghost predicate Histories(t: Table) {
    forall pk | pk in t :: NoDuplicates(t[pk].outdated)
  }

  lemma StepKeepsHistories(kind: Kind, t: Table, op: Op)
    requires Histories(t)
    ensures Histories(Step(kind, t, op))
  {
    hide SlugFor;
    var o := Saved(t, op);
    if o.Some? {
      var r, was := RowToSave(kind, t, o.value), o.value.row;
      assert NoDuplicates(was.outdated) && (r.outdated == was.outdated || r.outdated == was.outdated + [was.slug]);
      if was.slug !in was.outdated { ConcatNoDuplicates(was.outdated, [was.slug]); }
    }
  }

  lemma {:induction false} RunKeepsHistories(kind: Kind, t: Table, ops: seq<Op>)
    requires Histories(t)
    ensures Histories(Run(kind, t, ops))
    decreases |ops|
  {
    if ops != [] {
      StepKeepsHistories(kind, t, ops[0]);
      RunKeepsHistories(kind, Step(kind, t, ops[0]), ops[1..]);
    }
  }

  // ----- what each request leaves -----

  /** The object a request is about. */
  function Target(op: Op): string {
    if op.Duplicate? then op.newPk else op.pk
  }

  /** The slug after a save of an object under this title, when it had another title. */
  ghost predicate SluggedFrom(kind: Kind, t: Table, pk: string, title: Title, original: Title, r: Row)
    requires pk in t
  {
    r.slug == if title != original then SlugFor(kind, t, t[pk].(title := title)) else t[pk].slug
  }

  /** A first save: slugged from the title, with no history. */
  ghost predicate SluggedAnew(kind: Kind, t: Table, title: Title, r: Row) {
    r.slug == SlugFor(kind, t, Row(title, "", [], false)) && r.outdated == []
  }

  /** Every request changes its own object only, and that one as asked: a copy has the title
      of the original and is slugged from it. */
  lemma StepExact(kind: Kind, t: Table, op: Op)
    requires Consistent(kind, t)
    ensures var t', pk := Step(kind, t, op), Target(op);
            && (forall q | q != pk :: (q in t' <==> q in t) && (q in t ==> t'[q] == t[q]))
            && match op
               case Create(_, title) =>
                 if pk in t then t' == t
                 else pk in t' && t'[pk].title == title && !t'[pk].deleted && SluggedAnew(kind, t, title, t'[pk])
               case Update(_, title, original) =>
                 if !Live(t, pk) then t' == t
                 else pk in t' && t'[pk].title == title && !t'[pk].deleted
                      && SluggedFrom(kind, t, pk, title, original, t'[pk])
               case SoftDelete(_, original) =>
                 if !Live(t, pk) then t' == t
                 else pk in t' && t'[pk].title == t[pk].title && t'[pk].deleted
                      && SluggedFrom(kind, t, pk, t[pk].title, original, t'[pk])
               case Restore(_, original) =>
                 if pk !in t then t' == t
                 else pk in t' && t'[pk].title == t[pk].title && !t'[pk].deleted
                      && SluggedFrom(kind, t, pk, t[pk].title, original, t'[pk])
               case HardDelete(_) => pk !in t'
               case Duplicate(source, _) =>
                 if !Live(t, source) || pk in t then t' == t
                 else pk in t' && t'[pk].title == t[source].title && !t'[pk].deleted
                      && SluggedAnew(kind, t, t[source].title, t'[pk])
  {
    hide RowToSave, SlugFor, Ids, Unusable, Recomputes;
    var o := Saved(t, op);
    if o.Some? {
      RowSaved(kind, t, o.value);
      SlugIgnoresRest(kind, t, o.value.row);
      assert o.value.pk in t ==> WellNamed(kind, t[o.value.pk]);
    }
  }

  lemma RowSaved(kind: Kind, t: Table, o: Obj)
    ensures var r := RowToSave(kind, t, o);
            && r.title == o.row.title && r.deleted == o.row.deleted
            && (if o.row.slug == "" || o.row.title != o.original then r.slug == SlugFor(kind, t, o.row)
                else r.slug == o.row.slug)
            && (o.row.slug == "" ==> r.outdated == o.row.outdated)
  {
  }

  /** The name depends on the title and the names an object holds, not on its deletion. */
  lemma SlugIgnoresRest(kind: Kind, t: Table, r: Row)
    ensures SlugFor(kind, t, r) == SlugFor(kind, t, r.(deleted := !r.deleted))
  {
  }

  // ----- slug stability -----

  /** What the objects other than `pk` hold. */
  function Others(t: Table, pk: string): set<string> {
    Taken(t - {pk})
  }

  lemma OthersKept(t: Table, pk: string, r: Row)
    ensures t[pk := r] - {pk} == t - {pk}
  {
  }

  lemma TakenSplits(t: Table, pk: string)
    ensures Taken(t) == Others(t, pk) + (if pk in t then Ids(t[pk]) else {})
  {
    forall s | s in Taken(t) ensures s in Others(t, pk) || (pk in t && s in Ids(t[pk])) {
      var q :| q in t && s in Ids(t[q]);
      assert q != pk ==> q in t - {pk} && s in Ids((t - {pk})[q]);
    }
    forall s | s in Others(t, pk) ensures s in Taken(t) {
      var q :| q in t - {pk} && s in Ids((t - {pk})[q]);
      assert q in t;
    }
  }

  /** Skipped candidates are held by other objects or unusable for everybody, and the one
      found belongs to the object from then on. */
  ghost predicate Settled(kind: Kind, t: Table, pk: string, title: Title, k: nat) {
    var raw := Raw(kind, title);
    && pk in t
    && Candidate(kind, raw, k) in Ids(t[pk])
    && forall j: nat | j < k ::
         Candidate(kind, raw, j) in Others(t, pk) + Unusable(kind) - Ids(t[pk])
  }

  lemma SettledIsFound(kind: Kind, t: Table, pk: string, title: Title, k: nat)
    requires Settled(kind, t, pk, title, k)
    ensures SlugFor(kind, t, t[pk].(title := title)) == Candidate(kind, Raw(kind, title), k)
  {
    var r := t[pk].(title := title);
    TakenSplits(t, pk);
    assert StopsAt(kind, Blocked(kind, t), Ids(r), Raw(kind, title), k);
    StopIsUnique(kind, Blocked(kind, t), Ids(r), Raw(kind, title), k, Retries(kind, t, r));
  }

  lemma SaveSettles(kind: Kind, t: Table, o: Obj)
    requires Consistent(kind, t) && UpToDate(t, o)
    requires Recomputes(o)
    ensures Settled(kind, Save(kind, t, o), o.pk, o.row.title, Retries(kind, t, o.row))
  {
    var raw, k, t' := Raw(kind, o.row.title), Retries(kind, t, o.row), Save(kind, t, o);
    SaveGrowsIds(kind, t, o);
    TakenSplits(t, o.pk);
    OthersKept(t, o.pk, RowToSave(kind, t, o));
    assert SlugFor(kind, t, o.row) == Candidate(kind, raw, k);
    assert t'[o.pk].slug == Candidate(kind, raw, k);
    assert StopsAt(kind, Blocked(kind, t), Ids(o.row), raw, k);
    hide Candidate, Raw, Unusable, RowToSave, Ids, Taken, Retries, SlugFor;
    SkippedByOthers(kind, Others(t, o.pk), Ids(o.row), Ids(t'[o.pk]), raw, k);
  }

  lemma SkippedByOthers(
      kind: Kind, others: set<string>, before: set<string>, own: set<string>, raw: string, k: nat)
    requires Skipped(kind, others + before + Unusable(kind), before, raw, k)
    requires own <= before + {Candidate(kind, raw, k)}
    ensures forall j: nat | j < k :: Candidate(kind, raw, j) in others + Unusable(kind) - own
  {
    hide Candidate, Unusable;
    forall j: nat | j < k ensures Candidate(kind, raw, j) in others + Unusable(kind) - own {
      CandidatesDistinct(kind, raw, j, k);
    }
  }

  /** A recomputation right after a save changes nothing, whatever the fresh object holds. */
  lemma ResaveIsIdle(kind: Kind, t: Table, o: Obj, again: Title)
    requires Consistent(kind, t) && UpToDate(t, o)
    requires Recomputes(o)
    ensures var t' := Save(kind, t, o);
            Save(kind, t', Obj(o.pk, t'[o.pk], again)) == t'
  {
    hide Candidate, Raw, Retries;
    var t' := Save(kind, t, o);
    SaveSettles(kind, t, o);
    SettledIsFound(kind, t', o.pk, o.row.title, Retries(kind, t, o.row));
    SlugForSound(kind, t, o.row);
  }

  // Hard deletion is the only request that frees names.
  ghost predicate FreesNothing(ops: seq<Op>) {
    forall op | op in ops :: !op.HardDelete?
  }

  lemma StepKeepsSettled(kind: Kind, t: Table, op: Op, pk: string, title: Title, k: nat)
    requires Consistent(kind, t) && Settled(kind, t, pk, title, k) && !op.HardDelete?
    ensures Settled(kind, Step(kind, t, op), pk, title, k)
  {
    var o, t' := Saved(t, op), Step(kind, t, op);
    assert pk in t;
    hide Settled, Consistent, RowToSave, Ids;
    assert t' == if o.Some? then t[o.value.pk := RowToSave(kind, t, o.value)] else t;
    hide *;
    StepConsistent(kind, t, op);
    if o.Some? {
      var q, r := o.value.pk, RowToSave(kind, t, o.value);
      if q in t { StepKeepsIds(kind, t, op, q); }
      if q == pk { StoreKeepsSettled(kind, t, pk, r, title, k); }
      else { OtherKeepsSettled(kind, t, q, r, pk, title, k); }
    }
  }

  /** What other objects hold only grows, and what this one holds stays the same. */
  lemma OtherKeepsSettled(kind: Kind, t: Table, q: string, r: Row, pk: string, title: Title, k: nat)
    requires Settled(kind, t, pk, title, k) && q != pk
    requires q in t ==> Ids(t[q]) <= Ids(r)
    ensures Settled(kind, t[q := r], pk, title, k)
  {
    hide Candidate, Raw, Unusable, Ids;
    var t' := t[q := r];
    forall s | s in Others(t, pk) ensures s in Others(t', pk) {
      var p :| p in t - {pk} && s in Ids((t - {pk})[p]);
      assert p in t' - {pk} && s in Ids((t' - {pk})[p]);
    }
  }

  lemma StoreKeepsSettled(kind: Kind, t: Table, pk: string, r: Row, title: Title, k: nat)
    requires Settled(kind, t, pk, title, k)
    requires Consistent(kind, t[pk := r]) && Ids(t[pk]) <= Ids(r)
    ensures Settled(kind, t[pk := r], pk, title, k)
  {
    hide Candidate, Raw, Unusable;
    var t', raw := t[pk := r], Raw(kind, title);
    OthersKept(t, pk, r);
    forall j: nat | j < k ensures Candidate(kind, raw, j) !in Ids(r) {
      var s := Candidate(kind, raw, j);
      if s !in Unusable(kind) {
        assert s in Others(t, pk);
        var q :| q in t - {pk} && s in Ids((t - {pk})[q]);
        assert q in t' && q != pk && s in Ids(t'[q]) && Ids(t'[q]) !! Ids(t'[pk]);
      } else {
        assert WellNamed(kind, t'[pk]);
      }
    }
  }

  lemma {:induction false} RunKeepsSettled(
      kind: Kind, t: Table, ops: seq<Op>, pk: string, title: Title, k: nat)
    requires Consistent(kind, t) && Settled(kind, t, pk, title, k) && FreesNothing(ops)
    ensures Settled(kind, Run(kind, t, ops), pk, title, k)
    decreases |ops|
  {
    if ops != [] {
      assert ops[0] in ops;
      StepKeepsSettled(kind, t, ops[0], pk, title, k);
      StepConsistent(kind, t, ops[0]);
      RunKeepsSettled(kind, Step(kind, t, ops[0]), ops[1..], pk, title, k);
    }
  }

  lemma SettledSave(kind: Kind, t: Table, pk: string, title: Title, k: nat, original: Title)
    requires Settled(kind, t, pk, title, k) && t[pk].slug != "" && title != original
    ensures var r := RowToSave(kind, t, Obj(pk, t[pk].(title := title), original));
            r.slug == Candidate(kind, Raw(kind, title), k) && Ids(r) == Ids(t[pk])
  {
    SettledIsFound(kind, t, pk, title, k);
    SaveGrowsIds(kind, t, Obj(pk, t[pk].(title := title), original));
  }

  /** Renaming back: after any run without hard deletions, on this object and on others, giving
      the object a title it was saved under restores the slug it had under that title, and adds
      no identifier. */
  lemma RenameBack(kind: Kind, t: Table, o: Obj, ops: seq<Op>, original: Title)
    requires Consistent(kind, t) && UpToDate(t, o)
    requires Recomputes(o)
    requires FreesNothing(ops) && original != o.row.title
    ensures var t1 := Save(kind, t, o);
            var t2 := Run(kind, t1, ops);
            && o.pk in t2
            && var r := RowToSave(kind, t2, Obj(o.pk, t2[o.pk].(title := o.row.title), original));
               r.slug == t1[o.pk].slug && Ids(r) == Ids(t2[o.pk])
  {
    var t1, k := Save(kind, t, o), Retries(kind, t, o.row);
    var t2 := Run(kind, t1, ops);
    assert Consistent(kind, t2) by {
      SaveConsistent(kind, t, o);
      RunConsistent(kind, t1, ops);
    }
    assert Settled(kind, t2, o.pk, o.row.title, k) by {
      SaveConsistent(kind, t, o);
      SaveSettles(kind, t, o);
      RunKeepsSettled(kind, t1, ops, o.pk, o.row.title, k);
    }
    SettledSave(kind, t2, o.pk, o.row.title, k, original);
  }
}
