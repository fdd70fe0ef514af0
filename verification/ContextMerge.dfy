/** Merging the contexts of notifications that stand for several events. */
module ContextMerge {
  import opened Common

  /** A dictionary with an "id" and the rest of its fields. */
  datatype Entry = Entry(id: int, fields: int)

  /** A value of a context: a list of entries, a list of plain values (as the set of them,
      which is all that merging keeps), or anything that is not a list. */
  datatype Field = Scalar(value: int) | Plains(values: set<int>) | Entries(entries: seq<Entry>)

  type Context = map<string, Field>

  datatype MergeError = TypeError

  function IdsOf(xs: seq<Entry>): (ids: seq<int>)
    ensures |ids| == |xs| && forall i | 0 <= i < |xs| :: ids[i] == xs[i].id
  {
    seq(|xs|, i requires 0 <= i < |xs| => xs[i].id)
  }

  /** `d[v["id"]] = v`: an id already there keeps its place and gets the new value. */
  function Put(d: seq<Entry>, v: Entry): seq<Entry> {
    if d == [] then [v]
    else if d[0].id == v.id then [v] + d[1..]
    else [d[0]] + Put(d[1..], v)
  }

  function PutAll(d: seq<Entry>, xs: seq<Entry>): seq<Entry>
    decreases |xs|
  {
    if xs == [] then d else PutAll(Put(d, xs[0]), xs[1..])
  }

  /** `list({v["id"]: v for v in xs}.values())` */
  function Dedup(xs: seq<Entry>): seq<Entry> {
    PutAll([], xs)
  }

  // ----- what Dedup is, without dictionaries -----

  /** The ids in order of first occurrence. */
  function FirstIds(xs: seq<Entry>): seq<int> {
    if xs == [] then []
    else
      var n := |xs| - 1;
      if xs[n].id in IdsOf(xs[..n]) then FirstIds(xs[..n]) else FirstIds(xs[..n]) + [xs[n].id]
  }

  /** The last entry with this id. */
  function LastWith(xs: seq<Entry>, id: int): Option<Entry> {
    if xs == [] then None
    else if xs[|xs| - 1].id == id then Some(xs[|xs| - 1])
    else LastWith(xs[..|xs| - 1], id)
  }

  /** `d` lists the ids of `xs` by first occurrence, each with its last value. */
  ghost predicate IsDedupOf(d: seq<Entry>, xs: seq<Entry>) {
    IdsOf(d) == FirstIds(xs) && forall v | v in d :: LastWith(xs, v.id) == Some(v)
  }

  lemma IdsCons(v: Entry, d: seq<Entry>)
    ensures IdsOf([v] + d) == [v.id] + IdsOf(d)
  {
  }

  lemma {:induction false} PutIds(d: seq<Entry>, v: Entry)
    ensures IdsOf(Put(d, v)) == if v.id in IdsOf(d) then IdsOf(d) else IdsOf(d) + [v.id]
  {
    if d == [] {
      assert IdsOf(d) == [] && IdsOf([v]) == [v.id];
    } else {
      var first, rest := d[0], d[1..];
      assert d == [first] + rest;
      IdsCons(first, rest);
      IdsCons(v, rest);
      IdsCons(first, Put(rest, v));
      PutIds(rest, v);
      hide IdsOf;
      assert [first.id] + (IdsOf(rest) + [v.id]) == [first.id] + IdsOf(rest) + [v.id];
    }
  }

  lemma {:induction false} PutMembers(d: seq<Entry>, v: Entry, w: Entry)
    requires NoDuplicates(IdsOf(d))
    ensures w in Put(d, v) <==> w == v || (w in d && w.id != v.id)
  {
    if d != [] {
      assert IdsOf(d) == [d[0].id] + IdsOf(d[1..]);
      SplitNoDuplicates([d[0].id], IdsOf(d[1..]));
      PutMembers(d[1..], v, w);
      assert d == [d[0]] + d[1..];
      if w in d[1..] {
        var i :| 0 <= i < |d[1..]| && d[1..][i] == w;
        assert IdsOf(d[1..])[i] == w.id && d[0].id in [d[0].id];
      }
    }
  }

  lemma {:induction false} FirstIdsExact(xs: seq<Entry>)
    ensures NoDuplicates(FirstIds(xs)) && forall id :: id in FirstIds(xs) <==> id in IdsOf(xs)
  {
    if xs != [] {
      var n := |xs| - 1;
      FirstIdsExact(xs[..n]);
      assert IdsOf(xs) == IdsOf(xs[..n]) + [xs[n].id];
      ConcatNoDuplicates(FirstIds(xs[..n]), if xs[n].id in IdsOf(xs[..n]) then [] else [xs[n].id]);
    }
  }

  lemma {:induction false} PutAllLast(d: seq<Entry>, xs: seq<Entry>, v: Entry)
    ensures PutAll(d, xs + [v]) == Put(PutAll(d, xs), v)
    decreases |xs|
  {
    if xs == [] {
      assert [] + [v] == [v];
    } else {
      assert (xs + [v])[0] == xs[0] && (xs + [v])[1..] == xs[1..] + [v];
      PutAllLast(Put(d, xs[0]), xs[1..], v);
    }
  }

  /** Deduplication keeps the order of first and the value of last occurrence. */
  lemma {:induction false} DedupExact(xs: seq<Entry>)
    ensures IsDedupOf(Dedup(xs), xs)
  {
    if xs != [] {
      var n := |xs| - 1;
      var before, v := xs[..n], xs[n];
      assert xs == before + [v];
      DedupExact(before);
      FirstIdsExact(before);
      PutAllLast([], before, v);
      PutIds(Dedup(before), v);
      forall w | w in Dedup(xs) ensures LastWith(xs, w.id) == Some(w) {
        PutMembers(Dedup(before), v, w);
      }
    }
  }

  /** So ids are unique, and no id is lost or made up. */
  lemma DedupKeepsIds(xs: seq<Entry>)
    ensures NoDuplicates(IdsOf(Dedup(xs)))
    ensures forall id :: id in IdsOf(Dedup(xs)) <==> id in IdsOf(xs)
  {
    DedupExact(xs);
    FirstIdsExact(xs);
  }

  // ----- merging one list at a time -----

  lemma {:induction false} PutAllConcat(d: seq<Entry>, xs: seq<Entry>, ys: seq<Entry>)
    ensures PutAll(d, xs + ys) == PutAll(PutAll(d, xs), ys)
    decreases |xs|
  {
    if xs == [] {
      assert [] + ys == ys;
    } else {
      assert (xs + ys)[0] == xs[0] && (xs + ys)[1..] == xs[1..] + ys;
      PutAllConcat(Put(d, xs[0]), xs[1..], ys);
    }
  }

  lemma {:induction false} PutNew(d: seq<Entry>, v: Entry)
    requires v.id !in IdsOf(d)
    ensures Put(d, v) == d + [v]
  {
    if d != [] {
      assert IdsOf(d) == [d[0].id] + IdsOf(d[1..]);
      PutNew(d[1..], v);
    }
  }

  lemma {:induction false} PutAllNew(d: seq<Entry>, xs: seq<Entry>)
    requires NoDuplicates(IdsOf(d + xs))
    ensures PutAll(d, xs) == d + xs
    decreases |xs|
  {
    if xs != [] {
      assert IdsOf(d + xs)[|d|] == xs[0].id;
      assert forall i | 0 <= i < |d| :: IdsOf(d + xs)[i] == d[i].id;
      PutNew(d, xs[0]);
      assert d + [xs[0]] + xs[1..] == d + xs;
      PutAllNew(d + [xs[0]], xs[1..]);
    }
  }

  /** Merging into an already merged list is merging into what it was made of. */
  lemma DedupAbsorbs(xs: seq<Entry>, ys: seq<Entry>)
    ensures Dedup(Dedup(xs) + ys) == Dedup(xs + ys)
  {
    DedupKeepsIds(xs);
    assert [] + Dedup(xs) == Dedup(xs);
    PutAllNew([], Dedup(xs));
    PutAllConcat([], xs, ys);
    PutAllConcat([], Dedup(xs), ys);
  }

  function Concat(lists: seq<seq<Entry>>): seq<Entry> {
    if lists == [] then [] else Concat(lists[..|lists| - 1]) + lists[|lists| - 1]
  }

  /** What is stored after these event lists: the first as it is, the later ones merged in. */
  function Stored(lists: seq<seq<Entry>>): seq<Entry>
    requires lists != []
  {
    if |lists| == 1 then lists[0]
    else Dedup(Stored(lists[..|lists| - 1]) + lists[|lists| - 1])
  }

  /** Merging is a fold: from the second event on, what is stored is the whole history
      deduplicated at once. A single event is stored as it came, so it is deduplicated
      exactly when it repeats no id. */
  lemma {:induction false} MergingIsAFold(lists: seq<seq<Entry>>)
    requires lists != []
    ensures |lists| > 1 ==> Stored(lists) == Dedup(Concat(lists))
    ensures |lists| == 1 ==> (Stored(lists) == Dedup(Concat(lists)) <==> NoDuplicates(IdsOf(lists[0])))
  {
    var n := |lists| - 1;
    if n == 0 {
      assert Concat(lists[..0]) == [] && [] + lists[0] == lists[0];
      if NoDuplicates(IdsOf(lists[0])) { PutAllNew([], lists[0]); }
      DedupKeepsIds(lists[0]);
    } else {
      MergingIsAFold(lists[..n]);
      if n == 1 {
        assert lists[..1][..0] == [] && [] + lists[0] == lists[0];
        assert Concat(lists[..1]) == lists[0];
      } else {
        DedupAbsorbs(Concat(lists[..n]), lists[n]);
      }
    }
  }

  // ----- contexts -----

  /** `merge_context_lists`, or the new value when it is not a list. An empty list of entries
      is an empty list. Entries are not hashable: they cannot be united with plain values. */
  function MergedField(was: Option<Field>, now: Field): Result<Field, MergeError> {
    match now
    case Scalar(_) => Ok(now)
    case Entries(ys) =>
      if ys == [] then MergedPlain(was, {})
      else
        (match was
         case None => Ok(Entries(Dedup(ys)))
         case Some(Entries(xs)) => Ok(Entries(Dedup(xs + ys)))
         case Some(Plains(s)) => if s == {} then Ok(Entries(Dedup(ys))) else Err(TypeError)
         case Some(Scalar(_)) => Err(TypeError))
    case Plains(t) => MergedPlain(was, t)
  }

  function MergedPlain(was: Option<Field>, t: set<int>): Result<Field, MergeError> {
    match was
    case None => Ok(Plains(t))
    case Some(Plains(s)) => Ok(Plains(s + t))
    case Some(Entries(xs)) => if xs == [] then Ok(Plains(t)) else Err(TypeError)
    case Some(Scalar(_)) => Err(TypeError)
  }

  predicate IsEmptyList(f: Field) {
    f == Plains({}) || f == Entries([])
  }

  /** Merging fails exactly when a list meets a value that is not a list, or non-empty lists of
      different kinds meet; otherwise a list of plain values gains the new ones. */
  lemma MergeFailsIff(was: Option<Field>, now: Field)
    ensures MergedField(was, now).Err? <==>
              && !now.Scalar? && was.Some?
              && (was.value.Scalar?
                  || (!IsEmptyList(was.value) && !IsEmptyList(now) && was.value.Plains? != now.Plains?)
                  || (was.value.Entries? && !IsEmptyList(was.value) && IsEmptyList(now)))
    ensures now.Plains? && was.Some? && was.value.Plains? ==>
              MergedField(was, now) == Ok(Plains(was.value.values + now.values))
  {
  }

  function FieldOf(c: Context, key: string): Option<Field> {
    if key in c then Some(c[key]) else None
  }

  predicate Mergeable(was: Context, now: Context) {
    forall key | key in now :: MergedField(FieldOf(was, key), now[key]).Ok?
  }

  /** The merged context has the keys of the new one. */
  function Merged(was: Context, now: Context): Context
    requires Mergeable(was, now)
  {
    map key | key in now :: MergedField(FieldOf(was, key), now[key]).value
  }

  datatype Shape = AnyValue | PlainList | EntryList

  /** The value has the given shape; lists of entries are not empty. */
  predicate HasShape(f: Field, shape: Shape) {
    match shape
    case AnyValue => f.Scalar?
    case PlainList => f.Plains?
    case EntryList => f.Entries? && f.entries != []
  }

  predicate Shaped(c: Context, shapes: map<string, Shape>) {
    forall key | key in c :: key in shapes && HasShape(c[key], shapes[key])
  }

  /** Contexts whose keys always carry the same shape of value merge without error. */
  lemma ShapedMerge(was: Context, now: Context, shapes: map<string, Shape>)
    requires Shaped(was, shapes) && Shaped(now, shapes)
    ensures Mergeable(was, now) && Shaped(Merged(was, now), shapes)
  {
    forall key | key in now
      ensures MergedField(FieldOf(was, key), now[key]).Ok?
      ensures HasShape(MergedField(FieldOf(was, key), now[key]).value, shapes[key])
    {
      if now[key].Entries? {
        var ys := now[key].entries;
        DedupNotEmpty(ys);
        if key in was { DedupNotEmpty(was[key].entries + ys); }
      }
    }
  }

  lemma DedupNotEmpty(xs: seq<Entry>)
    requires xs != []
    ensures Dedup(xs) != []
  {
    DedupKeepsIds(xs);
    assert IdsOf(xs)[0] in IdsOf(xs);
  }
}
