/** The newsfeed: three lists merged round-robin, and what the first page shows. */
module Newsfeed {
  import opened Common

  datatype Item = Announcement(id: nat, project: nat) | News(id: nat) | Project(id: nat)

  // ----- merge_querysets -----

  function MaxLength<T>(lists: seq<seq<T>>): (m: nat)
    ensures forall l | l in lists :: |l| <= m
  {
    if lists == [] then 0
    else
      var m := MaxLength(lists[1..]);
      if |lists[0]| > m then |lists[0]| else m
  }

  /** The `r`-th tuple of `zip_longest`, lists that are exhausted giving None. */
  function Row<T>(lists: seq<seq<T>>, r: nat): (row: seq<Option<T>>)
    ensures |row| == |lists|
    ensures forall k | 0 <= k < |lists| :: row[k] == if r < |lists[k]| then Some(lists[k][r]) else None
  {
    seq(|lists|, k requires 0 <= k < |lists| => if r < |lists[k]| then Some(lists[k][r]) else None)
  }

  /** `chain.from_iterable` of the first `n` tuples. */
  function Chained<T>(lists: seq<seq<T>>, n: nat): seq<Option<T>> {
    if n == 0 then [] else Chained(lists, n - 1) + Row(lists, n - 1)
  }

  /** The items that are not None. */
  function Present<T>(items: seq<Option<T>>): seq<T> {
    if items == [] then []
    else
      var before, last := Present(items[..|items| - 1]), items[|items| - 1];
      if last.Some? then before + [last.value] else before
  }

  function Merge<T>(lists: seq<seq<T>>): seq<T> {
    Present(Chained(lists, MaxLength(lists)))
  }

  // ----- where each item lands -----

  function Min(a: nat, b: nat): nat {
    if a < b then a else b
  }

  /** Σ_{k < n} min(len k, r) */
  function Taken<T>(lists: seq<seq<T>>, n: nat, r: nat): nat
    requires n <= |lists|
  {
    if n == 0 then 0 else Taken(lists, n - 1, r) + Min(|lists[n - 1]|, r)
  }

  /** i + Σ_{k < j} min(len k, i + 1) + Σ_{k > j} min(len k, i) */
  function Position<T>(lists: seq<seq<T>>, j: nat, i: nat): int
    requires j < |lists| && i < |lists[j]|
  {
    i + Taken(lists, j, i + 1) + (Taken(lists, |lists|, i) - Taken(lists, j + 1, i))
  }

  lemma {:induction false} PresentConcat<T>(a: seq<Option<T>>, b: seq<Option<T>>)
    ensures Present(a + b) == Present(a) + Present(b)
  {
    if b == [] {
      assert a + b == a && Present(a) + [] == Present(a);
    } else {
      var rest := b[..|b| - 1];
      assert (a + b)[..|a + b| - 1] == a + rest;
      PresentConcat(a, rest);
    }
  }

  /** A prefix of a row holds one item of each list that is long enough. */
  lemma {:induction false} RowPrefix<T>(lists: seq<seq<T>>, r: nat, n: nat)
    requires n <= |lists|
    ensures |Present(Row(lists, r)[..n])| == Taken(lists, n, r + 1) - Taken(lists, n, r)
  {
    if n > 0 {
      RowPrefix(lists, r, n - 1);
      assert Row(lists, r)[..n][..n - 1] == Row(lists, r)[..n - 1];
    } else {
      assert Row(lists, r)[..0] == [];
    }
  }

  lemma {:induction false} ChainedLength<T>(lists: seq<seq<T>>, r: nat)
    ensures |Present(Chained(lists, r))| == Taken(lists, |lists|, r)
  {
    if r == 0 {
      NothingTaken(lists, |lists|);
    } else {
      ChainedLength(lists, r - 1);
      PresentConcat(Chained(lists, r - 1), Row(lists, r - 1));
      RowPrefix(lists, r - 1, |lists|);
      assert Row(lists, r - 1)[..|lists|] == Row(lists, r - 1);
    }
  }

  lemma {:induction false} NothingTaken<T>(lists: seq<seq<T>>, n: nat)
    requires n <= |lists|
    ensures Taken(lists, n, 0) == 0
  {
    if n > 0 { NothingTaken(lists, n - 1); }
  }

  lemma {:induction false} ChainedPrefix<T>(lists: seq<seq<T>>, r: nat, n: nat)
    requires r <= n
    ensures Present(Chained(lists, r)) <= Present(Chained(lists, n))
    decreases n
  {
    if r < n {
      ChainedPrefix(lists, r, n - 1);
      PresentConcat(Chained(lists, n - 1), Row(lists, n - 1));
    }
  }

  lemma PresentAround<T>(row: seq<Option<T>>, j: nat)
    requires j < |row| && row[j].Some?
    ensures Present(row) == Present(row[..j]) + [row[j].value] + Present(row[j + 1..])
  {
    assert row == row[..j + 1] + row[j + 1..];
    assert row[..j + 1][..j] == row[..j];
    PresentConcat(row[..j + 1], row[j + 1..]);
  }

  lemma PositionIsSum<T>(lists: seq<seq<T>>, j: nat, i: nat)
    requires j < |lists| && i < |lists[j]|
    ensures Position(lists, j, i)
         == |Present(Chained(lists, i))| + |Present(Row(lists, i)[..j])|
  {
    ChainedLength(lists, i);
    RowPrefix(lists, i, j);
  }

  lemma ItemAt<T>(a: seq<T>, b: seq<T>, x: T, c: seq<T>, whole: seq<T>)
    requires a + (b + [x] + c) <= whole
    ensures |a| + |b| < |whole| && whole[|a| + |b|] == x
  {
    assert (a + (b + [x] + c))[|a| + |b|] == x;
  }

  /** Item i of list j lands exactly at its position. */
  lemma LandsAt<T>(lists: seq<seq<T>>, j: nat, i: nat)
    requires j < |lists| && i < |lists[j]|
    ensures 0 <= Position(lists, j, i) < |Merge(lists)|
    ensures Merge(lists)[Position(lists, j, i)] == lists[j][i]
  {
    assert lists[j] in lists;
    PositionIsSum(lists, j, i);
    var row := Row(lists, i);
    PresentAround(row, j);
    PresentConcat(Chained(lists, i), row);
    ChainedPrefix(lists, i + 1, MaxLength(lists));
    hide Present, Row, Position;
    ItemAt(Present(Chained(lists, i)), Present(row[..j]), lists[j][i], Present(row[j + 1..]), Merge(lists));
  }

  lemma {:induction false} TakenMonotone<T>(lists: seq<seq<T>>, n: nat, r: nat, q: nat)
    requires n <= |lists| && r <= q
    ensures Taken(lists, n, r) <= Taken(lists, n, q)
  {
    if n > 0 { TakenMonotone(lists, n - 1, r, q); }
  }

  /** The items of one list keep their order. */
  lemma KeepsOrder<T>(lists: seq<seq<T>>, j: nat, i: nat, i': nat)
    requires j < |lists| && i < i' < |lists[j]|
    ensures Position(lists, j, i) < Position(lists, j, i')
  {
    TakenMonotone(lists, j, i + 1, i' + 1);
    TakenAfter(lists, j + 1, i, i', |lists|);
  }

  lemma {:induction false} TakenAfter<T>(lists: seq<seq<T>>, j: nat, r: nat, q: nat, n: nat)
    requires j <= n <= |lists| && r <= q
    ensures Taken(lists, n, r) - Taken(lists, j, r) <= Taken(lists, n, q) - Taken(lists, j, q)
    decreases n
  {
    if j < n { TakenAfter(lists, j, r, q, n - 1); }
  }

  /** Whose turn it is: the list that fills slot `q` of a row. */
  lemma {:induction false} SlotOwner<T>(lists: seq<seq<T>>, r: nat, n: nat, q: nat)
    requires n <= |lists| && q < |Present(Row(lists, r)[..n])|
    ensures exists j: nat :: j < n && r < |lists[j]| && |Present(Row(lists, r)[..j])| == q
  {
    var row := Row(lists, r);
    assert row[..0] == [];
    if n > 0 {
      assert row[..n][..n - 1] == row[..n - 1] && row[..n][n - 1] == row[n - 1];
      if q < |Present(row[..n - 1])| {
        SlotOwner(lists, r, n - 1, q);
      } else {
        var j: nat := n - 1;
        assert r < |lists[j]| && |Present(row[..j])| == q;
      }
    }
  }

  lemma RowOwner<T>(lists: seq<seq<T>>, r: nat, q: nat)
    requires q < |Present(Row(lists, r))|
    ensures exists j: nat, i: nat ::
              j < |lists| && i < |lists[j]| && Position(lists, j, i) == |Present(Chained(lists, r))| + q
  {
    var row := Row(lists, r);
    assert row[..|lists|] == row;
    SlotOwner(lists, r, |lists|, q);
    var j: nat :| j < |lists| && r < |lists[j]| && |Present(row[..j])| == q;
    PositionIsSum(lists, j, r);
    hide Present, Position, Row;
    assert Position(lists, j, r) == |Present(Chained(lists, r))| + q;
  }

  /** Every place of the merge is the position of an item. */
  lemma {:induction false} PlaceOwner<T>(lists: seq<seq<T>>, n: nat, q: nat)
    requires q < |Present(Chained(lists, n))|
    ensures exists j: nat, i: nat :: j < |lists| && i < |lists[j]| && Position(lists, j, i) == q
  {
    if n > 0 {
      var done, row := Present(Chained(lists, n - 1)), Row(lists, n - 1);
      PresentConcat(Chained(lists, n - 1), row);
      if q < |done| {
        PlaceOwner(lists, n - 1, q);
      } else {
        RowOwner(lists, n - 1, q - |done|);
      }
    }
  }

  // ----- nothing lost, nothing added -----

  function Bag<T>(lists: seq<seq<T>>, n: nat, r: nat): multiset<T>
    requires n <= |lists|
  {
    if n == 0 then multiset{} else Bag(lists, n - 1, r) + multiset(lists[n - 1][..Min(|lists[n - 1]|, r)])
  }

  lemma OneMore<T>(l: seq<T>, r: nat)
    ensures multiset(l[..Min(|l|, r + 1)])
         == multiset(l[..Min(|l|, r)]) + (if r < |l| then multiset{l[r]} else multiset{})
  {
    if r < |l| { assert l[..r + 1] == l[..r] + [l[r]]; }
  }

  lemma RowNext<T>(lists: seq<seq<T>>, r: nat, n: nat)
    requires 0 < n <= |lists|
    ensures multiset(Present(Row(lists, r)[..n])) == multiset(Present(Row(lists, r)[..n - 1]))
              + (if r < |lists[n - 1]| then multiset{lists[n - 1][r]} else multiset{})
  {
    var row := Row(lists, r);
    assert row[..n][..n - 1] == row[..n - 1] && row[..n][n - 1] == row[n - 1];
  }

  lemma BagSum<T>(b: multiset<T>, p: multiset<T>, b': multiset<T>, m: multiset<T>, x: multiset<T>)
    requires b + p == b'
    ensures (b + m) + (p + x) == b' + (m + x)
  {
  }

  lemma {:induction false} RowBag<T>(lists: seq<seq<T>>, r: nat, n: nat)
    requires n <= |lists|
    ensures Bag(lists, n, r) + multiset(Present(Row(lists, r)[..n])) == Bag(lists, n, r + 1)
  {
    if n == 0 {
      assert Row(lists, r)[..0] == [];
    } else {
      var l := lists[n - 1];
      var x := if r < |l| then multiset{l[r]} else multiset{};
      var m := multiset(l[..Min(|l|, r)]);
      RowBag(lists, r, n - 1);
      OneMore(l, r);
      RowNext(lists, r, n);
      assert Bag(lists, n, r) == Bag(lists, n - 1, r) + m;
      assert Bag(lists, n, r + 1) == Bag(lists, n - 1, r + 1) + (m + x);
      BagSum(Bag(lists, n - 1, r), multiset(Present(Row(lists, r)[..n - 1])), Bag(lists, n - 1, r + 1), m, x);
      hide *;
    }
  }

  lemma {:induction false} ChainedBag<T>(lists: seq<seq<T>>, r: nat)
    ensures multiset(Present(Chained(lists, r))) == Bag(lists, |lists|, r)
  {
    if r == 0 {
      EmptyBag(lists, |lists|);
    } else {
      ChainedBag(lists, r - 1);
      PresentConcat(Chained(lists, r - 1), Row(lists, r - 1));
      RowBag(lists, r - 1, |lists|);
      assert Row(lists, r - 1)[..|lists|] == Row(lists, r - 1);
    }
  }

  lemma {:induction false} EmptyBag<T>(lists: seq<seq<T>>, n: nat)
    requires n <= |lists|
    ensures Bag(lists, n, 0) == multiset{}
  {
    if n > 0 { EmptyBag(lists, n - 1); }
  }

  function AllItems<T>(lists: seq<seq<T>>): seq<T> {
    if lists == [] then [] else AllItems(lists[..|lists| - 1]) + lists[|lists| - 1]
  }

  lemma {:induction false} FullBag<T>(lists: seq<seq<T>>, n: nat, m: nat)
    requires n <= |lists| && forall l | l in lists :: |l| <= m
    ensures Bag(lists, n, m) == multiset(AllItems(lists[..n]))
  {
    if n > 0 {
      var l := lists[n - 1];
      FullBag(lists, n - 1, m);
      assert l in lists && l[..Min(|l|, m)] == l;
      assert lists[..n][..n - 1] == lists[..n - 1];
      assert AllItems(lists[..n]) == AllItems(lists[..n - 1]) + l;
      assert Bag(lists, n, m) == Bag(lists, n - 1, m) + multiset(l);
      hide *;
    }
  }

  /** The merge is a permutation of its inputs. */
  lemma MergePermutes<T>(lists: seq<seq<T>>)
    ensures multiset(Merge(lists)) == multiset(AllItems(lists))
  {
    var m := MaxLength(lists);
    ChainedBag(lists, m);
    FullBag(lists, |lists|, m);
    assert lists[..|lists|] == lists;
  }

  // ----- the first page -----

  function Subjects(announcements: seq<Item>): set<nat> {
    set a | a in announcements && a.Announcement? :: a.project
  }

  /** `exclude(project__id__in=...)` */
  function Excluding(projects: seq<Item>, ids: set<nat>): (r: seq<Item>)
    ensures forall p :: p in r <==> p in projects && !(p.Project? && p.id in ids)
  {
    if projects == [] then []
    else
      var rest := Excluding(projects[1..], ids);
      if projects[0].Project? && projects[0].id in ids then rest else [projects[0]] + rest
  }

  /** It is a filter: it treats the parts of a list one after the other, and an item is kept
      or dropped by itself. */
  lemma {:induction false} ExcludingSplits(a: seq<Item>, b: seq<Item>, ids: set<nat>)
    ensures Excluding(a + b, ids) == Excluding(a, ids) + Excluding(b, ids)
    ensures forall p: Item :: Excluding([p], ids) == if p.Project? && p.id in ids then [] else [p]
  {
    if a == [] {
      assert a + b == b;
    } else {
      assert (a + b)[1..] == a[1..] + b;
      ExcludingSplits(a[1..], b, ids);
    }
  }

  /** The projects left by `get_queryset`: not those of the `m` announcements meant for page one. */
  function ProjectsLeft(announcements: seq<Item>, projects: seq<Item>, m: nat): seq<Item> {
    Excluding(projects, Subjects(announcements[..Min(|announcements|, m)]))
  }

  /** The `limit` of a request, which two parties read: `get_queryset` and the paginator. */
  datatype Limit = Missing | Unreadable | Asked(value: int)

  const PAGE_SIZE := 100

  /** The page the paginator cuts: it takes only positive limits. */
  function PageSize(limit: Limit): nat {
    if limit.Asked? && limit.value > 0 then limit.value else PAGE_SIZE
  }

  /** How many announcements `get_queryset` means for page one: `(limit + 2) // 3`. A text that
      is no number raises an exception, and so does a slice up to a negative place. */
  function Quota(limit: Limit): Option<nat> {
    match limit
    case Missing => Some((PAGE_SIZE + 2) / 3)
    case Unreadable => None
    case Asked(value) => if value >= -2 then Some((value + 2) / 3) else None
  }

  /** The exclusion is computed only when there are announcements. */
  function Feed(announcements: seq<Item>, news: seq<Item>, projects: seq<Item>, limit: Limit): Option<seq<Item>> {
    if announcements == [] then Some(Merge([announcements, news, projects]))
    else
      match Quota(limit)
      case None => None
      case Some(m) => Some(Merge([announcements, news, ProjectsLeft(announcements, projects, m)]))
  }

  predicate Typed(announcements: seq<Item>, news: seq<Item>, projects: seq<Item>) {
    && (forall x | x in announcements :: x.Announcement?)
    && (forall x | x in news :: x.News?)
    && (forall x | x in projects :: x.Project?)
  }

  function Page(feed: seq<Item>, size: nat): seq<Item> {
    feed[..Min(|feed|, size)]
  }

  /** The first page of a request, when it does not fail. */
  function FirstPage(a: seq<Item>, n: seq<Item>, projects: seq<Item>, limit: Limit): Option<seq<Item>> {
    match Feed(a, n, projects, limit)
    case None => None
    case Some(feed) => Some(Page(feed, PageSize(limit)))
  }

  lemma AnnouncementPosition(a: seq<Item>, n: seq<Item>, p: seq<Item>, i: nat)
    requires i < |a|
    ensures Position([a, n, p], 0, i) == i + Min(|n|, i) + Min(|p|, i)
  {
    var lists := [a, n, p];
    assert lists[0] == a && lists[1] == n && lists[2] == p;
    assert Taken(lists, 3, i) == Taken(lists, 2, i) + Min(|p|, i);
    assert Taken(lists, 2, i) == Taken(lists, 1, i) + Min(|n|, i);
  }

  /** The guard: no announcement beyond the quota `m`, or enough other items to fill the page. */
  predicate PageFills(a: nat, n: nat, p: nat, m: nat, size: nat) {
    a <= m || m + Min(n, m) + Min(p, m) >= size
  }

  lemma QuotaFits(limit: Limit)
    requires Quota(limit).Some?
    ensures var m, size := Quota(limit).value, PageSize(limit);
            3 * m <= size + 2 && size > 0 && (m == 0 ==> size > 2)
    ensures var m, size := Quota(limit).value, PageSize(limit);
            limit.Missing? || limit.value > 0 ==> 3 * m >= size
  {
  }

  lemma EarlyPositions(a: seq<Item>, n: seq<Item>, p: seq<Item>, m: nat, size: nat)
    requires 3 * m <= size + 2
    ensures (forall i: nat | i < |a| :: Position([a, n, p], 0, i) < size <==> i < m)
            <==> PageFills(|a|, |n|, |p|, m, size)
  {
    forall i: nat | i < |a|
      ensures i < m ==> Position([a, n, p], 0, i) < size
      ensures PageFills(|a|, |n|, |p|, m, size) && i >= m ==> Position([a, n, p], 0, i) >= size
    {
      AnnouncementPosition(a, n, p, i);
    }
    if !PageFills(|a|, |n|, |p|, m, size) {
      AnnouncementPosition(a, n, p, m);
      assert Position([a, n, p], 0, m) < size;
    }
  }

  lemma OnPage(lists: seq<seq<Item>>, limit: nat, x: Item)
    requires x in Page(Merge(lists), limit)
    ensures exists j: nat, i: nat :: j < |lists| && i < |lists[j]| && lists[j][i] == x && Position(lists, j, i) < limit
  {
    var feed := Merge(lists);
    var q: nat :| q < Min(|feed|, limit) && feed[q] == x;
    PlaceOwner(lists, MaxLength(lists), q);
    var j: nat, i: nat :| j < |lists| && i < |lists[j]| && Position(lists, j, i) == q;
    LandsAt(lists, j, i);
  }

  lemma OnPageAnnouncement(a: seq<Item>, n: seq<Item>, p: seq<Item>, limit: nat, x: Item)
    requires Typed(a, n, p) && x.Announcement?
    requires x in Page(Merge([a, n, p]), limit)
    ensures exists i: nat :: i < |a| && a[i] == x && Position([a, n, p], 0, i) < limit
  {
    var lists := [a, n, p];
    OnPage(lists, limit, x);
    var j: nat, i: nat :| j < |lists| && i < |lists[j]| && lists[j][i] == x && Position(lists, j, i) < limit;
    assert (forall k | 0 <= k < |n| :: n[k].News?) && (forall k | 0 <= k < |p| :: p[k].Project?);
  }

  lemma OnPageProject(a: seq<Item>, n: seq<Item>, p: seq<Item>, limit: nat, x: Item)
    requires Typed(a, n, p) && x.Project? && x in Page(Merge([a, n, p]), limit)
    ensures x in p
  {
    var lists := [a, n, p];
    OnPage(lists, limit, x);
    var j: nat, i: nat :| j < |lists| && i < |lists[j]| && lists[j][i] == x;
    assert (forall k | 0 <= k < |n| :: n[k].News?) && (forall k | 0 <= k < |a| :: a[k].Announcement?);
  }

  lemma AnnouncementOnPage(a: seq<Item>, n: seq<Item>, p: seq<Item>, size: nat, i: nat)
    requires Typed(a, n, p) && NoDuplicates(a) && i < |a|
    ensures a[i] in Page(Merge([a, n, p]), size) <==> Position([a, n, p], 0, i) < size
  {
    hide Merge, Position, Page;
    if a[i] in Page(Merge([a, n, p]), size) { OnPageAnnouncement(a, n, p, size, a[i]); }
    var lists := [a, n, p];
    assert lists[0] == a;
    if Position(lists, 0, i) < size { EarlyIsOnPage(lists, 0, i, size); }
  }

  /** The announcements of the list are exactly the first `m` of these. */
  ghost predicate ShowsFirst(page: seq<Item>, a: seq<Item>, m: nat) {
    forall x: Item | x.Announcement? :: x in page <==> x in a[..Min(|a|, m)]
  }

  lemma ShowsFirstIff(a: seq<Item>, n: seq<Item>, p: seq<Item>, m: nat, size: nat)
    requires Typed(a, n, p) && NoDuplicates(a) && 3 * m <= size + 2
    ensures ShowsFirst(Page(Merge([a, n, p]), size), a, m) <==> PageFills(|a|, |n|, |p|, m, size)
  {
    var page, first := Page(Merge([a, n, p]), size), a[..Min(|a|, m)];
    EarlyPositions(a, n, p, m, size);
    forall i: nat | i < |a|
      ensures a[i] in page <==> Position([a, n, p], 0, i) < size
      ensures a[i] in first <==> i < m
    {
      AnnouncementOnPage(a, n, p, size, i);
      assert i < m ==> first[i] == a[i];
    }
    forall x: Item | x.Announcement? && x in page ensures x in a {
      OnPageAnnouncement(a, n, p, size, x);
    }
    hide Merge, Position, Page, PageFills;
    if ShowsFirst(page, a, m) {
      forall i: nat | i < |a| ensures a[i] in page <==> a[i] in first { assert a[i] in a; }
    }
  }

  /** The announcements on the first page are exactly the first (limit + 2) / 3 if and only if
      there are no more of them or the other lists fill the page. */
  lemma FirstPageIff(a: seq<Item>, n: seq<Item>, projects: seq<Item>, limit: Limit)
    requires Typed(a, n, projects) && NoDuplicates(a) && Quota(limit).Some?
    ensures var m := Quota(limit).value;
            var p := ProjectsLeft(a, projects, m);
            && FirstPage(a, n, projects, limit).Some?
            && (ShowsFirst(FirstPage(a, n, projects, limit).value, a, m) <==>
                  PageFills(|a|, |n|, |p|, m, PageSize(limit)))
            && (|n| >= m && |p| >= m && (limit.Missing? || limit.value > 0) ==>
                  PageFills(|a|, |n|, |p|, m, PageSize(limit)))
  {
    var m := Quota(limit).value;
    QuotaFits(limit);
    FeedIs(a, n, projects, limit);
    ShowsFirstIff(a, n, ProjectsLeft(a, projects, m), m, PageSize(limit));
  }

  /** A request fails exactly when there is an announcement and its limit is no number or
      below -2. */
  lemma FirstPageFailsIff(a: seq<Item>, n: seq<Item>, projects: seq<Item>, limit: Limit)
    ensures FirstPage(a, n, projects, limit).None? <==>
              a != [] && (limit.Unreadable? || (limit.Asked? && limit.value < -2))
  {
  }

  lemma FeedIs(a: seq<Item>, n: seq<Item>, projects: seq<Item>, limit: Limit)
    requires Quota(limit).Some?
    ensures var p := ProjectsLeft(a, projects, Quota(limit).value);
            Feed(a, n, projects, limit) == Some(Merge([a, n, p]))
  {
    if a == [] {
      assert Subjects(a[..0]) == {};
      ExcludingNothing(projects);
    }
  }

  lemma {:induction false} ExcludingNothing(projects: seq<Item>)
    ensures Excluding(projects, {}) == projects
  {
    if projects != [] { ExcludingNothing(projects[1..]); }
  }

  /** No project of the page is the subject of one of its announcements. */
  ghost predicate Apart(page: seq<Item>) {
    forall x, y | x in page && y in page && x.Announcement? && y.Project? :: x.project != y.id
  }

  /** All requests with this limit on so many announcements, news and projects left by the
      exclusion get a page that is apart. */
  ghost predicate AlwaysApart(na: nat, nn: nat, np: nat, limit: Limit)
    requires Quota(limit).Some?
  {
    forall a, n, projects
      | Typed(a, n, projects) && |a| == na && |n| == nn
        && |ProjectsLeft(a, projects, Quota(limit).value)| == np ::
      FirstPage(a, n, projects, limit).Some? && Apart(FirstPage(a, n, projects, limit).value)
  }

  /** That holds exactly when the page fills or no project is left. For a limit of 0 the quota
      is 0 too, but not the page, so it takes a feed without announcements or projects. */
  lemma ApartIff(na: nat, nn: nat, np: nat, limit: Limit)
    requires Quota(limit).Some?
    ensures var m, size := Quota(limit).value, PageSize(limit);
            AlwaysApart(na, nn, np, limit) <==> PageFills(na, nn, np, m, size) || np == 0
    ensures limit == Asked(0) ==> (AlwaysApart(na, nn, np, limit) <==> na == 0 || np == 0)
  {
    var m, size := Quota(limit).value, PageSize(limit);
    QuotaFits(limit);
    if PageFills(na, nn, np, m, size) || np == 0 {
      forall a, n, projects
        | Typed(a, n, projects) && |a| == na && |n| == nn && |ProjectsLeft(a, projects, m)| == np
        ensures FirstPage(a, n, projects, limit).Some? && Apart(FirstPage(a, n, projects, limit).value)
      {
        FeedIs(a, n, projects, limit);
        FullPageApart(a, n, projects, m, size);
      }
    } else {
      ShortFeedClash(na, nn, np, limit);
    }
  }

  lemma FullPageApart(a: seq<Item>, n: seq<Item>, projects: seq<Item>, m: nat, size: nat)
    requires Typed(a, n, projects) && 3 * m <= size + 2
    requires var p := ProjectsLeft(a, projects, m); PageFills(|a|, |n|, |p|, m, size) || p == []
    ensures Apart(Page(Merge([a, n, ProjectsLeft(a, projects, m)]), size))
  {
    var p := ProjectsLeft(a, projects, m);
    var page := Page(Merge([a, n, p]), size);
    forall x, y | x in page && y in page && x.Announcement? && y.Project? ensures x.project != y.id {
      OnPageAnnouncement(a, n, p, size, x);
      OnPageProject(a, n, p, size, y);
      EarlyPositions(a, n, p, m, size);
      var i: nat :| i < |a| && a[i] == x && Position([a, n, p], 0, i) < size;
      var first := a[..Min(|a|, m)];
      assert first[i] == x;
      assert x.project in Subjects(first);
    }
  }

  /** Otherwise some feed of these sizes shows a project next to an announcement of it: the
      first announcement beyond the quota, about the first project. */
  lemma ShortFeedClash(na: nat, nn: nat, np: nat, limit: Limit)
    requires Quota(limit).Some? && np > 0
    requires !PageFills(na, nn, np, Quota(limit).value, PageSize(limit))
    ensures exists a, n, projects ::
              && Typed(a, n, projects) && |a| == na && |n| == nn
              && |ProjectsLeft(a, projects, Quota(limit).value)| == np
              && !(FirstPage(a, n, projects, limit).Some? && Apart(FirstPage(a, n, projects, limit).value))
  {
    var m, size := Quota(limit).value, PageSize(limit);
    var a := seq(na, i requires 0 <= i < na => Announcement(i, i));
    var n := seq(nn, i requires 0 <= i < nn => News(i));
    var projects := seq(np, i requires 0 <= i < np => Project(m + i));
    assert forall s | s in Subjects(a[..m]) :: s < m;
    ExcludingNone(projects, Subjects(a[..m]));
    assert ProjectsLeft(a, projects, m) == projects;
    assert Typed(a, n, projects);
    QuotaFits(limit);
    FeedIs(a, n, projects, limit);
    hide Merge, ProjectsLeft, Feed, Page, Typed, Apart, Quota, PageSize;
    MeetOnPage(a, n, projects, m, size);
    assert !Apart(FirstPage(a, n, projects, limit).value);
  }

  lemma MeetOnPage(a: seq<Item>, n: seq<Item>, projects: seq<Item>, m: nat, size: nat)
    requires !PageFills(|a|, |n|, |projects|, m, size) && projects != [] && (m == 0 ==> size > 2)
    requires var x, y := a[m], projects[0]; x.Announcement? && y.Project? && x.project == y.id
    ensures !Apart(Page(Merge([a, n, projects]), size))
  {
    var lists := [a, n, projects];
    AnnouncementPosition(a, n, projects, m);
    FirstProjectPosition(a, n, projects);
    assert lists[0] == a && lists[2] == projects;
    hide Merge, Position, Page;
    EarlyIsOnPage(lists, 0, m, size);
    EarlyIsOnPage(lists, 2, 0, size);
  }

  lemma FirstProjectPosition(a: seq<Item>, n: seq<Item>, p: seq<Item>)
    requires p != []
    ensures Position([a, n, p], 2, 0) == Min(|a|, 1) + Min(|n|, 1)
  {
    var lists := [a, n, p];
    assert lists[0] == a && lists[1] == n && lists[2] == p;
    assert Taken(lists, 2, 1) == Taken(lists, 1, 1) + Min(|n|, 1);
  }

  lemma EarlyIsOnPage(lists: seq<seq<Item>>, j: nat, i: nat, limit: nat)
    requires j < |lists| && i < |lists[j]| && Position(lists, j, i) < limit
    ensures lists[j][i] in Page(Merge(lists), limit)
  {
    hide Merge, Position;
    LandsAt(lists, j, i);
    assert Page(Merge(lists), limit)[Position(lists, j, i)] == lists[j][i];
  }

  lemma {:induction false} ExcludingNone(projects: seq<Item>, ids: set<nat>)
    requires forall p | p in projects :: p.Project? && p.id !in ids
    ensures Excluding(projects, ids) == projects
  {
    if projects != [] { ExcludingNone(projects[1..], ids); }
  }
}
