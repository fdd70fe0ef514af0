/** Showing a hierarchy: the nested tree below a row and the path of rows above it. */
module Rendering {
  import opened Common
  import opened Forest
  import opened Hierarchies
  import opened Closures

  datatype Tree = Tree(id: nat, children: seq<Tree>)

  /** The parent under which a row is shown: when the tree starts at an organization's root,
      its parentless rows count as children of that root. */
  function ShownUnder(nodes: map<nat, Node>, start: nat): Parents
    requires start in nodes
  {
    map x | x in nodes ::
      if nodes[x].parent.None? && nodes[start].isRoot && !nodes[x].isRoot
         && nodes[x].org == nodes[start].org
      then Some(start) else nodes[x].parent
  }

  lemma {:induction false} ShownWalkEnds(nodes: map<nat, Node>, start: nat, x: nat)
    requires IsForest(ParentsOf(nodes)) && RootsOnTop(nodes) && start in nodes && x in nodes
    ensures Ends(ShownUnder(nodes, start), x)
    decreases Level(ParentsOf(nodes), x)
  {
    var t, e := ParentsOf(nodes), ShownUnder(nodes, start);
    if nodes[x].parent.Some? {
      assert t[x].value in t;
      ParentLevel(t, x);
      ShownWalkEnds(nodes, start, t[x].value);
    } else if e[x].Some? {
      EndsAbove(e, start);
    }
    EndsAbove(e, x);
  }

  lemma ShownUnderIsForest(nodes: map<nat, Node>, start: nat)
    requires IsForest(ParentsOf(nodes)) && RootsOnTop(nodes) && start in nodes
    ensures IsForest(ShownUnder(nodes, start))
  {
    var t, e := ParentsOf(nodes), ShownUnder(nodes, start);
    forall x | x in e ensures Ends(e, x) { ShownWalkEnds(nodes, start, x); }
    EndingWalksAcyclic(e);
    forall x | x in e && e[x].Some? ensures e[x].value in e {
      if t[x].Some? { assert t[x].value in t; }
    }
  }

  // ----- the nested tree -----

  /** What the database answers when asked for the children of each row, in any order. */
  ghost predicate ListsChildren(e: Parents, listing: map<nat, seq<nat>>) {
    forall x | x in e :: x in listing && Lists(listing[x], Children(e, {x}))
  }

  function Kept(ids: seq<nat>, mapping: set<nat>): (r: seq<nat>)
    ensures forall x :: x in r <==> x in ids && x in mapping
    ensures NoDuplicates(ids) ==> NoDuplicates(r)
  {
    if ids == [] then []
    else
      var rest := Kept(ids[1..], mapping);
      if ids[0] in mapping then [ids[0]] + rest else rest
  }

  predicate AtLimit(limit: Option<int>, depth: nat) {
    limit.Some? && limit.value <= depth
  }

  ghost predicate AllUnder(e: Parents, xs: seq<nat>, x: nat) {
    forall c | c in xs :: c in e && e[c] == Some(x)
  }

  ghost function Render(e: Parents, listing: map<nat, seq<nat>>, mapping: set<nat>,
                        limit: Option<int>, x: nat, depth: nat): Tree
    requires IsForest(e) && ListsChildren(e, listing) && x in e
    decreases |e| - Level(e, x), 1, 0
  {
    var shown := Kept(listing[x], mapping);
    ChildrenListed(e, listing, mapping, x);
    Tree(x, if AtLimit(limit, depth) then []
            else RenderAll(e, listing, mapping, limit, x, shown, depth + 1))
  }

  ghost function RenderAll(e: Parents, listing: map<nat, seq<nat>>, mapping: set<nat>,
                           limit: Option<int>, parent: nat, xs: seq<nat>, depth: nat): (r: seq<Tree>)
    requires IsForest(e) && ListsChildren(e, listing) && parent in e && AllUnder(e, xs, parent)
    ensures |r| == |xs|
    decreases |e| - Level(e, parent), 0, |xs|
  {
    if xs == [] then []
    else
      ParentLevel(e, xs[0]);
      [Render(e, listing, mapping, limit, xs[0], depth)]
      + RenderAll(e, listing, mapping, limit, parent, xs[1..], depth)
  }

  lemma ChildrenListed(e: Parents, listing: map<nat, seq<nat>>, mapping: set<nat>, x: nat)
    requires ListsChildren(e, listing) && x in e
    ensures var shown := Kept(listing[x], mapping);
            && AllUnder(e, shown, x) && NoDuplicates(shown)
            && forall c :: c in shown <==> c in mapping && c in e && e[c] == Some(x)
  {
    forall c ensures c in listing[x] <==> c in e && e[c] == Some(x) {
      assert c in listing[x] <==> c in Elements(listing[x]);
    }
  }

  /** Every id of a tree, a row before its children. */
  function Ids(t: Tree): seq<nat> {
    [t.id] + IdsOfAll(t.children)
  }

  function IdsOfAll(ts: seq<Tree>): seq<nat> {
    if ts == [] then [] else Ids(ts[0]) + IdsOfAll(ts[1..])
  }

  /** `y` is shown `depth` levels down or deeper, below `x`: the path between them is visible
      and the depth limit is not passed. */
  ghost predicate Reached(e: Parents, mapping: set<nat>, limit: Option<int>, x: nat, depth: nat, y: nat) {
    exists n: nat :: ReachedIn(e, mapping, limit, x, depth, y, n)
  }

  ghost predicate ReachedIn(e: Parents, mapping: set<nat>, limit: Option<int>, x: nat, depth: nat, y: nat, n: nat) {
    && Up(e, y, n) == Some(x)
    && (n > 0 && limit.Some? ==> depth + n <= limit.value)
    && forall m: nat | m < n :: Up(e, y, m).Some? && Up(e, y, m).value in mapping
  }

  lemma LevelAdds(e: Parents, y: nat, n: nat, x: nat)
    requires IsForest(e) && y in e && x in e && Up(e, y, n) == Some(x)
    ensures Level(e, y) == n + Level(e, x)
  {
    UpAdds(e, y, n, Level(e, x));
    UpAdds(e, y, n, Level(e, x) + 1);
    LevelIs(e, y, n + Level(e, x));
  }

  /** Below `x` is below one of its shown children, one level less. */
  lemma ReachedStep(e: Parents, mapping: set<nat>, limit: Option<int>, x: nat, depth: nat, y: nat)
    requires IsForest(e) && x in e
    ensures Reached(e, mapping, limit, x, depth, y) <==>
              || y == x
              || (!AtLimit(limit, depth)
                  && exists c :: c in e && e[c] == Some(x) && c in mapping
                       && Reached(e, mapping, limit, c, depth + 1, y))
  {
    if n: nat :| ReachedIn(e, mapping, limit, x, depth, y, n) {
      if n > 0 {
        UpAdds(e, y, n - 1, 1);
        var c := Up(e, y, n - 1).value;
        assert ReachedIn(e, mapping, limit, c, depth + 1, y, n - 1);
      }
    }
    if y == x { assert ReachedIn(e, mapping, limit, x, depth, y, 0); }
    if c :| !AtLimit(limit, depth) && c in e && e[c] == Some(x) && c in mapping
            && Reached(e, mapping, limit, c, depth + 1, y) {
      var n: nat :| ReachedIn(e, mapping, limit, c, depth + 1, y, n);
      UpAdds(e, y, n, 1);
      assert Up(e, c, 1) == Some(x);
      assert ReachedIn(e, mapping, limit, x, depth, y, n + 1);
    }
  }

  lemma ReachedInside(e: Parents, mapping: set<nat>, limit: Option<int>, x: nat, depth: nat, y: nat)
    requires x in e && Reached(e, mapping, limit, x, depth, y)
    ensures y in e
  {
    var n: nat :| ReachedIn(e, mapping, limit, x, depth, y, n);
  }

  /** Two rows of one level have no row below both. */
  lemma SiblingsApart(e: Parents, mapping: set<nat>, limit: Option<int>, a: nat, b: nat, depth: nat, y: nat)
    requires IsForest(e) && a in e && b in e && Level(e, a) == Level(e, b)
    requires Reached(e, mapping, limit, a, depth, y) && Reached(e, mapping, limit, b, depth, y)
    ensures a == b
  {
    ReachedInside(e, mapping, limit, a, depth, y);
    var m: nat :| ReachedIn(e, mapping, limit, a, depth, y, m);
    var n: nat :| ReachedIn(e, mapping, limit, b, depth, y, n);
    LevelAdds(e, y, m, a);
    LevelAdds(e, y, n, b);
  }

  /** The tree shows each reached row exactly once, and nothing else. */
  lemma {:induction false} RenderShows(e: Parents, listing: map<nat, seq<nat>>, mapping: set<nat>,
                                       limit: Option<int>, x: nat, depth: nat)
    requires IsForest(e) && ListsChildren(e, listing) && x in e
    ensures var ids := Ids(Render(e, listing, mapping, limit, x, depth));
            && NoDuplicates(ids)
            && forall y :: y in ids <==> Reached(e, mapping, limit, x, depth, y)
    decreases |e| - Level(e, x), 1, 0
  {
    var shown := Kept(listing[x], mapping);
    ChildrenListed(e, listing, mapping, x);
    var below: seq<nat> := [];
    if !AtLimit(limit, depth) {
      below := IdsOfAll(RenderAll(e, listing, mapping, limit, x, shown, depth + 1));
      RenderAllShows(e, listing, mapping, limit, x, shown, depth + 1);
    }
    forall y ensures y in [x] + below <==> Reached(e, mapping, limit, x, depth, y) {
      ReachedStep(e, mapping, limit, x, depth, y);
    }
    if x in below {
      var c :| c in shown && Reached(e, mapping, limit, c, depth + 1, x);
      var n: nat :| ReachedIn(e, mapping, limit, c, depth + 1, x, n);
      LevelAdds(e, x, n, c);
      ParentLevel(e, c);
    }
    ConcatNoDuplicates([x], below);
  }

  lemma {:induction false} RenderAllShows(e: Parents, listing: map<nat, seq<nat>>, mapping: set<nat>,
                                          limit: Option<int>, parent: nat, xs: seq<nat>, depth: nat)
    requires IsForest(e) && ListsChildren(e, listing) && parent in e
    requires AllUnder(e, xs, parent) && NoDuplicates(xs)
    ensures var ids := IdsOfAll(RenderAll(e, listing, mapping, limit, parent, xs, depth));
            && NoDuplicates(ids)
            && forall y :: y in ids <==> exists c :: c in xs && Reached(e, mapping, limit, c, depth, y)
    decreases |e| - Level(e, parent), 0, |xs|
  {
    if xs != [] {
      var c, rest := xs[0], xs[1..];
      ParentLevel(e, c);
      RenderShows(e, listing, mapping, limit, c, depth);
      RenderAllShows(e, listing, mapping, limit, parent, rest, depth);
      var first := Ids(Render(e, listing, mapping, limit, c, depth));
      var others := IdsOfAll(RenderAll(e, listing, mapping, limit, parent, rest, depth));
      forall y | y in first ensures y !in others {
        if y in others {
          var d :| d in rest && Reached(e, mapping, limit, d, depth, y);
          ParentLevel(e, d);
          SiblingsApart(e, mapping, limit, c, d, depth, y);
        }
      }
      ConcatNoDuplicates(first, others);
      assert xs == [c] + rest;
    }
  }

  /** Each subtree hangs under its own parent. */
  ghost predicate Nested(e: Parents, t: Tree) {
    forall c | c in t.children :: c.id in e && e[c.id] == Some(t.id) && Nested(e, c)
  }

  lemma {:induction false} RenderNested(e: Parents, listing: map<nat, seq<nat>>, mapping: set<nat>,
                                        limit: Option<int>, x: nat, depth: nat)
    requires IsForest(e) && ListsChildren(e, listing) && x in e
    ensures Nested(e, Render(e, listing, mapping, limit, x, depth))
    decreases |e| - Level(e, x), 1, 0
  {
    ChildrenListed(e, listing, mapping, x);
    if !AtLimit(limit, depth) {
      RenderAllNested(e, listing, mapping, limit, x, Kept(listing[x], mapping), depth + 1);
    }
  }

  lemma {:induction false} RenderAllNested(e: Parents, listing: map<nat, seq<nat>>, mapping: set<nat>,
                                           limit: Option<int>, parent: nat, xs: seq<nat>, depth: nat)
    requires IsForest(e) && ListsChildren(e, listing) && parent in e && AllUnder(e, xs, parent)
    ensures forall t | t in RenderAll(e, listing, mapping, limit, parent, xs, depth) ::
              t.id in xs && Nested(e, t)
    decreases |e| - Level(e, parent), 0, |xs|
  {
    if xs != [] {
      ParentLevel(e, xs[0]);
      RenderNested(e, listing, mapping, limit, xs[0], depth);
      RenderAllNested(e, listing, mapping, limit, parent, xs[1..], depth);
    }
  }

  // ----- the tree in terms of the stored parents -----

  /** A parentless row of the organization whose tree is shown, other than its root. */
  predicate Floating(nodes: map<nat, Node>, start: nat, x: nat)
    requires start in nodes
  {
    && x in nodes && nodes[x].parent.None? && !nodes[x].isRoot
    && nodes[start].isRoot && nodes[x].org == nodes[start].org
  }

  /** `c` belongs right under `p`: that is its stored parent, or it floats and `p` is the root. */
  predicate BelongsUnder(nodes: map<nat, Node>, start: nat, c: nat, p: nat)
    requires start in nodes
  {
    c in nodes && (nodes[c].parent == Some(p) || (p == start && Floating(nodes, start, c)))
  }

  /** What the database answers when asked for the rows under each row, in any order. */
  ghost predicate ListsStored(nodes: map<nat, Node>, start: nat, listing: map<nat, seq<nat>>)
    requires start in nodes
  {
    forall x | x in nodes ::
      x in listing && NoDuplicates(listing[x])
      && forall c :: c in listing[x] <==> BelongsUnder(nodes, start, c, x)
  }

  lemma StoredListing(nodes: map<nat, Node>, start: nat, listing: map<nat, seq<nat>>)
    requires IsForest(ParentsOf(nodes)) && start in nodes && ListsStored(nodes, start, listing)
    requires nodes[start].isRoot ==> nodes[start].parent.None?
    ensures ListsChildren(ShownUnder(nodes, start), listing)
  {
    var e := ShownUnder(nodes, start);
    forall x | x in e ensures Lists(listing[x], Children(e, {x})) {
      forall c ensures c in Elements(listing[x]) <==> c in Children(e, {x}) {
        assert c in listing[x] <==> BelongsUnder(nodes, start, c, x);
      }
    }
  }

  /** Every subtree hangs under the row it belongs to. */
  ghost predicate InPlace(nodes: map<nat, Node>, start: nat, t: Tree)
    requires start in nodes
  {
    forall c | c in t.children :: BelongsUnder(nodes, start, c.id, t.id) && InPlace(nodes, start, c)
  }

  lemma {:induction false} NestedInPlace(nodes: map<nat, Node>, start: nat, t: Tree)
    requires start in nodes && Nested(ShownUnder(nodes, start), t)
    ensures InPlace(nodes, start, t)
  {
    forall c | c in t.children ensures BelongsUnder(nodes, start, c.id, t.id) && InPlace(nodes, start, c) {
      NestedInPlace(nodes, start, c);
    }
  }

  /** `y` and the `n` rows above it, the last one excluded, are visible. */
  ghost predicate VisibleBelow(t: Parents, mapping: set<nat>, y: nat, n: nat) {
    forall m: nat | m < n :: Up(t, y, m).Some? && Up(t, y, m).value in mapping
  }

  ghost predicate Within(limit: Option<int>, n: nat) {
    n > 0 && limit.Some? ==> n <= limit.value
  }

  /** The chain of stored parents leads to the start through visible rows, or to a visible row
      that floats, one level deeper; within the depth limit. */
  ghost predicate LedTo(
      nodes: map<nat, Node>, mapping: set<nat>, limit: Option<int>, start: nat, y: nat, n: nat)
    requires start in nodes
  {
    var t := ParentsOf(nodes);
    || (Up(t, y, n) == Some(start) && VisibleBelow(t, mapping, y, n) && Within(limit, n))
    || (Up(t, y, n).Some? && Floating(nodes, start, Up(t, y, n).value)
        && VisibleBelow(t, mapping, y, n + 1) && Within(limit, n + 1))
  }

  lemma VisibleNext(t: Parents, mapping: set<nat>, y: nat, n: nat)
    requires n > 0
    ensures VisibleBelow(t, mapping, y, n) <==>
              y in mapping && (n > 1 ==> y in t && t[y].Some? && VisibleBelow(t, mapping, t[y].value, n - 1))
  {
    assert Up(t, y, 0) == Some(y);
    if y in t && t[y].Some? {
      forall m: nat | m < n - 1 ensures Up(t, y, m + 1) == Up(t, t[y].value, m) {}
      if VisibleBelow(t, mapping, t[y].value, n - 1) && y in mapping {
        forall m: nat | m < n ensures Up(t, y, m).Some? && Up(t, y, m).value in mapping {
          if m > 0 { assert Up(t, y, (m - 1) + 1) == Up(t, t[y].value, m - 1); }
        }
      }
    } else if n > 1 {
      assert Up(t, y, 1) == None;
    }
  }

  /** A walk among shown parents is one among stored parents, or ends with the step from a
      floating row to the root. */
  lemma {:induction false} ShownWalk(nodes: map<nat, Node>, mapping: set<nat>, start: nat, y: nat, n: nat)
    requires start in nodes && (nodes[start].isRoot ==> nodes[start].parent.None?)
    ensures var t, e := ParentsOf(nodes), ShownUnder(nodes, start);
            Up(e, y, n) == Some(start) && VisibleBelow(e, mapping, y, n) <==>
              || (Up(t, y, n) == Some(start) && VisibleBelow(t, mapping, y, n))
              || (n > 0 && Up(t, y, n - 1).Some? && Floating(nodes, start, Up(t, y, n - 1).value)
                  && VisibleBelow(t, mapping, y, n))
    decreases n
  {
    var t, e := ParentsOf(nodes), ShownUnder(nodes, start);
    if n > 0 {
      VisibleNext(e, mapping, y, n);
      VisibleNext(t, mapping, y, n);
      if y in nodes && nodes[y].parent.Some? {
        var p := nodes[y].parent.value;
        assert t[y] == e[y] == Some(p);
        ShownWalk(nodes, mapping, start, p, n - 1);
      } else if y in nodes && Floating(nodes, start, y) {
        assert t[y] == None && e[y] == Some(start) && e[start] == None;
        assert n > 1 ==> Up(e, y, n) == Up(e, start, n - 1) == None;
        assert n > 1 ==> Up(t, y, n - 1) == None;
      } else {
        assert Up(e, y, n) == None && Up(t, y, n) == None && (n > 1 ==> Up(t, y, n - 1) == None);
      }
    }
  }

  lemma ReachedIffLedTo(
      nodes: map<nat, Node>, mapping: set<nat>, limit: Option<int>, start: nat, y: nat)
    requires start in nodes && (nodes[start].isRoot ==> nodes[start].parent.None?)
    ensures Reached(ShownUnder(nodes, start), mapping, limit, start, 0, y) <==>
              exists n: nat :: LedTo(nodes, mapping, limit, start, y, n)
  {
    var e := ShownUnder(nodes, start);
    if n: nat :| ReachedIn(e, mapping, limit, start, 0, y, n) {
      ShownWalk(nodes, mapping, start, y, n);
      assert LedTo(nodes, mapping, limit, start, y, n) || LedTo(nodes, mapping, limit, start, y, n - 1);
    }
    if n: nat :| LedTo(nodes, mapping, limit, start, y, n) {
      ShownWalk(nodes, mapping, start, y, n);
      ShownWalk(nodes, mapping, start, y, n + 1);
      assert ReachedIn(e, mapping, limit, start, 0, y, n) || ReachedIn(e, mapping, limit, start, 0, y, n + 1);
    }
  }

  ghost function VisibleRows(s: State, visible: set<nat>, start: nat): set<nat>
    requires start in s.nodes
  {
    set x | x in visible && x in s.nodes && s.nodes[x].org == s.nodes[start].org
  }

  /** The tree rendered from a row. */
  ghost function TreeFrom(
      s: State, listing: map<nat, seq<nat>>, visible: set<nat>, limit: Option<int>, start: nat): Tree
    requires Valid(s) && start in s.nodes && ListsStored(s.nodes, start, listing)
  {
    ShownUnderIsForest(s.nodes, start);
    StoredListing(s.nodes, start, listing);
    Render(ShownUnder(s.nodes, start), listing, VisibleRows(s, visible, start), limit, start, 0)
  }

  /** It shows, once each and right under the row they belong to, exactly the rows whose stored
      parents lead to the start through visible rows within the depth limit; from a root also
      those led to a visible row without parent. */
  lemma TreeExact(s: State, listing: map<nat, seq<nat>>, visible: set<nat>, limit: Option<int>, start: nat)
    requires Valid(s) && start in s.nodes && ListsStored(s.nodes, start, listing)
    ensures var tree := TreeFrom(s, listing, visible, limit, start);
            && tree.id == start && InPlace(s.nodes, start, tree) && NoDuplicates(Ids(tree))
            && forall y :: y in Ids(tree) <==>
                 exists n: nat :: LedTo(s.nodes, VisibleRows(s, visible, start), limit, start, y, n)
  {
    var e, mapping := ShownUnder(s.nodes, start), VisibleRows(s, visible, start);
    ShownUnderIsForest(s.nodes, start);
    StoredListing(s.nodes, start, listing);
    RenderShows(e, listing, mapping, limit, start, 0);
    RenderNested(e, listing, mapping, limit, start, 0);
    NestedInPlace(s.nodes, start, TreeFrom(s, listing, visible, limit, start));
    forall y ensures Reached(e, mapping, limit, start, 0, y) <==>
                     exists n: nat :: LedTo(s.nodes, mapping, limit, start, y, n) {
      ReachedIffLedTo(s.nodes, mapping, limit, start, y);
    }
  }

  /** Nothing of another organization is rendered. */
  lemma RenderedInOrganization(
      s: State, mapping: set<nat>, limit: Option<int>, root: nat, depth: nat, x: nat)
    requires WithinOrganizations(s.nodes) && root in s.nodes && x in s.nodes
    requires Reached(ShownUnder(s.nodes, root), mapping, limit, root, depth, x)
    ensures s.nodes[x].org == s.nodes[root].org
  {
    var n: nat :| Up(ShownUnder(s.nodes, root), x, n) == Some(root);
    WalkInOrganization(s, root, x, n);
  }

  lemma {:induction false} WalkInOrganization(s: State, root: nat, x: nat, n: nat)
    requires WithinOrganizations(s.nodes) && root in s.nodes && x in s.nodes
    requires Up(ShownUnder(s.nodes, root), x, n) == Some(root)
    ensures s.nodes[x].org == s.nodes[root].org
    decreases n
  {
    if n > 0 {
      var p := ShownUnder(s.nodes, root)[x].value;
      WalkInOrganization(s, root, p, n - 1);
    }
  }

  // ----- the path above a row -----

  datatype Step = Step(order: nat, id: nat)

  ghost predicate OnPath(s: State, row: nat, visible: set<nat>, belowRoot: bool, x: nat) {
    && x in s.nodes && x in visible && ProperlyAbove(ParentsOf(s.nodes), x, row)
    && !(belowRoot && s.nodes[x].isRoot)
  }

  function Reversed(xs: seq<nat>): (r: seq<nat>)
    ensures |r| == |xs| && forall i | 0 <= i < |xs| :: r[i] == xs[|xs| - 1 - i]
  {
    if xs == [] then [] else Reversed(xs[1..]) + [xs[0]]
  }

  // Where the walk stands: `hierarchy` holds the wanted rows of the first `n` steps.
  ghost predicate Walked(s: State, row: nat, visible: set<nat>, belowRoot: bool,
                         obj: nat, n: nat, hierarchy: seq<nat>) {
    var t := ParentsOf(s.nodes);
    && obj in s.nodes && Up(t, row, n) == Some(obj)
    && (forall x | x in hierarchy :: OnPath(s, row, visible, belowRoot, x) && AboveOrSelf(t, obj, x))
    && (forall m: nat | 0 < m <= n && Up(t, row, m).Some? && Up(t, row, m).value in visible ::
          Up(t, row, m).value in hierarchy)
    && (forall i, j | 0 <= i < j < |hierarchy| :: ProperlyAbove(t, hierarchy[j], hierarchy[i]))
  }

  predicate Continues(s: State, obj: nat, belowRoot: bool)
    requires obj in s.nodes
  {
    match s.nodes[obj].parent
    case None => false
    case Some(parent) => parent in s.nodes && !(belowRoot && s.nodes[parent].isRoot)
  }

  lemma AboveNext(t: Parents, x: nat, obj: nat, parent: nat)
    requires x in t && AboveOrSelf(t, obj, x) && Up(t, obj, 1) == Some(parent)
    ensures ProperlyAbove(t, parent, x) && AboveOrSelf(t, parent, x)
  {
    var k: nat :| Up(t, x, k) == Some(obj);
    UpAdds(t, x, k, 1);
    assert Up(t, x, k + 1) == Some(parent);
  }

  lemma WalkStep(s: State, row: nat, visible: set<nat>, belowRoot: bool, obj: nat, n: nat, hierarchy: seq<nat>)
    requires Valid(s) && row in s.nodes && Walked(s, row, visible, belowRoot, obj, n, hierarchy)
    requires Continues(s, obj, belowRoot)
    ensures var parent := s.nodes[obj].parent.value;
            Walked(s, row, visible, belowRoot, parent, n + 1,
                   if parent in visible then hierarchy + [parent] else hierarchy)
  {
    hide Valid;
    var t, parent := ParentsOf(s.nodes), s.nodes[obj].parent.value;
    UpAdds(t, row, n, 1);
    assert Up(t, obj, 1) == Some(parent);
    assert Up(t, row, n + 1) == Some(parent) && ProperlyAbove(t, parent, row);
    assert AboveOrSelf(t, parent, parent) by { assert Up(t, parent, 0) == Some(parent); }
    forall x | x in hierarchy ensures ProperlyAbove(t, parent, x) && AboveOrSelf(t, parent, x) {
      AboveNext(t, x, obj, parent);
    }
    assert parent in visible ==> OnPath(s, row, visible, belowRoot, parent);
    hide ParentsOf, OnPath, ProperlyAbove, AboveOrSelf, Up;
  }

  /** Where the walk stops, only an organization's root can remain above. */
  lemma AboveStop(s: State, obj: nat, belowRoot: bool, k: nat)
    requires Valid(s) && obj in s.nodes && !Continues(s, obj, belowRoot) && k > 0
    ensures var r := Up(ParentsOf(s.nodes), obj, k);
            r.Some? ==> belowRoot && r.value in s.nodes && s.nodes[r.value].isRoot
  {
  }

  lemma WalkComplete(s: State, row: nat, visible: set<nat>, belowRoot: bool, obj: nat, n: nat, hierarchy: seq<nat>)
    requires Valid(s) && row in s.nodes && Walked(s, row, visible, belowRoot, obj, n, hierarchy)
    requires !Continues(s, obj, belowRoot)
    ensures forall x | OnPath(s, row, visible, belowRoot, x) :: x in hierarchy
  {
    var t := ParentsOf(s.nodes);
    forall x | OnPath(s, row, visible, belowRoot, x) ensures x in hierarchy {
      var m: nat :| m > 0 && Up(t, row, m) == Some(x);
      if m > n {
        var k: nat := m - n;
        AboveStop(s, obj, belowRoot, k);
        UpAdds(t, row, n, k);
      }
    }
  }

  /** The path shows the wanted ancestors, and only them, each above the next. */
  ghost predicate IsPath(s: State, row: nat, visible: set<nat>, belowRoot: bool, path: seq<Step>) {
    && (forall i | 0 <= i < |path| :: path[i].order == i)
    && (forall x :: OnPath(s, row, visible, belowRoot, x) <==> exists i :: 0 <= i < |path| && path[i].id == x)
    && (forall i, j | 0 <= i < j < |path| :: ProperlyAbove(ParentsOf(s.nodes), path[i].id, path[j].id))
  }

  function Numbered(top: seq<nat>): (path: seq<Step>)
    ensures |path| == |top| && forall i | 0 <= i < |top| :: path[i] == Step(i, top[i])
  {
    seq(|top|, i requires 0 <= i < |top| => Step(i, top[i]))
  }

  lemma NumberedMembers(hierarchy: seq<nat>, path: seq<Step>, x: nat)
    requires path == Numbered(Reversed(hierarchy))
    ensures x in hierarchy <==> exists i :: 0 <= i < |path| && path[i].id == x
  {
    var last := |hierarchy| - 1;
    if x in hierarchy {
      var i :| 0 <= i < |hierarchy| && hierarchy[i] == x;
      assert path[last - i].id == x;
    }
    forall i | 0 <= i < |path| && path[i].id == x ensures x in hierarchy {
      assert hierarchy[last - i] in hierarchy;
    }
  }

  lemma NumberedPath(s: State, row: nat, visible: set<nat>, belowRoot: bool, hierarchy: seq<nat>)
    requires forall x :: x in hierarchy <==> OnPath(s, row, visible, belowRoot, x)
    requires forall i, j | 0 <= i < j < |hierarchy| :: ProperlyAbove(ParentsOf(s.nodes), hierarchy[j], hierarchy[i])
    ensures IsPath(s, row, visible, belowRoot, Numbered(Reversed(hierarchy)))
  {
    var t, path, last := ParentsOf(s.nodes), Numbered(Reversed(hierarchy)), |hierarchy| - 1;
    hide ParentsOf, OnPath, ProperlyAbove, Reversed, Numbered;
    forall x ensures OnPath(s, row, visible, belowRoot, x) <==> exists i :: 0 <= i < |path| && path[i].id == x {
      NumberedMembers(hierarchy, path, x);
    }
    forall i, j | 0 <= i < j < |path| ensures ProperlyAbove(t, path[i].id, path[j].id) {
      assert ProperlyAbove(t, hierarchy[last - i], hierarchy[last - j]);
    }
  }

  /** The visible ancestors of a row from the top, numbered; `belowRoot` leaves the
      organization's root out. */
  method GetHierarchy(s: State, row: nat, visible: set<nat>, belowRoot: bool) returns (path: seq<Step>)
    requires Valid(s) && row in s.nodes
    ensures IsPath(s, row, visible, belowRoot, path)
  {
    ghost var t := ParentsOf(s.nodes);
    var obj, hierarchy: seq<nat> := row, [];
    ghost var n: nat := 0;
    while Continues(s, obj, belowRoot)
      invariant Walked(s, row, visible, belowRoot, obj, n, hierarchy)
      decreases Level(t, obj)
    {
      WalkStep(s, row, visible, belowRoot, obj, n, hierarchy);
      ParentLevel(t, obj);
      obj, n := s.nodes[obj].parent.value, n + 1;
      if obj in visible {
        hierarchy := hierarchy + [obj];
      }
    }
    WalkComplete(s, row, visible, belowRoot, obj, n, hierarchy);
    NumberedPath(s, row, visible, belowRoot, hierarchy);
    path := Numbered(Reversed(hierarchy));
  }
}
