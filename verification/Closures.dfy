/** The level-by-level loops that collect everything below or above some rows. */
module Closures {
  import opened Common
  import opened Forest

  function Children(t: Parents, s: set<nat>): set<nat> {
    set x | x in t && t[x].Some? && t[x].value in s
  }

  /** The rows whose `n`-th ancestor is in `s`. */
  ghost function LevelBelow(t: Parents, s: set<nat>, n: nat): set<nat> {
    set x | x in t && Up(t, x, n).Some? && Up(t, x, n).value in s
  }

  ghost predicate IsBelow(t: Parents, s: set<nat>, x: nat) {
    x in t && exists a :: a in s && AboveOrSelf(t, a, x)
  }

  ghost predicate ProperlyAbove(t: Parents, a: nat, x: nat) {
    x in t && exists n: nat :: n > 0 && Up(t, x, n) == Some(a)
  }

  /** Distinct rows, none above another. */
  ghost predicate Independent(t: Parents, start: seq<nat>) {
    NoDuplicates(start) && forall a, b | a in start && b in start :: !ProperlyAbove(t, a, b)
  }

  lemma NextLevelBelow(t: Parents, s: set<nat>, n: nat)
    ensures Children(t, LevelBelow(t, s, n)) <= LevelBelow(t, s, n + 1)
    ensures Closed(t) ==> Children(t, LevelBelow(t, s, n)) == LevelBelow(t, s, n + 1)
  {
  }

  lemma FirstLevelBelow(t: Parents, s: set<nat>)
    ensures Children(t, s) == LevelBelow(t, s, 1)
  {
    assert forall x | x in t && t[x].Some? :: Up(t, x, 1) == Up(t, t[x].value, 0);
  }

  lemma LevelsEnd(t: Parents, s: set<nat>, n: nat)
    requires IsForest(t) && LevelBelow(t, s, n) != {}
    ensures n < |t|
  {
    var x :| x in LevelBelow(t, s, n);
    WalkEnds(t, x);
    if n >= |t| { UpStaysNone(t, x, |t|, n); }
  }

  /** Rows on two levels, or among the start rows and on a level, make the start dependent. */
  lemma LevelsOverlap(t: Parents, start: seq<nat>, m: nat, n: nat, x: nat)
    requires m < n && x in LevelBelow(t, Elements(start), n)
    requires if m == 0 then x in start else x in LevelBelow(t, Elements(start), m)
    requires Closed(t)
    ensures !Independent(t, start)
  {
    var a, b := Up(t, x, n).value, Up(t, x, m).value;
    UpAdds(t, x, m, n - m);
    UpStaysInside(t, x, m);
    assert ProperlyAbove(t, a, b);
  }

  ghost predicate Collected(t: Parents, start: seq<nat>, n: nat, x: nat) {
    exists m: nat :: 0 < m < n && x in LevelBelow(t, Elements(start), m)
  }

  method GetBelow(t: Parents, start: seq<nat>) returns (all: seq<nat>)
    requires IsForest(t)
    ensures forall x :: x in all <==> x in start || IsBelow(t, Elements(start), x)
    ensures NoDuplicates(all) <==> Independent(t, start)
  {
    all := [];
    var codes := start;
    ghost var s, n: nat := Elements(start), 0;
    ghost var found := [];
    while |codes| > 0
      invariant n == 0 ==> codes == start && all == [] && found == []
      invariant n > 0 ==> all == start + found && Lists(codes, LevelBelow(t, s, n))
      invariant n > 0 ==> forall x :: x in found <==> Collected(t, start, n, x)
      invariant Independent(t, start) ==> NoDuplicates(all)
      decreases |t| + 1 - n
    {
      if n > 0 {
        assert codes[0] in Elements(codes);
        LevelsEnd(t, s, n);
        FoundGrows(t, start, n, found, codes);
        found := found + codes;
        assert all + codes == start + found;
      } else {
        assert start + [] == start;
        assert [] + start == start;
      }
      all := all + codes;
      codes := Rows(Children(t, Elements(codes)));
      if n == 0 { FirstLevelBelow(t, s); } else { NextLevelBelow(t, s, n); }
      n := n + 1;
    }
    if n == 0 {
      NothingBelowNothing(t, start);
    } else {
      AllFound(t, start, n, found);
    }
  }

  lemma NothingBelowNothing(t: Parents, start: seq<nat>)
    requires start == []
    ensures forall x :: !IsBelow(t, Elements(start), x)
    ensures Independent(t, start)
  {
  }

  lemma FoundGrows(t: Parents, start: seq<nat>, n: nat, found: seq<nat>, codes: seq<nat>)
    requires IsForest(t) && n > 0
    requires Lists(codes, LevelBelow(t, Elements(start), n))
    requires forall x :: x in found <==> Collected(t, start, n, x)
    requires Independent(t, start) ==> NoDuplicates(start + found)
    ensures forall x :: x in found + codes <==> Collected(t, start, n + 1, x)
    ensures Independent(t, start) ==> NoDuplicates(start + found + codes)
  {
    forall x ensures x in found + codes <==> Collected(t, start, n + 1, x) {
      assert x in codes <==> x in Elements(codes);
      if Collected(t, start, n + 1, x) {
        var m: nat :| 0 < m < n + 1 && x in LevelBelow(t, Elements(start), m);
        assert m < n || m == n;
      }
    }
    if Independent(t, start) {
      forall x | x in codes ensures x !in start + found {
        assert x in Elements(codes);
        if x in start { LevelsOverlap(t, start, 0, n, x); }
        if x in found {
          var m: nat :| 0 < m < n && x in LevelBelow(t, Elements(start), m);
          LevelsOverlap(t, start, m, n, x);
        }
      }
      ConcatNoDuplicates(start + found, codes);
    }
  }

  lemma AllFound(t: Parents, start: seq<nat>, n: nat, found: seq<nat>)
    requires IsForest(t) && n > 0 && LevelBelow(t, Elements(start), n) == {}
    requires forall x :: x in found <==> Collected(t, start, n, x)
    requires Independent(t, start) ==> NoDuplicates(start + found)
    ensures forall x :: x in start + found <==> x in start || IsBelow(t, Elements(start), x)
    ensures NoDuplicates(start + found) <==> Independent(t, start)
  {
    var s := Elements(start);
    forall x, m: nat | 0 < m && x in LevelBelow(t, s, m) ensures x in found {
      if m >= n { EmptyLevelsStayEmpty(t, s, n, m); }
      assert Collected(t, start, n, x);
    }
    forall x ensures x in start + found <==> x in start || IsBelow(t, s, x) {
      if x in found {
        var m: nat :| 0 < m < n && x in LevelBelow(t, s, m);
        assert AboveOrSelf(t, Up(t, x, m).value, x);
      }
      if IsBelow(t, s, x) {
        var a :| a in s && AboveOrSelf(t, a, x);
        var m: nat :| Up(t, x, m) == Some(a);
        assert m == 0 || x in LevelBelow(t, s, m);
      }
    }
    if NoDuplicates(start + found) {
      SplitNoDuplicates(start, found);
      forall a, b, m: nat | a in start && b in start && b in t && m > 0 ensures Up(t, b, m) != Some(a) {
        assert b !in found && b !in LevelBelow(t, s, m);
      }
    }
  }

  lemma {:induction false} EmptyLevelsStayEmpty(t: Parents, s: set<nat>, n: nat, m: nat)
    requires Closed(t) && LevelBelow(t, s, n) == {} && n <= m
    ensures LevelBelow(t, s, m) == {}
    decreases m - n
  {
    if n < m {
      NextLevelBelow(t, s, n);
      EmptyLevelsStayEmpty(t, s, n + 1, m);
    }
  }

  // ----- above -----

  /** The edges that lead upwards from a visible row. */
  function VisibleEdges(t: Parents, visible: set<nat>): Parents {
    map x | x in t :: if x in visible then t[x] else None
  }

  lemma {:induction false} VisibleUp(t: Parents, visible: set<nat>, x: nat, n: nat)
    ensures Up(VisibleEdges(t, visible), x, n) == None
         || Up(VisibleEdges(t, visible), x, n) == Up(t, x, n)
    decreases n
  {
    if n > 0 && x in t && t[x].Some? { VisibleUp(t, visible, t[x].value, n - 1); }
  }

  lemma VisibleEdgesForest(t: Parents, visible: set<nat>)
    requires IsForest(t)
    ensures IsForest(VisibleEdges(t, visible))
  {
    forall x, n: nat | x in t && n > 0 ensures Up(VisibleEdges(t, visible), x, n) != Some(x) {
      VisibleUp(t, visible, x, n);
    }
  }

  ghost function LevelAbove(t: Parents, start: seq<nat>, n: nat): set<nat> {
    set x | x in start && Up(t, x, n).Some? :: Up(t, x, n).value
  }

  lemma NextLevelAbove(t: Parents, start: seq<nat>, n: nat)
    ensures LevelAbove(t, start, n + 1)
         == set x | x in LevelAbove(t, start, n) && x in t && t[x].Some? :: t[x].value
  {
    forall x | x in start ensures Up(t, x, n + 1) == match Up(t, x, n) case None => None case Some(y) => Up(t, y, 1) {
      UpAdds(t, x, n, 1);
    }
    var above := set x | x in LevelAbove(t, start, n) && x in t && t[x].Some? :: t[x].value;
    forall y | y in LevelAbove(t, start, n + 1) ensures y in above {
      var x :| x in start && Up(t, x, n + 1) == Some(y);
      assert Up(t, x, n).value in LevelAbove(t, start, n);
      assert Up(t, Up(t, x, n).value, 1) == Some(y);
    }
    forall y | y in above ensures y in LevelAbove(t, start, n + 1) {
      var z :| z in LevelAbove(t, start, n) && z in t && t[z] == Some(y);
      var x :| x in start && Up(t, x, n) == Some(z);
      assert Up(t, z, 1) == Some(y);
    }
  }

  ghost predicate IsAbove(t: Parents, start: seq<nat>, a: nat) {
    exists x :: x in start && AboveOrSelf(t, a, x)
  }

  ghost predicate CollectedAbove(t: Parents, start: seq<nat>, n: nat, a: nat) {
    exists m: nat :: m < n && a in LevelAbove(t, start, m)
  }

  /** No row is at or above two of the start rows within `n` steps. */
  ghost predicate Separate(t: Parents, start: seq<nat>, n: nat) {
    forall x, y, i: nat, j: nat
      | x in start && y in start && x != y && i <= n && j <= n && Up(t, x, i).Some? ::
      Up(t, x, i) != Up(t, y, j)
  }

  /** Distinct rows, and no row at or above two of them. */
  ghost predicate Disjoint(t: Parents, start: seq<nat>) {
    && NoDuplicates(start)
    && forall x, y, a: nat | x in start && y in start && x != y && AboveOrSelf(t, a, x) :: !AboveOrSelf(t, a, y)
  }

  /** A parent comes back once for each of its visible children among the codes. */
  method GetAbove(t: Parents, visible: set<nat>, start: seq<nat>) returns (all: seq<nat>)
    requires IsForest(t)
    ensures forall a :: a in all <==> IsAbove(VisibleEdges(t, visible), start, a)
    ensures NoDuplicates(all) <==> Disjoint(VisibleEdges(t, visible), start)
  {
    ghost var v := VisibleEdges(t, visible);
    VisibleEdgesForest(t, visible);
    all := [];
    var codes := start;
    ghost var n: nat := 0;
    assert [] + start == start;
    while |codes| > 0
      invariant Elements(codes) == LevelAbove(v, start, n)
      invariant forall a :: a in all <==> CollectedAbove(v, start, n, a)
      invariant NoDuplicates(all + codes) <==> NoDuplicates(start) && Separate(v, start, n)
      decreases |v| + 1 - n
    {
      LevelsAboveEnd(v, start, n, codes);
      CollectedGrows(v, start, n, all, codes);
      ghost var before := codes;
      all := all + codes;
      var children := Rows(WithVisibleEdge(t, visible, Elements(codes)));
      ParentsOfLevel(t, visible, Elements(codes), children);
      NextLevelAbove(v, start, n);
      codes := ParentsAt(t, children);
      ChildrenOnLevel(t, visible, start, n, before, children);
      SeparateNext(v, start, n, all, children, codes);
      n := n + 1;
    }
    assert all + codes == all;
    forall a ensures a in all <==> IsAbove(v, start, a) {
      if IsAbove(v, start, a) {
        var x :| x in start && AboveOrSelf(v, a, x);
        var m: nat :| Up(v, x, m) == Some(a);
        assert a in LevelAbove(v, start, m);
        if m >= n {
          if Up(v, x, n).Some? { assert Up(v, x, n).value in Elements(codes); }
          UpStaysNone(v, x, n, m);
        }
      }
      if a in all {
        var m: nat :| m < n && a in LevelAbove(v, start, m);
        var x :| x in start && Up(v, x, m) == Some(a);
      }
    }
    SeparateAtEnd(v, start, n, codes);
  }

  /** The rows whose parents come next, once each. */
  ghost predicate LeadsOn(v: Parents, start: seq<nat>, n: nat, children: seq<nat>) {
    && NoDuplicates(children)
    && forall c :: c in children <==> c in v && v[c].Some? && c in LevelAbove(v, start, n)
  }

  lemma ChildrenOnLevel(
      t: Parents, visible: set<nat>, start: seq<nat>, n: nat, codes: seq<nat>, children: seq<nat>)
    requires Elements(codes) == LevelAbove(VisibleEdges(t, visible), start, n)
    requires Lists(children, WithVisibleEdge(t, visible, Elements(codes)))
    ensures LeadsOn(VisibleEdges(t, visible), start, n, children)
    ensures forall c | c in children :: VisibleEdges(t, visible)[c] == t[c]
  {
    ListedMembers(children, WithVisibleEdge(t, visible, Elements(codes)));
  }

  lemma SeparateNext(v: Parents, start: seq<nat>, n: nat, all: seq<nat>, children: seq<nat>, codes: seq<nat>)
    requires IsForest(v) && LeadsOn(v, start, n, children)
    requires |codes| == |children| && forall i | 0 <= i < |codes| :: codes[i] == v[children[i]].value
    requires forall a :: a in all <==> CollectedAbove(v, start, n + 1, a)
    requires Elements(codes) == LevelAbove(v, start, n + 1)
    requires NoDuplicates(all) <==> NoDuplicates(start) && Separate(v, start, n)
    ensures NoDuplicates(all + codes) <==> NoDuplicates(start) && Separate(v, start, n + 1)
  {
    if NoDuplicates(start) && Separate(v, start, n + 1) {
      CodesDistinct(v, start, n, children, codes);
      CodesAreNew(v, start, n, all, codes);
      ConcatNoDuplicates(all, codes);
    }
    if NoDuplicates(all + codes) {
      SplitNoDuplicates(all, codes);
      StillSeparate(v, start, n, all, children, codes);
    }
  }

  lemma CodesDistinct(v: Parents, start: seq<nat>, n: nat, children: seq<nat>, codes: seq<nat>)
    requires LeadsOn(v, start, n, children) && Separate(v, start, n + 1)
    requires |codes| == |children| && forall i | 0 <= i < |codes| :: codes[i] == v[children[i]].value
    ensures NoDuplicates(codes)
  {
    forall i, j | 0 <= i < j < |codes| ensures codes[i] != codes[j] {
      assert children[i] in children && children[j] in children;
      var x :| x in start && Up(v, x, n) == Some(children[i]);
      var y :| y in start && Up(v, y, n) == Some(children[j]);
      UpAdds(v, x, n, 1);
      UpAdds(v, y, n, 1);
      assert Up(v, children[i], 1) == Some(codes[i]) && Up(v, children[j], 1) == Some(codes[j]);
    }
  }

  lemma CodesAreNew(v: Parents, start: seq<nat>, n: nat, all: seq<nat>, codes: seq<nat>)
    requires IsForest(v) && Separate(v, start, n + 1)
    requires forall a :: a in all <==> CollectedAbove(v, start, n + 1, a)
    requires Elements(codes) == LevelAbove(v, start, n + 1)
    ensures forall a | a in codes :: a !in all
  {
    forall a | a in codes ensures a !in all {
      assert a in Elements(codes);
      var x :| x in start && Up(v, x, n + 1) == Some(a);
      if a in all {
        var m: nat :| m < n + 1 && a in LevelAbove(v, start, m);
        var y :| y in start && Up(v, y, m) == Some(a);
        assert x == y;
        NeverTwice(v, x, m, n + 1);
      }
    }
  }

  lemma NeverTwice(v: Parents, x: nat, m: nat, n: nat)
    requires IsForest(v) && m < n && Up(v, x, m).Some?
    ensures Up(v, x, m) != Up(v, x, n)
  {
    UpAdds(v, x, m, n - m);
    var a := Up(v, x, m).value;
    assert a in v ==> Up(v, a, n - m) != Some(a);
  }

  lemma StillSeparate(v: Parents, start: seq<nat>, n: nat, all: seq<nat>, children: seq<nat>, codes: seq<nat>)
    requires LeadsOn(v, start, n, children) && Separate(v, start, n)
    requires |codes| == |children| && forall i | 0 <= i < |codes| :: codes[i] == v[children[i]].value
    requires forall a :: a in all <==> CollectedAbove(v, start, n + 1, a)
    requires Elements(codes) == LevelAbove(v, start, n + 1)
    requires NoDuplicates(codes) && forall a | a in codes :: a !in all
    ensures Separate(v, start, n + 1)
  {
    forall x, y, i: nat, j: nat
      | x in start && y in start && x != y && i <= n + 1 && j <= n + 1 && Up(v, x, i).Some?
      ensures Up(v, x, i) != Up(v, y, j)
    {
      var a := Up(v, x, i).value;
      assert a in LevelAbove(v, start, i);
      if i == n + 1 && j == n + 1 {
        TwoChildren(v, start, n, children, codes, x, y);
      } else if i == n + 1 {
        assert a in Elements(codes) && (Up(v, y, j) == Some(a) ==> a in LevelAbove(v, start, j));
      } else if j == n + 1 && Up(v, y, j).Some? {
        assert CollectedAbove(v, start, n + 1, a);
        assert Up(v, y, j).value in Elements(codes);
      }
    }
  }

  lemma TwoChildren(
      v: Parents, start: seq<nat>, n: nat, children: seq<nat>, codes: seq<nat>, x: nat, y: nat)
    requires LeadsOn(v, start, n, children) && Separate(v, start, n) && NoDuplicates(codes)
    requires |codes| == |children| && forall i | 0 <= i < |codes| :: codes[i] == v[children[i]].value
    requires x in start && y in start && x != y && Up(v, x, n + 1).Some?
    ensures Up(v, x, n + 1) != Up(v, y, n + 1)
  {
    if Up(v, y, n + 1).Some? {
      UpAdds(v, x, n, 1);
      UpAdds(v, y, n, 1);
      var b, c := Up(v, x, n).value, Up(v, y, n).value;
      assert b in children && c in children;
      var i :| 0 <= i < |children| && children[i] == b;
      var j :| 0 <= j < |children| && children[j] == c;
      assert Up(v, b, 1) == Some(codes[i]) && Up(v, c, 1) == Some(codes[j]);
    }
  }

  lemma SeparateAtEnd(v: Parents, start: seq<nat>, n: nat, codes: seq<nat>)
    requires codes == [] && Elements(codes) == LevelAbove(v, start, n)
    ensures NoDuplicates(start) && Separate(v, start, n) <==> Disjoint(v, start)
  {
    forall x | x in start ensures Up(v, x, n) == None {
      if Up(v, x, n).Some? { assert Up(v, x, n).value in Elements(codes); }
    }
    if Separate(v, start, n) {
      forall x, y, a: nat | x in start && y in start && x != y && AboveOrSelf(v, a, x)
        ensures !AboveOrSelf(v, a, y) {
        var i: nat :| Up(v, x, i) == Some(a);
        if i > n { UpStaysNone(v, x, n, i); }
        if AboveOrSelf(v, a, y) {
          var j: nat :| Up(v, y, j) == Some(a);
          if j > n { UpStaysNone(v, y, n, j); }
        }
      }
    }
    if Disjoint(v, start) {
      forall x, y, i: nat, j: nat
        | x in start && y in start && x != y && i <= n && j <= n && Up(v, x, i).Some?
        ensures Up(v, x, i) != Up(v, y, j)
      {
        assert AboveOrSelf(v, Up(v, x, i).value, x);
      }
    }
  }

  function ParentsAt(t: Parents, children: seq<nat>): (r: seq<nat>)
    requires forall x | x in children :: x in t && t[x].Some?
    ensures |r| == |children| && forall i | 0 <= i < |r| :: r[i] == t[children[i]].value
    ensures Elements(r) == set x | x in children :: t[x].value
  {
    var r := seq(|children|, i requires 0 <= i < |children| => t[children[i]].value);
    assert forall x | x in children :: t[x].value in r by {
      forall x | x in children ensures t[x].value in r {
        var i :| 0 <= i < |children| && children[i] == x;
        assert r[i] == t[x].value;
      }
    }
    r
  }

  function WithVisibleEdge(t: Parents, visible: set<nat>, codes: set<nat>): set<nat> {
    set x | x in codes && x in t && x in visible && t[x].Some?
  }

  lemma ParentsOfLevel(t: Parents, visible: set<nat>, codes: set<nat>, children: seq<nat>)
    requires Elements(children) == WithVisibleEdge(t, visible, codes)
    ensures forall x | x in children :: x in t && t[x].Some?
    ensures var v := VisibleEdges(t, visible);
            (set x | x in children :: t[x].value) == set x | x in codes && x in v && v[x].Some? :: v[x].value
  {
    var v := VisibleEdges(t, visible);
    assert forall x | x in children :: x in Elements(children);
    forall x | x in codes && x in v && v[x].Some? ensures x in children && t[x].value == v[x].value {
      assert x in Elements(children);
    }
  }

  lemma LevelsAboveEnd(t: Parents, start: seq<nat>, n: nat, codes: seq<nat>)
    requires IsForest(t) && codes != [] && Elements(codes) == LevelAbove(t, start, n)
    ensures n == 0 || n < |t|
  {
    assert codes[0] in Elements(codes);
    var x :| x in start && Up(t, x, n) == Some(codes[0]);
    if x in t {
      WalkEnds(t, x);
      if n >= |t| { UpStaysNone(t, x, |t|, n); }
    }
  }

  lemma CollectedGrows(t: Parents, start: seq<nat>, n: nat, all: seq<nat>, codes: seq<nat>)
    requires Elements(codes) == LevelAbove(t, start, n)
    requires forall a :: a in all <==> CollectedAbove(t, start, n, a)
    ensures forall a :: a in all + codes <==> CollectedAbove(t, start, n + 1, a)
  {
  }

  /** Below and above are dual: `d` is found below `a` iff `a` is found above `d`. */
  method DualClosures(t: Parents, a: nat, d: nat) returns (below: seq<nat>, above: seq<nat>)
    requires IsForest(t) && a in t && d in t
    ensures d in below <==> a in above
    ensures d in below <==> AboveOrSelf(t, a, d)
  {
    below := GetBelow(t, [a]);
    above := GetAbove(t, t.Keys, [d]);
    assert VisibleEdges(t, t.Keys) == t;
    assert a in [a] && a in Elements([a]);
    if d == a { assert Up(t, a, 0) == Some(a); }
    assert IsAbove(t, [d], a) <==> AboveOrSelf(t, a, d);
  }
}
