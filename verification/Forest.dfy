/** Parent relations: walks to the root, cycles, re-parenting and removal. */
module Forest {
  import opened Common

  /** Each row's parent, if it has one. */
  type Parents = map<nat, Option<nat>>

  /** What a request says about a parent. */
  datatype Asked = Absent | Null | Parent(id: nat)

  /** The row `n` steps above `x`. */
  function Up(t: Parents, x: nat, n: nat): Option<nat>
    decreases n
  {
    if n == 0 then Some(x)
    else if x in t && t[x].Some? then Up(t, t[x].value, n - 1)
    else None
  }

  ghost predicate Closed(t: Parents) {
    forall x | x in t && t[x].Some? :: t[x].value in t
  }

  /** No row is above itself. */
  ghost predicate Acyclic(t: Parents) {
    forall x, n: nat | x in t && n > 0 :: Up(t, x, n) != Some(x)
  }

  ghost predicate IsForest(t: Parents) {
    Closed(t) && Acyclic(t)
  }

  ghost predicate AboveOrSelf(t: Parents, a: nat, x: nat) {
    exists n: nat :: Up(t, x, n) == Some(a)
  }

  lemma {:induction false} UpAdds(t: Parents, x: nat, m: nat, n: nat)
    ensures Up(t, x, m + n) == match Up(t, x, m) case None => None case Some(y) => Up(t, y, n)
    decreases m
  {
    if m > 0 && x in t && t[x].Some? {
      UpAdds(t, t[x].value, m - 1, n);
    }
  }

  lemma UpStaysNone(t: Parents, x: nat, m: nat, n: nat)
    requires m <= n && Up(t, x, m) == None
    ensures Up(t, x, n) == None
  {
    UpAdds(t, x, m, n - m);
  }

  lemma {:induction false} UpStaysInside(t: Parents, x: nat, n: nat)
    requires Closed(t) && x in t && Up(t, x, n).Some?
    ensures Up(t, x, n).value in t
    decreases n
  {
    if n > 0 {
      UpStaysInside(t, t[x].value, n - 1);
    }
  }

  /** Pigeonhole: a walk without repetition leaves a finite table. */
  lemma WalkEnds(t: Parents, x: nat)
    requires IsForest(t) && x in t
    ensures Up(t, x, |t|) == None
  {
    if Up(t, x, |t|).Some? {
      var n := |t|;
      forall i: nat | i <= n ensures Up(t, x, i).Some? && Up(t, x, i).value in t {
        if Up(t, x, i).None? { UpStaysNone(t, x, i, n); }
        UpStaysInside(t, x, i);
      }
      var walk := seq(n + 1, i requires 0 <= i <= n => Up(t, x, i).value);
      forall i, j | 0 <= i < j <= n ensures walk[i] != walk[j] {
        UpAdds(t, x, i, j - i);
      }
      DistinctFit(walk, t.Keys);
    }
  }

  lemma {:induction false} LastLevel(t: Parents, x: nat, n: nat)
    requires Up(t, x, n) == None
    ensures exists m: nat :: m < n && Up(t, x, m).Some? && Up(t, x, m + 1) == None
  {
    var m: nat := n - 1;
    if Up(t, x, m).None? {
      LastLevel(t, x, m);
    } else {
      assert Up(t, x, m + 1) == None;
    }
  }

  /** How many rows are above `x`. */
  ghost function Level(t: Parents, x: nat): (n: nat)
    requires IsForest(t) && x in t
    ensures Up(t, x, n).Some? && Up(t, x, n + 1) == None && n < |t|
  {
    WalkEnds(t, x);
    LastLevel(t, x, |t|);
    var n: nat :| Up(t, x, n).Some? && Up(t, x, n + 1) == None && n < |t|;
    n
  }

  lemma LevelIs(t: Parents, x: nat, n: nat)
    requires IsForest(t) && x in t && Up(t, x, n).Some? && Up(t, x, n + 1) == None
    ensures Level(t, x) == n
  {
    if n + 1 <= Level(t, x) { UpStaysNone(t, x, n + 1, Level(t, x)); }
    if Level(t, x) + 1 <= n { UpStaysNone(t, x, Level(t, x) + 1, n); }
  }

  lemma ParentLevel(t: Parents, x: nat)
    requires IsForest(t) && x in t && t[x].Some?
    ensures Level(t, x) == Level(t, t[x].value) + 1
  {
    LevelIs(t, x, Level(t, t[x].value) + 1);
  }

  /** The rows above `x`, nearest first. */
  ghost function Chain(t: Parents, x: nat): (c: seq<nat>)
    requires IsForest(t) && x in t
    ensures |c| == Level(t, x)
    decreases Level(t, x)
  {
    if t[x].None? then LevelIs(t, x, 0); []
    else ParentLevel(t, x); [t[x].value] + Chain(t, t[x].value)
  }

  lemma {:induction false} ChainIsUp(t: Parents, x: nat, i: nat)
    requires IsForest(t) && x in t
    ensures i < |Chain(t, x)| ==> Up(t, x, i + 1) == Some(Chain(t, x)[i])
    ensures i >= |Chain(t, x)| ==> Up(t, x, i + 1) == None
    decreases i
  {
    if i >= |Chain(t, x)| {
      UpStaysNone(t, x, Level(t, x) + 1, i + 1);
    } else if i > 0 {
      ChainIsUp(t, t[x].value, i - 1);
    }
  }

  // ----- walks that end -----

  ghost predicate Ends(t: Parents, x: nat) {
    exists n: nat :: Up(t, x, n) == None
  }

  lemma EndsAbove(t: Parents, x: nat)
    requires x in t && (t[x].None? || Ends(t, t[x].value))
    ensures Ends(t, x)
  {
    if t[x].None? {
      assert Up(t, x, 1) == None;
    } else {
      var n: nat :| Up(t, t[x].value, n) == None;
      assert Up(t, x, n + 1) == None;
    }
  }

  lemma {:induction false} LapsGoOn(t: Parents, x: nat, n: nat, laps: nat)
    requires n > 0 && Up(t, x, n) == Some(x)
    ensures Up(t, x, laps * n) == Some(x) && laps * n >= laps
  {
    if laps > 0 {
      LapsGoOn(t, x, n, laps - 1);
      UpAdds(t, x, (laps - 1) * n, n);
      assert (laps - 1) * n + n == laps * n;
    }
  }

  lemma EndingWalksAcyclic(t: Parents)
    requires forall x | x in t :: Ends(t, x)
    ensures Acyclic(t)
  {
    forall x, n: nat | x in t && n > 0 ensures Up(t, x, n) != Some(x) {
      if Up(t, x, n) == Some(x) {
        var end: nat :| Up(t, x, end) == None;
        LapsGoOn(t, x, n, end);
        UpStaysNone(t, x, end, end * n);
      }
    }
  }

  // ----- re-parenting -----

  lemma {:induction false} SameWalk(t: Parents, x: nat, p: Option<nat>, y: nat, n: nat)
    requires forall m: nat | m < n :: Up(t, y, m) != Some(x)
    ensures Up(t[x := p], y, n) == Up(t, y, n)
    decreases n
  {
    if n > 0 {
      assert Up(t, y, 0) != Some(x);
      if y in t && t[y].Some? {
        forall m: nat | m < n - 1 ensures Up(t, t[y].value, m) != Some(x) {
          assert Up(t, y, m + 1) != Some(x);
        }
        SameWalk(t, x, p, t[y].value, n - 1);
      }
    }
  }

  lemma {:induction false} ReparentedWalkEnds(t: Parents, x: nat, p: Option<nat>, y: nat)
    requires IsForest(t) && x in t && y in t && Ends(t[x := p], x)
    ensures Ends(t[x := p], y)
    decreases Level(t, y)
  {
    if y != x {
      if t[y].Some? {
        ParentLevel(t, y);
        ReparentedWalkEnds(t, x, p, t[y].value);
      }
      EndsAbove(t[x := p], y);
    }
  }

  /** Re-parenting `x` keeps a forest unless `x` is the new parent or above it. */
  lemma ReparentKeepsForest(t: Parents, x: nat, p: Option<nat>)
    requires IsForest(t) && x in t && (p.Some? ==> p.value in t && !AboveOrSelf(t, x, p.value))
    ensures IsForest(t[x := p])
  {
    var t' := t[x := p];
    if p.Some? {
      WalkEnds(t, p.value);
      SameWalk(t, x, p, p.value, |t|);
      assert Up(t', p.value, |t|) == None;
    }
    EndsAbove(t', x);
    forall y | y in t' ensures Ends(t', y) {
      ReparentedWalkEnds(t, x, p, y);
    }
    EndingWalksAcyclic(t');
  }

  /** Otherwise it makes a cycle. */
  lemma ReparentMakesCycle(t: Parents, x: nat, p: nat)
    requires IsForest(t) && x in t && p in t && AboveOrSelf(t, x, p)
    ensures !Acyclic(t[x := Some(p)])
  {
    var n: nat :| Up(t, p, n) == Some(x);
    forall m: nat | m < n ensures Up(t, p, m) != Some(x) {
      UpAdds(t, p, m, n - m);
    }
    SameWalk(t, x, Some(p), p, n);
    assert Up(t[x := Some(p)], x, n + 1) == Some(x);
  }

  lemma NewRowKeepsForest(t: Parents, x: nat, p: Option<nat>)
    requires IsForest(t) && x !in t && (p.Some? ==> p.value in t)
    ensures IsForest(t[x := p])
    ensures forall y | y in t :: Chain(t[x := p], y) == Chain(t, y)
  {
    var t' := t[x := p];
    forall y | y in t ensures Up(t', y, |t|) == None {
      WalkEnds(t, y);
      forall m: nat | m < |t| ensures Up(t, y, m) != Some(x) {
        if Up(t, y, m).Some? { UpStaysInside(t, y, m); }
      }
      SameWalk(t, x, p, y, |t|);
    }
    assert p.Some? ==> Up(t', x, |t| + 1) == None;
    assert p.None? ==> Up(t', x, 1) == None;
    EndingWalksAcyclic(t');
    forall y | y in t ensures Chain(t', y) == Chain(t, y) { NewRowKeepsChain(t, x, p, y); }
  }

  lemma {:induction false} NewRowKeepsChain(t: Parents, x: nat, p: Option<nat>, y: nat)
    requires IsForest(t) && x !in t && y in t && IsForest(t[x := p])
    ensures Chain(t[x := p], y) == Chain(t, y)
    decreases Level(t, y)
  {
    if t[y].Some? {
      ParentLevel(t, y);
      NewRowKeepsChain(t, x, p, t[y].value);
    }
  }

  // ----- removal -----

  /** Removal that hands the children over to the removed row's parent. */
  function Spliced(t: Parents, x: nat): Parents
    requires x in t
  {
    map y | y in t && y != x :: if t[y] == Some(x) then t[x] else t[y]
  }

  /** Removal that leaves the children without a parent. */
  function Detached(t: Parents, x: nat): Parents {
    map y | y in t && y != x :: if t[y] == Some(x) then None else t[y]
  }

  function Without(c: seq<nat>, x: nat): seq<nat> {
    if c == [] then [] else (if c[0] == x then [] else [c[0]]) + Without(c[1..], x)
  }

  function Until(c: seq<nat>, x: nat): seq<nat> {
    if c == [] || c[0] == x then [] else [c[0]] + Until(c[1..], x)
  }

  lemma NotOwnParent(t: Parents, x: nat)
    requires Acyclic(t) && x in t
    ensures t[x] != Some(x)
  {
    if t[x] == Some(x) { assert Up(t, x, 1) == Some(x); }
  }

  lemma {:induction false} SplicedWalkEnds(t: Parents, x: nat, y: nat)
    requires IsForest(t) && x in t && y in t && y != x
    ensures Ends(Spliced(t, x), y)
    decreases Level(t, y)
  {
    var t' := Spliced(t, x);
    NotOwnParent(t, x);
    if t[y].Some? { ParentLevel(t, y); }
    if t[x].Some? { ParentLevel(t, x); }
    if t'[y].Some? { SplicedWalkEnds(t, x, t'[y].value); }
    EndsAbove(t', y);
  }

  lemma SplicedIsForest(t: Parents, x: nat)
    requires IsForest(t) && x in t
    ensures IsForest(Spliced(t, x))
  {
    NotOwnParent(t, x);
    forall y | y in Spliced(t, x) ensures Ends(Spliced(t, x), y) { SplicedWalkEnds(t, x, y); }
    EndingWalksAcyclic(Spliced(t, x));
  }

  lemma {:induction false} ChainAvoidsSelf(t: Parents, x: nat, y: nat)
    requires IsForest(t) && y in t && x in t && (x == y || AboveOrSelf(t, y, x))
    ensures x !in Chain(t, y)
  {
    if x in Chain(t, y) {
      var i: nat :| i < |Chain(t, y)| && Chain(t, y)[i] == x;
      ChainIsUp(t, y, i);
      var n: nat :| Up(t, x, n) == Some(y);
      UpAdds(t, y, i + 1, n);
    }
  }

  lemma {:induction false} WithoutAbsent(c: seq<nat>, x: nat)
    requires x !in c
    ensures Without(c, x) == c
  {
    if c != [] { WithoutAbsent(c[1..], x); }
  }

  /** Splicing keeps every remaining row's ancestors, in order, except the removed one. */
  lemma {:induction false} SplicedChain(t: Parents, x: nat, y: nat)
    requires IsForest(t) && x in t && y in t && y != x && IsForest(Spliced(t, x))
    ensures Chain(Spliced(t, x), y) == Without(Chain(t, y), x)
    decreases Level(t, y)
  {
    var t' := Spliced(t, x);
    if t[y] == Some(x) {
      ParentLevel(t, y);
      ParentOfRemoved(t, x);
      if t[x].Some? {
        ParentLevel(t, x);
        SplicedChain(t, x, t[x].value);
        WithoutAbsent(Chain(t, x), x);
        WithoutAbsent(Chain(t, t[x].value), x);
      }
    } else if t[y].Some? {
      ParentLevel(t, y);
      SplicedChain(t, x, t[y].value);
    }
  }

  lemma ParentOfRemoved(t: Parents, x: nat)
    requires IsForest(t) && x in t
    ensures x !in Chain(t, x)
    ensures t[x].Some? ==> t[x].value != x && x !in Chain(t, t[x].value)
  {
    NotOwnParent(t, x);
    assert Up(t, x, 0) == Some(x);
    ChainAvoidsSelf(t, x, x);
  }

  lemma {:induction false} DetachedWalkEnds(t: Parents, x: nat, y: nat)
    requires IsForest(t) && y in t && y != x
    ensures Ends(Detached(t, x), y)
    decreases Level(t, y)
  {
    if t[y].Some? && t[y].value != x {
      ParentLevel(t, y);
      DetachedWalkEnds(t, x, t[y].value);
    }
    EndsAbove(Detached(t, x), y);
  }

  lemma DetachedIsForest(t: Parents, x: nat)
    requires IsForest(t)
    ensures IsForest(Detached(t, x))
  {
    forall y | y in Detached(t, x) ensures Ends(Detached(t, x), y) { DetachedWalkEnds(t, x, y); }
    EndingWalksAcyclic(Detached(t, x));
  }

  /** Detaching cuts every remaining chain at the removed row. */
  lemma {:induction false} DetachedChain(t: Parents, x: nat, y: nat)
    requires IsForest(t) && y in t && y != x && IsForest(Detached(t, x))
    ensures Chain(Detached(t, x), y) == Until(Chain(t, y), x)
    decreases Level(t, y)
  {
    if t[y].Some? && t[y].value != x {
      ParentLevel(t, y);
      DetachedChain(t, x, t[y].value);
    }
  }
}
