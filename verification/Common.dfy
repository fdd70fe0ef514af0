/** Small vocabulary shared by the other modules. */
module Common {

  datatype Option<+T> = None | Some(value: T)

  datatype Result<+T, +E> = Ok(value: T) | Err(error: E)

  ghost predicate NoDuplicates<T>(xs: seq<T>) {
    forall i, j | 0 <= i < j < |xs| :: xs[i] != xs[j]
  }

  function Elements<T>(xs: seq<T>): set<T> {
    set x | x in xs
  }

  /** `xs` lists the members of `s`, each once, in some order: the rows of a query
      that promises no ordering. */
  ghost predicate Lists<T>(xs: seq<T>, s: set<T>) {
    NoDuplicates(xs) && Elements(xs) == s
  }

  lemma ListedMembers<T>(xs: seq<T>, s: set<T>)
    requires Lists(xs, s)
    ensures forall x :: x in xs <==> x in s
    ensures xs[..|xs|] == xs
  {
    assert forall x :: x in xs <==> x in Elements(xs);
  }

  /** The `i`-th row of a listing comes after other rows only. */
  lemma ListedNext<T>(xs: seq<T>, s: set<T>, i: nat)
    requires Lists(xs, s) && i < |xs|
    ensures xs[i] in s && xs[i] !in xs[..i] && xs[..i + 1] == xs[..i] + [xs[i]]
  {
    assert xs[i] in Elements(xs);
  }

  lemma ConcatNoDuplicates<T>(xs: seq<T>, ys: seq<T>)
    requires NoDuplicates(xs) && NoDuplicates(ys) && forall x | x in xs :: x !in ys
    ensures NoDuplicates(xs + ys)
  {
    var zs := xs + ys;
    forall i, j | 0 <= i < j < |zs| ensures zs[i] != zs[j] {
      if i < |xs| <= j { assert zs[i] in xs && zs[j] in ys; }
    }
  }

  lemma SplitNoDuplicates<T>(xs: seq<T>, ys: seq<T>)
    requires NoDuplicates(xs + ys)
    ensures NoDuplicates(xs) && NoDuplicates(ys) && forall x | x in xs :: x !in ys
  {
    forall i, j | 0 <= i < j < |xs| ensures xs[i] != xs[j] {
      assert (xs + ys)[i] != (xs + ys)[j];
    }
    forall i, j | 0 <= i < j < |ys| ensures ys[i] != ys[j] {
      assert (xs + ys)[|xs| + i] != (xs + ys)[|xs| + j];
    }
    forall i, j | 0 <= i < |xs| && 0 <= j < |ys| ensures xs[i] != ys[j] {
      assert (xs + ys)[i] != (xs + ys)[|xs| + j];
    }
  }

  /** Pigeonhole: pairwise distinct members of a finite set are at most as many as the set. */
  lemma {:induction false} DistinctFit<T>(xs: seq<T>, s: set<T>)
    requires NoDuplicates(xs)
    requires forall x | x in xs :: x in s
    ensures |xs| <= |s|
  {
    if xs != [] {
      var rest := xs[..|xs| - 1];
      forall x | x in rest ensures x in s - {xs[|xs| - 1]} {
      }
      DistinctFit(rest, s - {xs[|xs| - 1]});
    }
  }

  lemma {:induction false} ListingSize<T>(xs: seq<T>, s: set<T>)
    requires Lists(xs, s)
    ensures |xs| == |s|
  {
    if xs == [] {
      assert s == {};
    } else {
      var rest, last := xs[..|xs| - 1], xs[|xs| - 1];
      assert xs == rest + [last];
      assert Elements(rest) == s - {last};
      ListingSize(rest, s - {last});
    }
  }

  /** Every finite set has a listing. */
  lemma {:induction false} ListingExists<T>(s: set<T>)
    ensures exists xs: seq<T> :: Lists(xs, s)
  {
    if s == {} {
      var none: seq<T> := [];
      assert Lists(none, s);
    } else {
      var x :| x in s;
      ListingExists(s - {x});
      var rest: seq<T> :| Lists(rest, s - {x});
      var xs := rest + [x];
      assert Elements(rest) == s - {x};
      assert forall y | y in s :: y in Elements(rest) || y == xs[|rest|];
      assert forall y | y in xs :: y in Elements(rest) || y == x;
      assert Lists(xs, s);
    }
  }

  /** The rows of a query, in whatever order the database returns them. */
  method Rows<T(==)>(s: set<T>) returns (rows: seq<T>)
    ensures Lists(rows, s)
  {
    rows := [];
    var rest := s;
    while rest != {}
      invariant rest <= s && Lists(rows, s - rest)
      decreases |rest|
    {
      var x :| x in rest;
      assert forall y | y in rows :: y in Elements(rows);
      assert Elements(rows + [x]) == Elements(rows) + {x};
      rows := rows + [x];
      rest := rest - {x};
      assert s - rest == Elements(rows);
    }
    assert s - rest == s;
  }
}
