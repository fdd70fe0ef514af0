/** What each request on a hierarchy leaves, row by row. */
module HierarchyRequests {
  import opened Common
  import opened Forest
  import opened Hierarchies

  /** All rows are as before, but for one that goes under a root of its organization; that root
      may be new. */
  ghost predicate MovedUnderRoot(s: State, s1: State, row: nat, root: nat)
    requires row in s.nodes
  {
    && root in Roots(s1.nodes, s.nodes[row].org)
    && s1.nodes.Keys == s.nodes.Keys + {root}
    && s1.nodes[row] == s.nodes[row].(parent := Some(root))
    && forall x | x in s.nodes && x != row :: s1.nodes[x] == s.nodes[x]
  }

  /** An update that leaves the parent out changes nothing. The people-group serializer fills
      in the stored parent, so there a parentless group that is no root goes under the root. */
  lemma UpdateWithoutParent(kind: Kind, s: State, row: nat)
    requires Valid(s) && row in s.nodes && (kind == PeopleGroups ==> WithinOrganizations(s.nodes))
    ensures var (s1, error) := Step(kind, s, ChangeParent(row, Absent));
            && error == None
            && if kind == PeopleGroups && s.nodes[row].parent.None? && !s.nodes[row].isRoot
               then exists root :: MovedUnderRoot(s, s1, row, root)
               else s1 == s
  {
    var n := s.nodes[row];
    assert ParentsOf(s.nodes)[row] == n.parent;
    if kind == PeopleGroups && n.parent.None? && !n.isRoot {
      UpdateToNull(kind, s, row);
      assert Step(kind, s, ChangeParent(row, Absent)) == Step(kind, s, ChangeParent(row, Null));
    } else if kind == PeopleGroups && n.parent.Some? {
      NotBelowItself(ParentsOf(s.nodes), row, n.parent.value);
      assert s.nodes[row := n.(parent := n.parent)] == s.nodes;
    } else if kind == PeopleGroups {
      assert s.nodes[row := n.(parent := None)] == s.nodes;
    }
  }

  lemma NotBelowItself(t: Parents, x: nat, p: nat)
    requires Acyclic(t) && x in t && t[x] == Some(p)
    ensures !AboveOrSelf(t, x, p)
  {
    forall n: nat ensures Up(t, p, n) != Some(x) { assert Up(t, x, n + 1) == Up(t, p, n); }
  }

  /** An update to null leaves a root alone and puts every other row under the root of its
      organization. */
  lemma UpdateToNull(kind: Kind, s: State, row: nat)
    requires Valid(s) && row in s.nodes
    ensures var (s1, error) := Step(kind, s, ChangeParent(row, Null));
            && error == None
            && if s.nodes[row].isRoot then s1 == s else exists root :: MovedUnderRoot(s, s1, row, root)
  {
    var n := s.nodes[row];
    if n.isRoot {
      assert s.nodes[row := n.(parent := None)] == s.nodes;
    } else {
      WithRootValid(s, n.org);
      var (s1, root) := WithRoot(s, n.org);
      var s2 := Step(kind, s, ChangeParent(row, Null)).0;
      assert s2.nodes == s1.nodes[row := n.(parent := Some(root))];
      assert root != row && MovedUnderRoot(s, s2, row, root);
    }
  }

  /** An update to a named parent: refused for a root, for a parent of another organization and
      for one that would make a cycle; otherwise that row alone changes. */
  lemma UpdateToParent(kind: Kind, s: State, row: nat, p: nat)
    requires Valid(s) && row in s.nodes && p in s.nodes
    ensures var (s1, error) := Step(kind, s, ChangeParent(row, Parent(p)));
            if s.nodes[row].isRoot then error == Some(RootParent) && s1 == s
            else if s.nodes[p].org != s.nodes[row].org then error == Some(OtherOrganization) && s1 == s
            else if !Acyclic(ParentsOf(s.nodes)[row := Some(p)]) then error == Some(HierarchyLoop) && s1 == s
            else error == None && s1 == s.(nodes := s.nodes[row := s.nodes[row].(parent := Some(p))])
  {
    if !s.nodes[row].isRoot && s.nodes[p].org == s.nodes[row].org { LoopCheckExact(kind, s, row, p); }
  }

  /** The organization whose rows may be the parent of a new row. */
  function Against(kind: Kind, org: nat, named: nat): nat {
    if kind == PeopleGroups then org else named
  }

  /** The row a creation stores: in the organization of the URL, no root, under the parent
      named; without one under the root, or nowhere for a category that leaves it out. */
  ghost predicate Stored(kind: Kind, s1: State, org: nat, named: nat, asked: Asked, row: nat) {
    && row in s1.nodes && s1.nodes[row].org == org && !s1.nodes[row].isRoot
    && match asked
       case Parent(p) => s1.nodes[row].parent == Some(p)
       case Null => s1.nodes[row].parent.Some? && s1.nodes[row].parent.value in Roots(s1.nodes, Against(kind, org, named))
       case Absent =>
         if kind == Categories then s1.nodes[row].parent == None
         else s1.nodes[row].parent.Some? && s1.nodes[row].parent.value in Roots(s1.nodes, Against(kind, org, named))
  }

  /** A creation stores one such row, or none when it is refused, and leaves the others. */
  lemma CreateExact(kind: Kind, s: State, org: nat, named: nat, asked: Asked)
    requires Valid(s)
    ensures var (s1, error) := Step(kind, s, Create(org, named, asked));
            var against := Against(kind, org, named);
            && (forall x | x in s.nodes :: x in s1.nodes && s1.nodes[x] == s.nodes[x])
            && (error == None <==>
                  && org in s.orgs
                  && match asked
                     case Parent(p) => p in s.nodes && s.nodes[p].org == against
                     case Null => against in s.orgs
                     case Absent => kind == Categories || against in s.orgs)
            && (error == None ==>
                  exists row :: row !in s.nodes && Stored(kind, s1, org, named, asked, row)
                    && forall x | x in s1.nodes && x !in s.nodes && x != row :: s1.nodes[x] == Node(against, None, true))
            && (error != None ==> forall x | x in s1.nodes && x !in s.nodes :: s1.nodes[x] == Node(against, None, true))
  {
    hide Valid, WithRoot, Validated, WithinOrganizations, Roots, Stored;
    var against := Against(kind, org, named);
    if (kind == PeopleGroups ==> org in s.orgs) && (asked.Parent? ==> asked.id in s.nodes) {
      match ToValidate(kind, None, asked)
      case None =>
        PlacedRow(kind, s, org, named, asked, s, None);
      case Some(value) =>
        ValidatedNew(s, against, value);
        var (s1, verdict) := Validated(s, None, against, value);
        if verdict.Ok? { PlacedRow(kind, s, org, named, asked, s1, verdict.value); }
    }
  }

  /** What validation does for a new row: it may create the root, and changes no row. */
  lemma ValidatedNew(s: State, against: nat, value: Option<nat>)
    requires Valid(s) && (value.Some? ==> value.value in s.nodes)
    ensures var (s1, verdict) := Validated(s, None, against, value);
            && Valid(s1) && s1.orgs == s.orgs && RowsKept(s, s1, against)
            && (verdict.Ok? <==> if value.Some? then s.nodes[value.value].org == against else against in s.orgs)
            && (verdict.Ok? ==>
                  if value.Some? then verdict.value == value
                  else verdict.value.Some? && verdict.value.value in Roots(s1.nodes, against))
  {
    if value.None? && against in s.orgs { WithRootValid(s, against); }
  }

  /** The rows of `s` as they were, and at most roots of one organization besides. */
  ghost predicate RowsKept(s: State, s1: State, against: nat) {
    && (forall x | x in s.nodes :: x in s1.nodes && s1.nodes[x] == s.nodes[x])
    && (forall x | x in s1.nodes && x !in s.nodes :: s1.nodes[x] == Node(against, None, true))
  }

  lemma PlacedRow(
      kind: Kind, s: State, org: nat, named: nat, asked: Asked, s1: State, parent: Option<nat>)
    requires Valid(s1) && s1.orgs == s.orgs && RowsKept(s, s1, Against(kind, org, named))
    requires match asked
             case Parent(p) => parent == Some(p)
             case Null => parent.Some? && parent.value in Roots(s1.nodes, Against(kind, org, named))
             case Absent =>
               if kind == Categories then parent == None
               else parent.Some? && parent.value in Roots(s1.nodes, Against(kind, org, named))
    ensures var (s2, error) := Placed(s1, org, parent);
            && (forall x | x in s.nodes :: x in s2.nodes && s2.nodes[x] == s.nodes[x])
            && (error == None <==> org in s.orgs)
            && (error == None ==>
                  exists row :: row !in s.nodes && Stored(kind, s2, org, named, asked, row)
                    && forall x | x in s2.nodes && x !in s.nodes && x != row ::
                         s2.nodes[x] == Node(Against(kind, org, named), None, true))
            && (error != None ==> s2 == s1)
  {
    NewRow(s1, Node(org, parent, false));
    if org in s.orgs {
      var s2 := Placed(s1, org, parent).0;
      assert s1.nextId !in s.nodes && Stored(kind, s2, org, named, asked, s1.nextId);
    }
  }

  lemma NewRow(s: State, n: Node)
    requires Known(s)
    ensures s.nextId !in s.nodes && Inserted(s, n).nodes == s.nodes[s.nextId := n] && Inserted(s, n).nextId == s.nextId + 1
  {
  }

  lemma ChangeKeepsOthers(kind: Kind, s: State, row: nat, asked: Asked, x: nat)
    requires Valid(s) && row in s.nodes && x in s.nodes
    ensures var s1 := Step(kind, s, ChangeParent(row, asked)).0;
            && x in s1.nodes && s1.nodes[x].(parent := s.nodes[x].parent) == s.nodes[x]
            && (x != row ==> s1.nodes[x] == s.nodes[x])
  {
    ParentInside(s, row);
    hide Valid, Validated;
    if asked.Parent? ==> asked.id in s.nodes {
      match ToValidate(kind, s.nodes[row].parent, asked)
      case None =>
      case Some(value) => ValidatedKeepsRows(s, row, value);
    }
  }

  lemma ValidatedKeepsRows(s: State, row: nat, value: Option<nat>)
    requires Valid(s) && row in s.nodes && (value.Some? ==> value.value in s.nodes)
    ensures var s1 := Validated(s, Some(row), s.nodes[row].org, value).0;
            forall x | x in s.nodes :: x in s1.nodes && s1.nodes[x] == s.nodes[x]
  {
    WithRootValid(s, s.nodes[row].org);
    hide Valid, WithRoot, AboveOrSelf;
  }

  /** A deletion takes its own row and no other, and hands each child to the deleted row's
      parent, or to none in the case of categories. */
  lemma DeleteExact(kind: Kind, s: State, row: nat)
    requires Valid(s)
    ensures var (s1, error) := Step(kind, s, Delete(row));
            if row !in s.nodes then s1 == s && error == Some(NoSuchRow)
            else
              && error == None && s1.nodes.Keys == s.nodes.Keys - {row} && s1.orgs == s.orgs
              && (forall x | x in s1.nodes :: s1.nodes[x].(parent := s.nodes[x].parent) == s.nodes[x])
              && forall x | x in s1.nodes :: s1.nodes[x].parent ==
                   if s.nodes[x].parent != Some(row) then s.nodes[x].parent
                   else if kind == PeopleGroups then s.nodes[row].parent else None
  {
  }

  /** A new organization gets the root of its people groups, and no row changes. */
  lemma AddOrganizationExact(kind: Kind, s: State, org: nat)
    requires Valid(s)
    ensures var (s1, error) := Step(kind, s, AddOrganization(org));
            && error == None && s1.orgs == s.orgs + {org}
            && (forall x | x in s.nodes :: x in s1.nodes && s1.nodes[x] == s.nodes[x])
            && (forall x | x in s1.nodes && x !in s.nodes :: kind == PeopleGroups && s1.nodes[x] == Node(org, None, true))
            && (kind == PeopleGroups ==> exists root :: Roots(s1.nodes, org) == {root})
  {
    var s0 := s.(orgs := s.orgs + {org});
    WithRootValid(s0, org);
    if kind == PeopleGroups {
      var (s1, root) := WithRoot(s0, org);
      assert Roots(s1.nodes, org) == {root};
    }
  }

  /** No request changes the organization of a row or makes it a root, and only an update of
      the row itself or the deletion of its parent changes the parent. */
  lemma OthersKept(kind: Kind, s: State, op: Op, x: nat)
    requires Valid(s) && x in s.nodes && x in Step(kind, s, op).0.nodes
    ensures var n := Step(kind, s, op).0.nodes[x];
            && n.(parent := s.nodes[x].parent) == s.nodes[x]
            && (n.parent != s.nodes[x].parent ==>
                  || (op.ChangeParent? && op.row == x)
                  || (op.Delete? && s.nodes[x].parent == Some(op.row)))
  {
    match op
    case AddOrganization(org) => AddOrganizationExact(kind, s, org);
    case Create(org, named, asked) => CreateExact(kind, s, org, named, asked);
    case ChangeParent(row, asked) =>
      if row in s.nodes { ChangeKeepsOthers(kind, s, row, asked, x); }
    case Delete(row) => DeleteExact(kind, s, row);
  }
}
