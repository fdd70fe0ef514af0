/** People groups and project categories: one tree per organization, changed by requests. */
module Hierarchies {
  import opened Common
  import opened Forest

  /** The two models share their validation; they differ in what creates a root and in what
      happens to the children of a deleted row. */
  datatype Kind = PeopleGroups | Categories

  datatype Node = Node(org: nat, parent: Option<nat>, isRoot: bool)

  datatype State = State(nodes: map<nat, Node>, nextId: nat, orgs: set<nat>)

  datatype Error =
    | NoSuchRow | NoSuchParent | NoSuchOrganization
    | RootParent | OtherOrganization | HierarchyLoop

  function ParentsOf(nodes: map<nat, Node>): Parents {
    map x | x in nodes :: nodes[x].parent
  }

  function Roots(nodes: map<nat, Node>, org: nat): set<nat> {
    set x | x in nodes && nodes[x].isRoot && nodes[x].org == org
  }

  /** Every row is in the organization of its parent. */
  ghost predicate WithinOrganizations(nodes: map<nat, Node>) {
    forall x | x in nodes && nodes[x].parent.Some? ::
      nodes[x].parent.value in nodes && nodes[nodes[x].parent.value].org == nodes[x].org
  }

  ghost predicate RootsOnTop(nodes: map<nat, Node>) {
    && (forall x | x in nodes && nodes[x].isRoot :: nodes[x].parent.None?)
    && (forall x, y | x in nodes && y in nodes && nodes[x].isRoot && nodes[y].isRoot
          && nodes[x].org == nodes[y].org :: x == y)
  }

  ghost predicate Known(s: State) {
    forall x | x in s.nodes :: x < s.nextId && s.nodes[x].org in s.orgs
  }

  /** Acyclic, at most one root for each organization, and no parent for roots. */
  ghost predicate Valid(s: State) {
    && IsForest(ParentsOf(s.nodes))
    && RootsOnTop(s.nodes)
    && Known(s)
  }

  // ----- what each request does -----

  function Inserted(s: State, n: Node): State {
    s.(nodes := s.nodes[s.nextId := n], nextId := s.nextId + 1)
  }

  /** `update_or_create_root`: the state with the root in place, and the root. */
  ghost function WithRoot(s: State, org: nat): (r: (State, nat))
  {
    if Roots(s.nodes, org) == {} then (Inserted(s, Node(org, None, true)), s.nextId)
    else var x :| x in Roots(s.nodes, org); (s, x)
  }

  ghost predicate NeedsRoot(s: State, row: Option<nat>, value: Option<nat>)
    requires row.Some? ==> row.value in s.nodes
  {
    value.None? && (row.Some? ==> !s.nodes[row.value].isRoot)
  }

  /** `validate_parent` for a new row (`None`) or an existing one. The root it may have to
      create stays, whatever the verdict. */
  ghost function Validated(s: State, row: Option<nat>, org: nat, value: Option<nat>)
    : (State, Result<Option<nat>, Error>)
    requires Valid(s) && (value.Some? ==> value.value in s.nodes)
    requires row.Some? ==> row.value in s.nodes
  {
    if NeedsRoot(s, row, value) then
      if org !in s.orgs then (s, Err(NoSuchOrganization))
      else (WithRoot(s, org).0, Ok(Some(WithRoot(s, org).1)))
    else if value.None? then (s, Ok(None))
    else if row.Some? && s.nodes[row.value].isRoot then (s, Err(RootParent))
    else if s.nodes[value.value].org != org then (s, Err(OtherOrganization))
    else if row.Some? && AboveOrSelf(ParentsOf(s.nodes), row.value, value.value) then (s, Err(HierarchyLoop))
    else (s, Ok(value))
  }

  /** The value that `validate_parent` receives, if it is called: the people-group serializer
      fills in a missing parent with the current one, the category serializer leaves it out. */
  function ToValidate(kind: Kind, current: Option<nat>, asked: Asked): Option<Option<nat>> {
    match asked
    case Null => Some(None)
    case Parent(id) => Some(Some(id))
    case Absent => if kind == PeopleGroups then Some(current) else None
  }

  /** A new category goes to the organization of the URL, but its parent is validated against
      the one named in the body; people groups have the former copied over the latter. */
  datatype Op =
    | AddOrganization(org: nat)
    | Create(org: nat, named: nat, asked: Asked)
    | ChangeParent(row: nat, asked: Asked)
    | Delete(row: nat)

  function Placed(s: State, org: nat, parent: Option<nat>): (State, Option<Error>) {
    if org in s.orgs then (Inserted(s, Node(org, parent, false)), None) else (s, Some(NoSuchOrganization))
  }

  ghost function Step(kind: Kind, s: State, op: Op): (r: (State, Option<Error>))
    requires Valid(s)
  {
    match op
    case AddOrganization(org) =>
      var s1 := s.(orgs := s.orgs + {org});
      (if kind == PeopleGroups then WithRoot(s1, org).0 else s1, None)
    case Create(org, named, asked) =>
      if kind == PeopleGroups && org !in s.orgs then (s, Some(NoSuchOrganization))
      else if asked.Parent? && asked.id !in s.nodes then (s, Some(NoSuchParent))
      else
        (match ToValidate(kind, None, asked)
         case None => Placed(s, org, None)
         case Some(value) =>
           var (s1, verdict) := Validated(s, None, if kind == PeopleGroups then org else named, value);
           if verdict.Err? then (s1, Some(verdict.error)) else Placed(s1, org, verdict.value))
    case ChangeParent(row, asked) =>
      if row !in s.nodes then (s, Some(NoSuchRow))
      else if asked.Parent? && asked.id !in s.nodes then (s, Some(NoSuchParent))
      else
        assert ParentsOf(s.nodes)[row] == s.nodes[row].parent;
        (match ToValidate(kind, s.nodes[row].parent, asked)
         case None => (s, None)
         case Some(value) =>
           var (s1, verdict) := Validated(s, Some(row), s.nodes[row].org, value);
           if verdict.Err? then (s1, Some(verdict.error))
           else (s1.(nodes := s1.nodes[row := s.nodes[row].(parent := verdict.value)]), None))
    case Delete(row) =>
      if row !in s.nodes then (s, Some(NoSuchRow))
      else (s.(nodes := Deleted(kind, s.nodes, row)), None)
  }

  /** Deleting a people group first hands its children to its own parent; deleting a category
      sets their parent to null. */
  function Deleted(kind: Kind, nodes: map<nat, Node>, row: nat): map<nat, Node>
    requires row in nodes
  {
    map x | x in nodes && x != row ::
      if nodes[x].parent == Some(row) then
        nodes[x].(parent := if kind == PeopleGroups then nodes[row].parent else None)
      else nodes[x]
  }

  ghost function Run(kind: Kind, s: State, ops: seq<Op>): (r: State)
    requires Valid(s)
    ensures Valid(r)
    decreases |ops|
  {
    if ops == [] then s
    else StepValid(kind, s, ops[0]); Run(kind, Step(kind, s, ops[0]).0, ops[1..])
  }

  // ----- every step keeps the forest -----

  lemma ParentsAfterSet(nodes: map<nat, Node>, x: nat, n: Node)
    ensures ParentsOf(nodes[x := n]) == ParentsOf(nodes)[x := n.parent]
  {
  }

  lemma ParentsAfterDelete(kind: Kind, nodes: map<nat, Node>, row: nat)
    requires row in nodes
    ensures ParentsOf(Deleted(kind, nodes, row)) ==
              if kind == PeopleGroups then Spliced(ParentsOf(nodes), row)
              else Detached(ParentsOf(nodes), row)
  {
  }

  lemma RootsAfterInsert(nodes: map<nat, Node>, x: nat, n: Node)
    requires RootsOnTop(nodes) && x !in nodes
    requires n.isRoot ==> n.parent.None? && Roots(nodes, n.org) == {}
    ensures RootsOnTop(nodes[x := n])
  {
    if n.isRoot {
      forall y | y in nodes && nodes[y].isRoot ensures nodes[y].org != n.org {
        assert y !in Roots(nodes, n.org);
      }
    }
  }

  lemma WithinAfterInsert(nodes: map<nat, Node>, x: nat, n: Node)
    requires WithinOrganizations(nodes) && x !in nodes
    requires n.parent.Some? ==> n.parent.value in nodes && nodes[n.parent.value].org == n.org
    ensures WithinOrganizations(nodes[x := n])
  {
  }

  lemma InsertedValid(s: State, n: Node)
    requires Valid(s) && n.org in s.orgs && (n.parent.Some? ==> n.parent.value in s.nodes)
    requires n.isRoot ==> n.parent.None? && Roots(s.nodes, n.org) == {}
    ensures Valid(Inserted(s, n))
  {
    hide IsForest, RootsOnTop, ParentsOf;
    assert s.nextId !in s.nodes;
    ParentsAfterSet(s.nodes, s.nextId, n);
    assert ParentsOf(s.nodes).Keys == s.nodes.Keys by { KeysOfParents(s.nodes); }
    NewRowKeepsForest(ParentsOf(s.nodes), s.nextId, n.parent);
    RootsAfterInsert(s.nodes, s.nextId, n);
  }

  lemma KeysOfParents(nodes: map<nat, Node>)
    ensures ParentsOf(nodes).Keys == nodes.Keys
  {
  }

  lemma WithRootValid(s: State, org: nat)
    requires Valid(s) && org in s.orgs
    ensures var (s1, root) := WithRoot(s, org);
            && Valid(s1) && root in s1.nodes && s1.nodes[root] == Node(org, None, true)
            && (forall x | x in s.nodes :: x in s1.nodes && s1.nodes[x] == s.nodes[x])
            && s1.orgs == s.orgs && s1.nodes.Keys <= s.nodes.Keys + {root}
  {
    if Roots(s.nodes, org) == {} { InsertedValid(s, Node(org, None, true)); }
  }

  lemma RootsAreTop(s: State, root: nat, x: nat)
    requires Valid(s) && root in s.nodes && s.nodes[root].isRoot && x != root
    ensures !AboveOrSelf(ParentsOf(s.nodes), x, root)
  {
  }

  lemma SetParentValid(s: State, row: nat, p: Option<nat>)
    requires Valid(s) && row in s.nodes
    requires s.nodes[row].isRoot ==> p.None?
    requires p.Some? ==> p.value in s.nodes && !AboveOrSelf(ParentsOf(s.nodes), row, p.value)
    ensures Valid(s.(nodes := s.nodes[row := s.nodes[row].(parent := p)]))
  {
    var t, nodes' := ParentsOf(s.nodes), s.nodes[row := s.nodes[row].(parent := p)];
    ReparentKeepsForest(t, row, p);
    ParentsAfterSet(s.nodes, row, s.nodes[row].(parent := p));
    hide IsForest, ParentsOf;
  }

  lemma DeletedWithin(kind: Kind, nodes: map<nat, Node>, row: nat)
    requires row in nodes && WithinOrganizations(nodes) && nodes[row].parent != Some(row)
    ensures WithinOrganizations(Deleted(kind, nodes, row))
  {
  }

  lemma DeletedValid(kind: Kind, s: State, row: nat)
    requires Valid(s) && row in s.nodes
    ensures Valid(s.(nodes := Deleted(kind, s.nodes, row)))
  {
    var t := ParentsOf(s.nodes);
    NotOwnParent(t, row);
    assert s.nodes[row].parent == t[row];
    ParentsAfterDelete(kind, s.nodes, row);
    SplicedIsForest(t, row);
    DetachedIsForest(t, row);
    hide IsForest, ParentsOf, Spliced, Detached;
    RootsAfterDelete(kind, s.nodes, row);
  }

  lemma RootsAfterDelete(kind: Kind, nodes: map<nat, Node>, row: nat)
    requires RootsOnTop(nodes) && row in nodes
    ensures RootsOnTop(Deleted(kind, nodes, row))
  {
  }

  lemma CreateValid(s: State, org: nat, against: nat, value: Option<nat>)
    requires Valid(s) && (value.Some? ==> value.value in s.nodes)
    ensures var (s1, verdict) := Validated(s, None, against, value);
            Valid(s1) && (verdict.Ok? ==> Valid(Placed(s1, org, verdict.value).0))
  {
    var (s1, verdict) := Validated(s, None, against, value);
    if NeedsRoot(s, None, value) && against in s.orgs { WithRootValid(s, against); }
    if verdict.Ok? && org in s1.orgs { InsertedValid(s1, Node(org, verdict.value, false)); }
  }

  lemma ChangeValid(s: State, row: nat, value: Option<nat>)
    requires Valid(s) && row in s.nodes && (value.Some? ==> value.value in s.nodes)
    ensures var (s1, verdict) := Validated(s, Some(row), s.nodes[row].org, value);
            && Valid(s1) && row in s1.nodes
            && (verdict.Ok? ==> Valid(s1.(nodes := s1.nodes[row := s.nodes[row].(parent := verdict.value)])))
  {
    var org := s.nodes[row].org;
    var (s1, verdict) := Validated(s, Some(row), org, value);
    if NeedsRoot(s, Some(row), value) {
      WithRootValid(s, org);
      RootsAreTop(s1, verdict.value.value, row);
    }
    if verdict.Ok? { SetParentValid(s1, row, verdict.value); }
  }

  lemma StepValid(kind: Kind, s: State, op: Op)
    requires Valid(s)
    ensures Valid(Step(kind, s, op).0)
  {
    match op
    case AddOrganization(org) =>
      var s1 := s.(orgs := s.orgs + {org});
      assert Valid(s1);
      WithRootValid(s1, org);
    case Create(org, named, asked) =>
      if asked.Parent? ==> asked.id in s.nodes {
        match ToValidate(kind, None, asked)
        case None =>
          if org in s.orgs { InsertedValid(s, Node(org, None, false)); }
        case Some(value) =>
          CreateValid(s, org, if kind == PeopleGroups then org else named, value);
      }
    case ChangeParent(row, asked) =>
      if row in s.nodes && (asked.Parent? ==> asked.id in s.nodes) {
        assert ParentsOf(s.nodes)[row] == s.nodes[row].parent;
        match ToValidate(kind, s.nodes[row].parent, asked)
        case None =>
        case Some(value) =>
          ChangeValid(s, row, value);
      }
    case Delete(row) =>
      if row in s.nodes { DeletedValid(kind, s, row); }
  }

  // ----- one organization for each tree -----

  /** Rows stay in the organization of their parent unless a new category is validated against
      another organization than its own. */
  lemma StepKeepsOrganizations(kind: Kind, s: State, op: Op)
    requires Valid(s) && WithinOrganizations(s.nodes)
    requires kind == Categories && op.Create? ==> op.named == op.org
    ensures WithinOrganizations(Step(kind, s, op).0.nodes)
  {
    match op
    case AddOrganization(org) =>
      RootKeepsOrganizations(s.(orgs := s.orgs + {org}), org);
    case Create(org, named, asked) =>
      if (org in s.orgs || kind == Categories) && (asked.Parent? ==> asked.id in s.nodes) {
        match ToValidate(kind, None, asked)
        case None => if org in s.orgs { WithinAfterInsert(s.nodes, s.nextId, Node(org, None, false)); }
        case Some(value) => CreateKeepsOrganizations(s, org, value);
      }
    case ChangeParent(row, asked) =>
      if row in s.nodes && (asked.Parent? ==> asked.id in s.nodes) {
        assert ParentsOf(s.nodes)[row] == s.nodes[row].parent;
        match ToValidate(kind, s.nodes[row].parent, asked)
        case None =>
        case Some(value) => ChangeKeepsOrganizations(s, row, value);
      }
    case Delete(row) =>
      if row in s.nodes {
        NotOwnParent(ParentsOf(s.nodes), row);
        assert ParentsOf(s.nodes)[row] == s.nodes[row].parent;
        DeletedWithin(kind, s.nodes, row);
      }
  }

  lemma RootKeepsOrganizations(s: State, org: nat)
    requires Valid(s) && WithinOrganizations(s.nodes)
    ensures WithinOrganizations(WithRoot(s, org).0.nodes)
  {
  }

  lemma CreateKeepsOrganizations(s: State, org: nat, value: Option<nat>)
    requires Valid(s) && WithinOrganizations(s.nodes) && (value.Some? ==> value.value in s.nodes)
    ensures var (s1, verdict) := Validated(s, None, org, value);
            && WithinOrganizations(s1.nodes)
            && (verdict.Ok? ==> WithinOrganizations(Placed(s1, org, verdict.value).0.nodes))
  {
  }

  lemma ChangeKeepsOrganizations(s: State, row: nat, value: Option<nat>)
    requires Valid(s) && WithinOrganizations(s.nodes) && row in s.nodes && (value.Some? ==> value.value in s.nodes)
    ensures var (s1, verdict) := Validated(s, Some(row), s.nodes[row].org, value);
            && WithinOrganizations(s1.nodes)
            && (verdict.Ok? ==> WithinOrganizations(s1.nodes[row := s.nodes[row].(parent := verdict.value)]))
  {
    var org := s.nodes[row].org;
    if NeedsRoot(s, Some(row), value) {
      WithRootValid(s, org);
      RootKeepsOrganizations(s, org);
    }
  }

  /** A creation whose parent is taken from another organization than its own: the parent
      named in the body, or the root of the organization named there. */
  ghost predicate Strays(s: State, op: Op) {
    && op.Create? && op.named != op.org && op.org in s.orgs
    && match op.asked
       case Absent => false
       case Null => op.named in s.orgs
       case Parent(p) => p in s.nodes && s.nodes[p].org == op.named
  }

  /** Categories stay in the organization of their parent after exactly the requests that are
      no such creation. */
  lemma CategoryOrganizationIff(s: State, op: Op)
    requires Valid(s) && WithinOrganizations(s.nodes)
    ensures WithinOrganizations(Step(Categories, s, op).0.nodes) <==> !Strays(s, op)
  {
    if op.Create? && op.named != op.org {
      CategoryCreatedIff(s, op.org, op.named, op.asked);
    } else {
      StepKeepsOrganizations(Categories, s, op);
    }
  }

  lemma CategoryCreatedIff(s: State, org: nat, named: nat, asked: Asked)
    requires Valid(s) && WithinOrganizations(s.nodes) && org != named
    ensures WithinOrganizations(Step(Categories, s, Create(org, named, asked)).0.nodes) <==>
              !Strays(s, Create(org, named, asked))
  {
    if asked.Parent? ==> asked.id in s.nodes {
      match ToValidate(Categories, None, asked)
      case None =>
        if org in s.orgs { WithinAfterInsert(s.nodes, s.nextId, Node(org, None, false)); }
      case Some(value) =>
        CreateKeepsOrganizations(s, named, value);
        var (s1, verdict) := Validated(s, None, named, value);
        if value.None? && named in s.orgs { WithRootValid(s, named); }
        if verdict.Ok? && org in s1.orgs { StrayInserted(s1, org, verdict.value.value); }
    }
  }

  lemma StrayInserted(s: State, org: nat, p: nat)
    requires s.nextId !in s.nodes && p in s.nodes && s.nodes[p].org != org
    ensures !WithinOrganizations(Inserted(s, Node(org, Some(p), false)).nodes)
  {
    var nodes := Inserted(s, Node(org, Some(p), false)).nodes;
    assert nodes[s.nextId].parent == Some(p) && nodes[p].org != org;
  }

  /** People groups never leave their organization, over any run. */
  lemma {:induction false} GroupsStayInOrganization(s: State, ops: seq<Op>)
    requires Valid(s) && WithinOrganizations(s.nodes)
    ensures WithinOrganizations(Run(PeopleGroups, s, ops).nodes)
    decreases |ops|
  {
    if ops != [] {
      StepValid(PeopleGroups, s, ops[0]);
      StepKeepsOrganizations(PeopleGroups, s, ops[0]);
      GroupsStayInOrganization(Step(PeopleGroups, s, ops[0]).0, ops[1..]);
    }
  }

  // ----- what the requests guarantee -----

  /** The loop check is exact: among parents of the same organization it refuses those that
      would make a cycle, and it accepts the others and stores them. */
  lemma LoopCheckExact(kind: Kind, s: State, row: nat, p: nat)
    requires Valid(s) && row in s.nodes && p in s.nodes
    requires !s.nodes[row].isRoot && s.nodes[p].org == s.nodes[row].org
    ensures var (s1, error) := Step(kind, s, ChangeParent(row, Parent(p)));
            if Acyclic(ParentsOf(s.nodes)[row := Some(p)])
            then error == None && ParentsOf(s1.nodes) == ParentsOf(s.nodes)[row := Some(p)]
            else error == Some(HierarchyLoop) && s1 == s
  {
    var t := ParentsOf(s.nodes);
    if AboveOrSelf(t, row, p) {
      ReparentMakesCycle(t, row, p);
    } else {
      ReparentKeepsForest(t, row, Some(p));
      ParentsAfterSet(s.nodes, row, s.nodes[row].(parent := Some(p)));
    }
  }

  /** Deletion keeps every remaining row's ancestors, in order: all but the deleted one for
      people groups, those below the deleted one for categories. */
  lemma DeleteKeepsAncestors(kind: Kind, s: State, row: nat, x: nat)
    requires Valid(s) && row in s.nodes && x in s.nodes && x != row
    ensures var s1 := Step(kind, s, Delete(row)).0;
            && Valid(s1) && x in s1.nodes
            && Chain(ParentsOf(s1.nodes), x) ==
                 if kind == PeopleGroups then Without(Chain(ParentsOf(s.nodes), x), row)
                 else Until(Chain(ParentsOf(s.nodes), x), row)
  {
    var t := ParentsOf(s.nodes);
    StepValid(kind, s, Delete(row));
    ParentsAfterDelete(kind, s.nodes, row);
    if kind == PeopleGroups { SplicedChain(t, row, x); } else { DetachedChain(t, row, x); }
  }

  /** Whatever was asked, an accepted row that is not a root goes under a parent of its
      organization: the one named, or else the organization's root. */
  lemma AcceptedParent(s: State, row: Option<nat>, org: nat, value: Option<nat>)
    requires Valid(s) && (value.Some? ==> value.value in s.nodes)
    requires row.Some? ==> row.value in s.nodes && !s.nodes[row.value].isRoot && s.nodes[row.value].org == org
    requires Validated(s, row, org, value).1.Ok?
    ensures var (s1, verdict) := Validated(s, row, org, value);
            && verdict.value.Some?
            && var p := verdict.value.value;
               && p in s1.nodes && s1.nodes[p].org == org
               && (if value.Some? then p == value.value else s1.nodes[p].isRoot)
               && (forall x | x in s.nodes :: x in s1.nodes && s1.nodes[x] == s.nodes[x])
  {
    if value.None? { WithRootValid(s, org); }
  }

  // ----- one tree for each organization -----

  /** Every organization has a root, and only roots are without parent. */
  ghost predicate Rooted(s: State) {
    && (forall org | org in s.orgs :: Roots(s.nodes, org) != {})
    && (forall x | x in s.nodes && !s.nodes[x].isRoot :: s.nodes[x].parent.Some?)
  }

  /** Then the root of its organization is at or above every people group. */
  lemma {:induction false} RootAboveAll(s: State, x: nat)
    requires Valid(s) && WithinOrganizations(s.nodes) && Rooted(s) && x in s.nodes
    ensures exists root :: root in Roots(s.nodes, s.nodes[x].org) && AboveOrSelf(ParentsOf(s.nodes), root, x)
    decreases Level(ParentsOf(s.nodes), x)
  {
    var t := ParentsOf(s.nodes);
    assert t[x] == s.nodes[x].parent;
    if s.nodes[x].isRoot {
      assert Up(t, x, 0) == Some(x) && x in Roots(s.nodes, s.nodes[x].org);
    } else {
      var p := t[x].value;
      ParentLevel(t, x);
      RootAboveAll(s, p);
      var root :| root in Roots(s.nodes, s.nodes[p].org) && AboveOrSelf(t, root, p);
      var n: nat :| Up(t, p, n) == Some(root);
      assert Up(t, x, n + 1) == Some(root);
    }
  }

  ghost predicate DeletesRoot(s: State, op: Op) {
    op.Delete? && op.row in s.nodes && s.nodes[op.row].isRoot
  }

  lemma InsertedRooted(s: State, n: Node)
    requires Rooted(s) && s.nextId !in s.nodes && (n.isRoot || n.parent.Some?)
    ensures Rooted(Inserted(s, n))
  {
    forall org | org in s.orgs ensures Roots(Inserted(s, n).nodes, org) != {} {
      var x :| x in Roots(s.nodes, org);
      assert x in Roots(Inserted(s, n).nodes, org);
    }
  }

  lemma ParentSetRooted(s: State, row: nat, p: Option<nat>)
    requires Rooted(s) && row in s.nodes && (s.nodes[row].isRoot || p.Some?)
    ensures Rooted(s.(nodes := s.nodes[row := s.nodes[row].(parent := p)]))
  {
    var nodes' := s.nodes[row := s.nodes[row].(parent := p)];
    forall org | org in s.orgs ensures Roots(nodes', org) != {} {
      var x :| x in Roots(s.nodes, org);
      assert x in Roots(nodes', org);
    }
  }

  lemma NewOrganizationRooted(s: State, org: nat)
    requires Valid(s) && Rooted(s)
    ensures Rooted(Step(PeopleGroups, s, AddOrganization(org)).0)
  {
    var s1 := s.(orgs := s.orgs + {org});
    var s2 := WithRoot(s1, org).0;
    assert s1.nextId !in s1.nodes;
    forall o | o in s2.orgs ensures Roots(s2.nodes, o) != {} {
      if Roots(s1.nodes, o) != {} {
        var x :| x in Roots(s1.nodes, o);
        assert x in Roots(s2.nodes, o);
      } else {
        assert s1.nextId in Roots(s2.nodes, o);
      }
    }
  }

  lemma DeletedRooted(s: State, row: nat)
    requires Valid(s) && Rooted(s) && row in s.nodes
    ensures Rooted(s.(nodes := Deleted(PeopleGroups, s.nodes, row))) <==> !s.nodes[row].isRoot
  {
    var nodes', org := Deleted(PeopleGroups, s.nodes, row), s.nodes[row].org;
    if s.nodes[row].isRoot {
      assert Roots(nodes', org) == {};
    } else {
      forall o | o in s.orgs ensures Roots(nodes', o) != {} {
        var x :| x in Roots(s.nodes, o);
        assert x in Roots(nodes', o);
      }
    }
  }

  /** Deleting a root is the only request that breaks this. */
  lemma StepKeepsRooted(s: State, op: Op)
    requires Valid(s) && Rooted(s)
    ensures Rooted(Step(PeopleGroups, s, op).0) <==> !DeletesRoot(s, op)
  {
    if op.ChangeParent? && op.row in s.nodes { ParentInside(s, op.row); }
    hide Rooted, Roots, Valid, Deleted, WithRoot;
    match op
    case AddOrganization(org) => NewOrganizationRooted(s, org);
    case Create(org, named, asked) =>
      if org in s.orgs && (asked.Parent? ==> asked.id in s.nodes) {
        CreateKeepsRooted(s, org, ToValidate(PeopleGroups, None, asked).value);
      }
    case ChangeParent(row, asked) =>
      if row in s.nodes && (asked.Parent? ==> asked.id in s.nodes) {
        ChangeKeepsRooted(s, row, ToValidate(PeopleGroups, s.nodes[row].parent, asked).value);
      }
    case Delete(row) =>
      if row in s.nodes { DeletedRooted(s, row); }
  }

  lemma ParentInside(s: State, row: nat)
    requires Valid(s) && row in s.nodes
    ensures s.nodes[row].parent.Some? ==> s.nodes[row].parent.value in s.nodes
  {
    assert ParentsOf(s.nodes)[row] == s.nodes[row].parent;
  }

  lemma CreateKeepsRooted(s: State, org: nat, value: Option<nat>)
    requires Valid(s) && Rooted(s) && (value.Some? ==> value.value in s.nodes)
    ensures var (s1, verdict) := Validated(s, None, org, value);
            Rooted(s1) && (verdict.Ok? ==> Rooted(Placed(s1, org, verdict.value).0))
  {
    var (s1, verdict) := Validated(s, None, org, value);
    assert s1 == s && s.nextId !in s.nodes;
    if verdict.Ok? { InsertedRooted(s, Node(org, verdict.value, false)); }
  }

  lemma ChangeKeepsRooted(s: State, row: nat, value: Option<nat>)
    requires Valid(s) && Rooted(s) && row in s.nodes && (value.Some? ==> value.value in s.nodes)
    ensures var (s1, verdict) := Validated(s, Some(row), s.nodes[row].org, value);
            && Rooted(s1)
            && (verdict.Ok? ==> Rooted(s1.(nodes := s1.nodes[row := s.nodes[row].(parent := verdict.value)])))
  {
    var (s1, verdict) := Validated(s, Some(row), s.nodes[row].org, value);
    assert s1 == s;
    if verdict.Ok? { ParentSetRooted(s, row, verdict.value); }
  }

  ghost predicate SparesRoots(s: State, ops: seq<Op>)
    requires Valid(s)
    decreases |ops|
  {
    ops == [] ||
    (StepValid(PeopleGroups, s, ops[0]);
     !DeletesRoot(s, ops[0]) && SparesRoots(Step(PeopleGroups, s, ops[0]).0, ops[1..]))
  }

  /** Over every run that deletes no root, the people groups of an organization are one tree. */
  lemma {:induction false} RunKeepsTrees(s: State, ops: seq<Op>, x: nat)
    requires Valid(s) && WithinOrganizations(s.nodes) && Rooted(s) && SparesRoots(s, ops)
    ensures var s1 := Run(PeopleGroups, s, ops);
            && Rooted(s1)
            && (x in s1.nodes ==>
                  exists root :: root in Roots(s1.nodes, s1.nodes[x].org) && AboveOrSelf(ParentsOf(s1.nodes), root, x))
    decreases |ops|
  {
    if ops == [] {
      if x in s.nodes { RootAboveAll(s, x); }
    } else {
      StepValid(PeopleGroups, s, ops[0]);
      StepKeepsOrganizations(PeopleGroups, s, ops[0]);
      StepKeepsRooted(s, ops[0]);
      RunKeepsTrees(Step(PeopleGroups, s, ops[0]).0, ops[1..], x);
    }
  }

  // ----- requests to the API -----

  /** The views do not find roots: a request for one is answered as if there were no such row.
      Only the admin site deletes a root. */
  ghost function ApiStep(kind: Kind, s: State, op: Op): (r: (State, Option<Error>))
    requires Valid(s)
    ensures Valid(r.0)
  {
    if (op.Delete? || op.ChangeParent?) && op.row in s.nodes && s.nodes[op.row].isRoot then (s, Some(NoSuchRow))
    else StepValid(kind, s, op); Step(kind, s, op)
  }

  ghost function ApiRun(kind: Kind, s: State, ops: seq<Op>): State
    requires Valid(s)
    decreases |ops|
  {
    if ops == [] then s else ApiRun(kind, ApiStep(kind, s, ops[0]).0, ops[1..])
  }

  /** Over every run of requests to the API, the people groups of an organization are one tree. */
  lemma {:induction false} ApiRunKeepsTrees(s: State, ops: seq<Op>, x: nat)
    requires Valid(s) && WithinOrganizations(s.nodes) && Rooted(s)
    ensures var s1 := ApiRun(PeopleGroups, s, ops);
            && Rooted(s1)
            && (x in s1.nodes ==>
                  exists root :: root in Roots(s1.nodes, s1.nodes[x].org) && AboveOrSelf(ParentsOf(s1.nodes), root, x))
    decreases |ops|
  {
    hide Valid, WithinOrganizations, Rooted, Step, Roots, AboveOrSelf, ParentsOf;
    if ops == [] {
      if x in s.nodes { RootAboveAll(s, x); }
    } else {
      StepKeepsOrganizations(PeopleGroups, s, ops[0]);
      StepKeepsRooted(s, ops[0]);
      ApiRunKeepsTrees(ApiStep(PeopleGroups, s, ops[0]).0, ops[1..], x);
    }
  }
}
