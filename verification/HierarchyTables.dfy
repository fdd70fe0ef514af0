/** The hierarchy requests as they run, on a table updated in place. */
module HierarchyTables {
  import opened Common
  import opened Forest
  import opened Hierarchies

  lemma DeletedInTwoSteps(kind: Kind, nodes: map<nat, Node>, row: nat)
    requires row in nodes
    ensures var parent := if kind == PeopleGroups then nodes[row].parent else None;
            (map x | x in nodes ::
              if nodes[x].parent == Some(row) then nodes[x].(parent := parent) else nodes[x]) - {row}
            == Deleted(kind, nodes, row)
  {
  }

  class HierarchyTable {
    const kind: Kind
    var nodes: map<nat, Node>
    var nextId: nat
    var orgs: set<nat>

    function Now(): State
      reads this
    {
      State(nodes, nextId, orgs)
    }

    constructor (kind: Kind)
      ensures Valid(Now()) && nodes == map[] && orgs == {} && this.kind == kind
    {
      this.kind := kind;
      nodes, nextId, orgs := map[], 0, {};
    }

    method Insert(n: Node) returns (row: nat)
      modifies this
      ensures Now() == Inserted(old(Now()), n) && row == old(nextId)
    {
      row := nextId;
      nodes := nodes[row := n];
      nextId := nextId + 1;
    }

    method UpdateOrCreateRoot(org: nat) returns (root: nat)
      requires Valid(Now()) && org in orgs
      modifies this
      ensures (Now(), root) == WithRoot(old(Now()), org)
    {
      var roots := Roots(nodes, org);
      if roots == {} {
        root := Insert(Node(org, None, true));
      } else {
        root :| root in roots;
      }
    }

    method ValidateParent(row: Option<nat>, org: nat, value: Option<nat>)
      returns (r: Result<Option<nat>, Error>)
      requires Valid(Now()) && (value.Some? ==> value.value in nodes)
      requires row.Some? ==> row.value in nodes && nodes[row.value].org == org
      modifies this
      ensures (Now(), r) == Validated(old(Now()), row, org, value)
    {
      var v := value;
      if v.None? && (row.None? || !nodes[row.value].isRoot) {
        if org !in orgs { return Err(NoSuchOrganization); }
        WithRootValid(Now(), org);
        var root := UpdateOrCreateRoot(org);
        assert Valid(Now()) && nodes[root] == Node(org, None, true);
        if row.Some? { RootsAreTop(Now(), root, row.value); }
        v := Some(root);
      }
      if v.Some? && row.Some? && nodes[row.value].isRoot { return Err(RootParent); }
      if v.Some? && nodes[v.value].org != org { return Err(OtherOrganization); }
      if v.Some? {
        var loop := IsAtOrAbove(row, v.value);
        if loop { return Err(HierarchyLoop); }
      }
      return Ok(v);
    }

    /** The walk of the loop check, from the new parent upwards. */
    method IsAtOrAbove(row: Option<nat>, from: nat) returns (found: bool)
      requires IsForest(ParentsOf(nodes)) && from in nodes
      ensures found <==> row.Some? && AboveOrSelf(ParentsOf(nodes), row.value, from)
    {
      hide Acyclic;
      ghost var t := ParentsOf(nodes);
      var parent := Some(from);
      ghost var steps: nat := 0;
      while parent.Some?
        invariant parent.Some? ==> parent.value in nodes
        invariant Up(t, from, steps) == parent
        invariant forall i: nat | i < steps :: Up(t, from, i) != row
        decreases if parent.Some? then Level(t, parent.value) + 1 else 0
      {
        if row == parent { return true; }
        UpAdds(t, from, steps, 1);
        if t[parent.value].Some? { ParentLevel(t, parent.value); }
        parent := nodes[parent.value].parent;
        steps := steps + 1;
      }
      forall i: nat | row.Some? ensures Up(t, from, i) != row {
        if i >= steps { UpStaysNone(t, from, steps, i); }
      }
      return false;
    }

    method AddOrganization(org: nat)
      requires Valid(Now())
      modifies this
      ensures Valid(Now()) && Now() == Step(kind, old(Now()), Op.AddOrganization(org)).0
    {
      StepValid(kind, Now(), Op.AddOrganization(org));
      orgs := orgs + {org};
      if kind == PeopleGroups {
        var root := UpdateOrCreateRoot(org);
      }
    }

    method Create(org: nat, named: nat, asked: Asked) returns (error: Option<Error>)
      requires Valid(Now())
      modifies this
      ensures Valid(Now()) && (Now(), error) == Step(kind, old(Now()), Op.Create(org, named, asked))
    {
      StepValid(kind, Now(), Op.Create(org, named, asked));
      if kind == PeopleGroups && org !in orgs { return Some(NoSuchOrganization); }
      if asked.Parent? && asked.id !in nodes { return Some(NoSuchParent); }
      var parent: Option<nat> := None;
      var value := ToValidate(kind, None, asked);
      if value.Some? {
        var verdict := ValidateParent(None, if kind == PeopleGroups then org else named, value.value);
        if verdict.Err? { return Some(verdict.error); }
        parent := verdict.value;
      }
      if org !in orgs { return Some(NoSuchOrganization); }
      var row := Insert(Node(org, parent, false));
      return None;
    }

    method ChangeParent(row: nat, asked: Asked) returns (error: Option<Error>)
      requires Valid(Now())
      modifies this
      ensures Valid(Now()) && (Now(), error) == Step(kind, old(Now()), Op.ChangeParent(row, asked))
    {
      StepValid(kind, Now(), Op.ChangeParent(row, asked));
      if row !in nodes { return Some(NoSuchRow); }
      if asked.Parent? && asked.id !in nodes { return Some(NoSuchParent); }
      assert ParentsOf(nodes)[row] == nodes[row].parent;
      var value := ToValidate(kind, nodes[row].parent, asked);
      if value.None? { return None; }
      ChangeValid(Now(), row, value.value);
      WithRootValid(Now(), nodes[row].org);
      var verdict := ValidateParent(Some(row), nodes[row].org, value.value);
      if verdict.Err? { return Some(verdict.error); }
      nodes := nodes[row := nodes[row].(parent := verdict.value)];
      return None;
    }

    /** The pre-delete signal rewrites the children's parent; then the row goes. */
    method Delete(row: nat) returns (error: Option<Error>)
      requires Valid(Now())
      modifies this
      ensures Valid(Now()) && (Now(), error) == Step(kind, old(Now()), Op.Delete(row))
    {
      StepValid(kind, Now(), Op.Delete(row));
      if row !in nodes { return Some(NoSuchRow); }
      DeletedInTwoSteps(kind, nodes, row);
      hide Valid, Deleted;
      var parent := if kind == PeopleGroups then nodes[row].parent else None;
      nodes := map x | x in nodes ::
        if nodes[x].parent == Some(row) then nodes[x].(parent := parent) else nodes[x];
      nodes := nodes - {row};
      return None;
    }
  }
}
