/** Organizations: a forest kept by the loop check of `validate_parent_code`. */
module OrganizationTree {
  import opened Common
  import opened Forest

  datatype Error = NoSuchOrganization | CodeTaken | HierarchyLoop

  datatype Op =
    | Create(code: nat, parent: Option<nat>)
    | ChangeParent(code: nat, parent: Option<nat>)
    | Delete(code: nat)

  /** A new organization is not checked for loops: nothing can be below it yet. */
  ghost function Step(t: Parents, op: Op): (Parents, Option<Error>) {
    match op
    case Create(code, parent) =>
      if parent.Some? && parent.value !in t then (t, Some(NoSuchOrganization))
      else if code in t then (t, Some(CodeTaken))
      else (t[code := parent], None)
    case ChangeParent(code, parent) =>
      if code !in t || (parent.Some? && parent.value !in t) then (t, Some(NoSuchOrganization))
      else if parent.Some? && AboveOrSelf(t, code, parent.value) then (t, Some(HierarchyLoop))
      else (t[code := parent], None)
    case Delete(code) =>
      if code in t then (Detached(t, code), None) else (t, Some(NoSuchOrganization))
  }

  ghost function Run(t: Parents, ops: seq<Op>): (r: Parents)
    requires IsForest(t)
    ensures IsForest(r)
    decreases |ops|
  {
    if ops == [] then t
    else StepKeepsForest(t, ops[0]); Run(Step(t, ops[0]).0, ops[1..])
  }

  lemma StepKeepsForest(t: Parents, op: Op)
    requires IsForest(t)
    ensures IsForest(Step(t, op).0)
  {
    match op
    case Create(code, parent) =>
      if code !in t && (parent.None? || parent.value in t) { NewRowKeepsForest(t, code, parent); }
    case ChangeParent(code, parent) =>
      if code in t && (parent.None? || (parent.value in t && !AboveOrSelf(t, code, parent.value))) {
        ReparentKeepsForest(t, code, parent);
      }
    case Delete(code) =>
      DetachedIsForest(t, code);
  }

  /** The loop check refuses exactly the parents that would make a cycle; the others are stored. */
  lemma LoopCheckExact(t: Parents, code: nat, p: nat)
    requires IsForest(t) && code in t && p in t
    ensures var (t', error) := Step(t, ChangeParent(code, Some(p)));
            if Acyclic(t[code := Some(p)]) then error == None && t' == t[code := Some(p)]
            else error == Some(HierarchyLoop) && t' == t
  {
    if AboveOrSelf(t, code, p) {
      ReparentMakesCycle(t, code, p);
    } else {
      ReparentKeepsForest(t, code, Some(p));
    }
  }

  /** What each request leaves: a refused one changes nothing, an accepted one gives its code
      the parent asked for, and a deletion takes its parent from exactly the children. */
  lemma StepExact(t: Parents, op: Op)
    requires IsForest(t)
    ensures var (t', error) := Step(t, op);
            if error.Some? then t' == t
            else if op.Delete? then
              && op.code in t && t'.Keys == t.Keys - {op.code}
              && forall x | x in t' :: if t[x] == Some(op.code) then t'[x] == None else t'[x] == t[x]
            else
              && (op.Create? <==> op.code !in t) && t'.Keys == t.Keys + {op.code}
              && t'[op.code] == op.parent
              && forall x | x in t && x != op.code :: t'[x] == t[x]
    ensures Step(t, op).1.None? <==>
              match op
              case Create(code, parent) => code !in t && (parent.Some? ==> parent.value in t)
              case ChangeParent(code, parent) =>
                code in t && (parent.Some? ==> parent.value in t && Acyclic(t[code := parent]))
              case Delete(code) => code in t
  {
    if op.ChangeParent? && op.code in t && op.parent.Some? && op.parent.value in t {
      LoopCheckExact(t, op.code, op.parent.value);
    }
  }

  class OrganizationTable {
    var parents: Parents

    constructor ()
      ensures parents == map[] && IsForest(parents)
    {
      parents := map[];
    }

    method ValidateParentCode(code: Option<nat>, value: Option<nat>) returns (ok: bool)
      requires IsForest(parents)
      requires (code.Some? ==> code.value in parents) && (value.Some? ==> value.value in parents)
      ensures ok <==> (code.Some? && value.Some? ==> !AboveOrSelf(parents, code.value, value.value))
    {
      if code.None? { return true; }
      var parent := value;
      ghost var steps: nat := 0;
      while parent.Some?
        invariant parent.Some? ==> parent.value in parents
        invariant if value.Some? then Up(parents, value.value, steps) == parent else parent.None?
        invariant value.Some? ==> forall i: nat | i < steps :: Up(parents, value.value, i) != code
        decreases if parent.Some? then Level(parents, parent.value) + 1 else 0
      {
        if parent == code { return false; }
        UpAdds(parents, value.value, steps, 1);
        if parents[parent.value].Some? { ParentLevel(parents, parent.value); }
        parent := parents[parent.value];
        steps := steps + 1;
      }
      if value.Some? {
        forall i: nat ensures Up(parents, value.value, i) != code {
          if i >= steps { UpStaysNone(parents, value.value, steps, i); }
        }
      }
      return true;
    }

    method Create(code: nat, parent: Option<nat>) returns (error: Option<Error>)
      requires IsForest(parents)
      modifies this
      ensures IsForest(parents) && (parents, error) == Step(old(parents), Op.Create(code, parent))
    {
      StepKeepsForest(parents, Op.Create(code, parent));
      if parent.Some? && parent.value !in parents { return Some(NoSuchOrganization); }
      var ok := ValidateParentCode(None, parent);
      if code in parents { return Some(CodeTaken); }
      parents := parents[code := parent];
      return None;
    }

    method ChangeParent(code: nat, parent: Option<nat>) returns (error: Option<Error>)
      requires IsForest(parents)
      modifies this
      ensures IsForest(parents) && (parents, error) == Step(old(parents), Op.ChangeParent(code, parent))
    {
      StepKeepsForest(parents, Op.ChangeParent(code, parent));
      if code !in parents || (parent.Some? && parent.value !in parents) {
        return Some(NoSuchOrganization);
      }
      var ok := ValidateParentCode(Some(code), parent);
      if !ok { return Some(HierarchyLoop); }
      parents := parents[code := parent];
      return None;
    }

    method Delete(code: nat) returns (error: Option<Error>)
      requires IsForest(parents)
      modifies this
      ensures IsForest(parents) && (parents, error) == Step(old(parents), Op.Delete(code))
    {
      StepKeepsForest(parents, Op.Delete(code));
      if code !in parents { return Some(NoSuchOrganization); }
      ghost var after := Detached(parents, code);
      parents := map x | x in parents :: if parents[x] == Some(code) then None else parents[x];
      parents := parents - {code};
      assert parents.Keys == after.Keys;
      assert parents == after;
      return None;
    }
  }
}
