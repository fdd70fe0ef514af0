/** The bulk reassignment of permissions refines the instance-by-instance one. */
module BulkPermissions {
  import opened Common
  import opened GroupNames
  import opened Permissions

  /** Tidy, and every existing role group of the model has its data. */
  ghost predicate Prepared(db: Db, model: string) {
    Tidy(db) && forall g | g in db.groups && Proper(g) && ModelOf(g) == model :: g in db.data
  }

  lemma NewNamesProper(model: string, live: set<Instance>, rps: Roles, g: string)
    requires PlainInstances(model, live) && PlainRoles(rps) && g in RoleGroups(live, rps)
    ensures Proper(g) && ModelOf(g) == model && RoleOf(g) in RoleNames(rps) && InstanceOf(g) in live
  {
    RoleGroupIff(g, live, rps);
    PermsForListed(rps, RoleOf(g));
  }

  lemma BulkPreparedIsPrepared(db: Db, model: string, live: set<Instance>, rps: Roles)
    requires Tidy(db) && Plain(model) && PlainInstances(model, live) && PlainRoles(rps)
    ensures Prepared(BulkPrepared(db, model, live, rps), model)
  {
    var db' := BulkPrepared(db, model, live, rps);
    assert db'.groups == db.groups + RoleGroups(live, rps);
    forall g | g in db'.groups ensures Proper(g) || Plain(g) {
      if g in RoleGroups(live, rps) { NewNamesProper(model, live, rps, g); }
    }
    forall g | g in db'.groups
      ensures Proper(g) && ModelOf(g) == model ==> g in db'.data && db'.data[g] == Data(RoleOf(g), Some(InstanceOf(g)))
      ensures !(Proper(g) && ModelOf(g) == model) && g in db'.data ==> g in db.data && db'.data[g] == db.data[g]
    {
      PrefixSelectsModel(g, model);
    }
    hide Proper, Plain, ModelOf, RoleOf, PkOf;
  }

  lemma BulkRoleGrants(db: Db, model: string, role: string, perms: set<nat>, gr: Grant)
    requires Prepared(db, model)
    ensures gr in BulkRole(db, model, role, perms).grants <==>
              if gr.group in db.groups && Proper(gr.group) && ModelOf(gr.group) == model && RoleOf(gr.group) == role
              then gr.of == InstanceOf(gr.group) && gr.perm in perms
              else gr in db.grants
  {
    hide Proper, Plain, ModelOf, RoleOf, PkOf;
  }

  lemma BulkRolePrepared(db: Db, model: string, role: string, perms: set<nat>)
    requires Prepared(db, model)
    ensures Prepared(BulkRole(db, model, role, perms), model)
    ensures BulkRole(db, model, role, perms).groups == db.groups
  {
  }

  lemma {:induction false} BulkRolesReassign(db: Db, model: string, rps: Roles)
    requires Prepared(db, model)
    ensures Prepared(BulkRoles(db, model, rps), model)
    ensures BulkRoles(db, model, rps).groups == db.groups
    ensures Reassigned(db, BulkRoles(db, model, rps), ModelGroups(db.groups, model, rps), rps)
    decreases |rps|
  {
    if rps == [] {
      assert ModelGroups(db.groups, model, rps) == {};
    } else {
      var role, perms, rest := rps[0].0, rps[0].1, rps[1..];
      var db1 := BulkRole(db, model, role, perms);
      BulkRolePrepared(db, model, role, perms);
      BulkRolesReassign(db1, model, rest);
      forall gr: Grant
        ensures gr in BulkRoles(db, model, rps).grants <==>
          if gr.group in ModelGroups(db.groups, model, rps) then Listed(gr, rps) else gr in db.grants
      {
        BulkRoleGrants(db, model, role, perms, gr);
        PermsForListed(rps, RoleOf(gr.group));
        PermsForListed(rest, RoleOf(gr.group));
      }
    }
  }

  /** After the bulk form, each existing role group of the model holds exactly the permissions
      listed for its role, on its own instance; grants of all other groups are untouched, be
      they of another model with the same role name. */
  lemma BulkReassigns(db: Db, model: string, live: set<Instance>, rps: Roles)
    requires Tidy(db) && Plain(model) && PlainInstances(model, live) && PlainRoles(rps)
    ensures var db' := BulkReassigned(db, model, live, rps);
            && Tidy(db')
            && db'.groups == db.groups + RoleGroups(live, rps)
            && RoleGroups(live, rps) <= ModelGroups(db'.groups, model, rps)
            && Reassigned(db, db', ModelGroups(db'.groups, model, rps), rps)
            && live <= db'.upToDate
  {
    var db1 := BulkPrepared(db, model, live, rps);
    BulkPreparedIsPrepared(db, model, live, rps);
    BulkRolesReassign(db1, model, rps);
    assert db1.groups == db.groups + RoleGroups(live, rps);
    forall g | g in RoleGroups(live, rps) ensures g in ModelGroups(db1.groups, model, rps) {
      NewNamesProper(model, live, rps, g);
    }
    hide Proper, Plain, ModelOf, RoleOf, PkOf, Listed, BulkRoles, BulkPrepared, RoleGroups, ModelGroups;
  }

  /** Refinement: bulk and one by one leave the same grants, except on role groups that are
      left over from instances no longer live, which only the bulk form reassigns. */
  lemma BulkRefinesEach(db: Db, model: string, live: set<Instance>, instances: seq<Instance>, rps: Roles, gr: Grant)
    requires Tidy(db) && Plain(model) && PlainInstances(model, live) && PlainRoles(rps)
    requires Elements(instances) == live
    ensures var bulk, each := BulkReassigned(db, model, live, rps), EachSetUp(db, instances, rps);
            var leftOver := ModelGroups(db.groups, model, rps) - RoleGroups(live, rps);
            && (gr.group in RoleGroups(live, rps) ==>
                  (gr in bulk.grants <==> Listed(gr, rps)) && (gr in each.grants <==> Listed(gr, rps)))
            && (gr.group !in leftOver ==> (gr in bulk.grants <==> gr in each.grants))
            && (gr.group in leftOver ==>
                  (gr in bulk.grants <==> Listed(gr, rps)) && (gr in each.grants <==> gr in db.grants))
  {
    forall i | i in instances ensures Plain(i.model) && Plain(i.pk) { assert i in Elements(instances); }
    BulkReassigns(db, model, live, rps);
    EachSetUpReassigns(db, instances, rps);
    var groups := db.groups + RoleGroups(live, rps);
    assert gr.group in ModelGroups(groups, model, rps) <==>
           gr.group in ModelGroups(db.groups, model, rps) || gr.group in RoleGroups(live, rps);
    hide Listed, BulkReassigned, EachSetUp, Tidy, ModelGroups, RoleGroups;
  }

  /** Both forms create the same groups with the same data, link them alike and mark the same
      instances. */
  lemma BulkSameRows(db: Db, model: string, live: set<Instance>, instances: seq<Instance>, rps: Roles)
    requires Tidy(db) && Plain(model) && PlainInstances(model, live) && PlainRoles(rps)
    requires Elements(instances) == live
    ensures var bulk, each := BulkReassigned(db, model, live, rps), EachSetUp(db, instances, rps);
            && bulk.groups == each.groups && bulk.links == each.links && bulk.upToDate == each.upToDate
            && forall g | g in RoleGroups(live, rps) :: g in bulk.data && g in each.data && bulk.data[g] == each.data[g]
  {
    var db1 := BulkPrepared(db, model, live, rps);
    BulkPreparedIsPrepared(db, model, live, rps);
    BulkRolesRows(db1, model, rps);
    EachSetUpRows(db, instances, rps);
    SameData(db, model, live, instances, rps);
  }

  lemma SameData(db: Db, model: string, live: set<Instance>, instances: seq<Instance>, rps: Roles)
    requires Tidy(db) && Plain(model) && PlainInstances(model, live) && PlainRoles(rps)
    requires Elements(instances) == live
    ensures var bulk, each := BulkReassigned(db, model, live, rps), EachSetUp(db, instances, rps);
            forall g | g in RoleGroups(live, rps) :: g in bulk.data && g in each.data && bulk.data[g] == each.data[g]
  {
    var db1 := BulkPrepared(db, model, live, rps);
    BulkPreparedIsPrepared(db, model, live, rps);
    BulkRolesRows(db1, model, rps);
    forall i | i in instances ensures Plain(i.model) && Plain(i.pk) { assert i in Elements(instances); }
    EachSetUpReassigns(db, instances, rps);
    EachSetUpRows(db, instances, rps);
    assert RoleGroups(live, rps) <= db1.groups;
    hide Proper, Plain, EachSetUp, BulkRoles, BulkPrepared;
    forall g | g in RoleGroups(live, rps)
      ensures g in db1.data && g in EachSetUp(db, instances, rps).data
              && db1.data[g] == EachSetUp(db, instances, rps).data[g]
    {
      NewNamesProper(model, live, rps, g);
    }
  }

  lemma {:induction false} BulkRolesRows(db: Db, model: string, rps: Roles)
    ensures var db' := BulkRoles(db, model, rps);
            db'.groups == db.groups && db'.links == db.links && db'.upToDate == db.upToDate && db'.data == db.data
    decreases |rps|
  {
    if rps != [] { BulkRolesRows(BulkRole(db, model, rps[0].0, rps[0].1), model, rps[1..]); }
  }

  /** No data that is there changes, neither of other models nor of this one; new are the data
      of the model's role groups in bulk, and of the listed instances' one by one. */
  lemma DataExact(db: Db, model: string, live: set<Instance>, instances: seq<Instance>, rps: Roles)
    requires Tidy(db) && Plain(model) && PlainInstances(model, live) && PlainRoles(rps)
    requires Elements(instances) == live
    ensures var bulk, each := BulkReassigned(db, model, live, rps), EachSetUp(db, instances, rps);
            && (forall g :: g in bulk.data <==>
                  g in db.data || (g in bulk.groups && Proper(g) && ModelOf(g) == model))
            && (forall g :: g in each.data <==> g in db.data || g in RoleGroups(live, rps))
            && forall g | g in db.data :: bulk.data[g] == db.data[g] && each.data[g] == db.data[g]
  {
    var db1 := BulkPrepared(db, model, live, rps);
    BulkPreparedIsPrepared(db, model, live, rps);
    BulkRolesRows(db1, model, rps);
    forall i | i in instances ensures Plain(i.model) && Plain(i.pk) { assert i in Elements(instances); }
    EachSetUpReassigns(db, instances, rps);
    EachSetUpRows(db, instances, rps);
    assert db.data.Keys <= db1.data.Keys && db1.groups == db.groups + RoleGroups(live, rps);
    forall g ensures g in db1.data <==> g in db.data || (g in db1.groups && Proper(g) && ModelOf(g) == model) {
      if g in db1.groups { PrefixSelectsModel(g, model); }
    }
    hide Proper, Plain, ModelOf, EachSetUp, BulkRoles, BulkPrepared;
  }

  /** Every role group is linked to its instance. */
  ghost predicate Linked(db: Db) {
    forall g | g in db.groups && Proper(g) :: (InstanceOf(g), g) in db.links
  }

  /** Getting or creating one group keeps this, and so do both forms of setting up many; getting
      one that is there with its data changes nothing. */
  lemma WithGroupLinked(db: Db, i: Instance, role: string)
    requires Linked(db) && Plain(i.model) && Plain(i.pk) && Plain(role)
    ensures var db', name := WithGroup(db, i, role), NameOf(i, role);
            && Linked(db') && db'.groups == db.groups + {name} && (i, name) in db'.links
            && db'.links <= db.links + {(i, name)} && db'.grants == db.grants && db'.upToDate == db.upToDate
            && (name in db.groups ==> db'.links == db.links)
            && (name in db.groups && name in db.data ==> db' == db)
  {
    ParsePrinted(i.model, i.pk, role);
  }

  lemma SetUpLinked(db: Db, model: string, live: set<Instance>, instances: seq<Instance>, rps: Roles)
    requires Linked(db) && Tidy(db) && Plain(model) && PlainInstances(model, live) && PlainRoles(rps)
    requires Elements(instances) == live
    ensures Linked(BulkReassigned(db, model, live, rps)) && Linked(EachSetUp(db, instances, rps))
  {
    var each := EachSetUp(db, instances, rps);
    EachSetUpRows(db, instances, rps);
    BulkSameRows(db, model, live, instances, rps);
    forall g | g in RoleGroups(live, rps) ensures (InstanceOf(g), g) in RoleLinks(live, rps) {
      var i, role :| i in live && role in RoleNames(rps) && g == NameOf(i, role);
      ListedPlain(rps, role);
      ParsePrinted(i.model, i.pk, role);
    }
    hide Proper, Plain, InstanceOf, NameOf, BulkReassigned, EachSetUp, RoleGroups, RoleLinks;
  }

  lemma ListedPlain(rps: Roles, role: string)
    requires PlainRoles(rps) && role in RoleNames(rps)
    ensures Plain(role)
  {
  }
}
