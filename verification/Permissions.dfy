/** Object permissions of role groups: one instance at a time, and in bulk. */
module Permissions {
  import opened Common
  import opened GroupNames

  datatype Instance = Instance(model: string, pk: string)

  /** Extra data of a group; the superadmins and default groups are of no instance. */
  datatype Data = Data(role: string, of: Option<Instance>)

  /** One row of the object-permission table. */
  datatype Grant = Grant(group: string, perm: nat, of: Instance)

  /** Groups are identified by their unique name; `links` are the `groups` of instances. */
  datatype Db = Db(
    groups: set<string>,
    links: set<(Instance, string)>,
    data: map<string, Data>,
    grants: set<Grant>,
    upToDate: set<Instance>)

  type Roles = seq<(string, set<nat>)>

  function NameOf(i: Instance, role: string): string {
    GroupName(i.model, i.pk, role)
  }

  function InstanceOf(name: string): Instance {
    Instance(ModelOf(name), PkOf(name))
  }

  /** Every group name is proper or without a colon, its data repeats what its name says, and
      grants to a group are on the instance of its name. */
  ghost predicate Tidy(db: Db) {
    && (forall g | g in db.groups :: Proper(g) || Plain(g))
    && (forall g | g in db.data ::
          g in db.groups && db.data[g] == Data(RoleOf(g), if Proper(g) then Some(InstanceOf(g)) else None))
    && (forall gr | gr in db.grants :: gr.group in db.groups && Proper(gr.group) && gr.of == InstanceOf(gr.group))
  }

  ghost predicate PlainInstances(model: string, live: set<Instance>) {
    forall i | i in live :: i.model == model && Plain(i.model) && Plain(i.pk)
  }

  ghost predicate PlainRoles(rps: Roles) {
    forall rp | rp in rps :: Plain(rp.0)
  }

  function RoleNames(rps: Roles): set<string> {
    set rp | rp in rps :: rp.0
  }

  /** The groups of the listed roles of these instances. */
  function RoleGroups(instances: set<Instance>, rps: Roles): set<string> {
    set i, role | i in instances && role in RoleNames(rps) :: NameOf(i, role)
  }

  function RoleLinks(instances: set<Instance>, rps: Roles): set<(Instance, string)> {
    set i, role | i in instances && role in RoleNames(rps) :: (i, NameOf(i, role))
  }

  // ----- one instance, one role -----

  /** `get_or_create_group` */
  function WithGroup(db: Db, i: Instance, role: string): Db {
    var name := NameOf(i, role);
    db.(groups := db.groups + {name},
        links := if name in db.groups then db.links else db.links + {(i, name)},
        data := if name in db.data then db.data else db.data[name := Data(role, Some(i))])
  }

  function CurrentPerms(db: Db, group: string): set<nat> {
    set gr | gr in db.grants && gr.group == group :: gr.perm
  }

  /** `setup_group_object_permissions`: what is missing is granted on the instance, what is
      too much is taken away. */
  function GroupSetUp(db: Db, i: Instance, group: string, perms: set<nat>): Db {
    var current := CurrentPerms(db, group);
    var added := set p | p in perms - current :: Grant(group, p, i);
    var removed := set p | p in current - perms :: Grant(group, p, i);
    db.(grants := db.grants + added - removed)
  }

  function RoleSetUp(db: Db, i: Instance, role: string, perms: set<nat>): Db {
    GroupSetUp(WithGroup(db, i, role), i, NameOf(i, role), perms)
  }

  function RolesSetUp(db: Db, i: Instance, rps: Roles): Db
    decreases |rps|
  {
    if rps == [] then db else RolesSetUp(RoleSetUp(db, i, rps[0].0, rps[0].1), i, rps[1..])
  }

  /** `setup_permissions` */
  function InstanceSetUp(db: Db, i: Instance, rps: Roles): Db {
    var db1 := RolesSetUp(db, i, rps);
    db1.(links := db1.links + RoleLinks({i}, rps),
         upToDate := db1.upToDate + {i})
  }

  /** The simple form: every instance, one after the other. */
  function EachSetUp(db: Db, instances: seq<Instance>, rps: Roles): Db
    decreases |instances|
  {
    if instances == [] then db else EachSetUp(InstanceSetUp(db, instances[0], rps), instances[1..], rps)
  }

  // ----- in bulk -----

  /** All groups, links and data of the model, in three bulk statements. */
  function BulkPrepared(db: Db, model: string, live: set<Instance>, rps: Roles): Db {
    var groups := db.groups + RoleGroups(live, rps);
    var data := map g | g in groups && StartsWith(g, model + ":#") ::
                  Data(RoleOf(g), Some(Instance(model, PkOf(g))));
    db.(groups := groups,
        links := db.links + RoleLinks(live, rps),
        data := db.data + data)
  }

  /** One role: superfluous grants of the model are deleted, missing ones inserted. */
  function BulkRole(db: Db, model: string, role: string, perms: set<nat>): Db {
    var created := set g, p | g in db.data && db.data[g].role == role && db.data[g].of.Some?
                              && db.data[g].of.value.model == model && p in perms
                   :: Grant(g, p, Instance(model, db.data[g].of.value.pk));
    db.(grants :=
      (set gr | gr in db.grants && !(gr.of.model == model && gr.group in db.data
                                     && db.data[gr.group].role == role && gr.perm !in perms))
      + created)
  }

  function BulkRoles(db: Db, model: string, rps: Roles): Db
    decreases |rps|
  {
    if rps == [] then db else BulkRoles(BulkRole(db, model, rps[0].0, rps[0].1), model, rps[1..])
  }

  /** `batch_reassign_permissions` */
  function BulkReassigned(db: Db, model: string, live: set<Instance>, rps: Roles): Db {
    var db1 := BulkRoles(BulkPrepared(db, model, live, rps), model, rps);
    db1.(upToDate := db1.upToDate + live)
  }

  // ----- what both leave -----

  /** The permissions listed for a role, the last time it is listed. */
  function PermsFor(rps: Roles, role: string): Option<set<nat>> {
    if rps == [] then None
    else
      var later := PermsFor(rps[1..], role);
      if later.Some? then later else if rps[0].0 == role then Some(rps[0].1) else None
  }

  /** The grant is on the group's own instance and listed for the group's role. */
  predicate Listed(gr: Grant, rps: Roles) {
    && gr.of == InstanceOf(gr.group)
    && PermsFor(rps, RoleOf(gr.group)).Some?
    && gr.perm in PermsFor(rps, RoleOf(gr.group)).value
  }

  /** The grants of these groups are exactly the listed ones; the others are as before. */
  ghost predicate Reassigned(db: Db, db': Db, names: set<string>, rps: Roles) {
    forall gr: Grant ::
      gr in db'.grants <==> if gr.group in names then Listed(gr, rps) else gr in db.grants
  }

  /** The existing groups of the listed roles of any instance of the model. */
  function ModelGroups(groups: set<string>, model: string, rps: Roles): set<string> {
    set g | g in groups && Proper(g) && ModelOf(g) == model && RoleOf(g) in RoleNames(rps)
  }

  lemma RoleSetUpGrants(db: Db, i: Instance, role: string, perms: set<nat>, gr: Grant)
    requires Tidy(db) && Plain(i.model) && Plain(i.pk) && Plain(role)
    ensures gr in RoleSetUp(db, i, role, perms).grants <==>
              if gr.group == NameOf(i, role) then gr.of == i && gr.perm in perms else gr in db.grants
  {
    var name := NameOf(i, role);
    ParsePrinted(i.model, i.pk, role);
    var current := CurrentPerms(db, name);
    forall p ensures p in current <==> Grant(name, p, i) in db.grants {
      if Grant(name, p, i) in db.grants { assert Grant(name, p, i).perm in current; }
    }
  }

  lemma RoleSetUpTidy(db: Db, i: Instance, role: string, perms: set<nat>)
    requires Tidy(db) && Plain(i.model) && Plain(i.pk) && Plain(role)
    ensures Tidy(RoleSetUp(db, i, role, perms))
  {
    var name, db' := NameOf(i, role), RoleSetUp(db, i, role, perms);
    ParsePrinted(i.model, i.pk, role);
    forall gr | gr in db'.grants
      ensures gr.group in db'.groups && Proper(gr.group) && gr.of == InstanceOf(gr.group)
    {
      RoleSetUpGrants(db, i, role, perms, gr);
    }
  }

  lemma {:induction false} PermsForListed(rps: Roles, role: string)
    ensures PermsFor(rps, role).Some? <==> role in RoleNames(rps)
  {
    if rps != [] {
      PermsForListed(rps[1..], role);
      assert rps == [rps[0]] + rps[1..];
      assert forall rp | rp in rps :: rp == rps[0] || rp in rps[1..];
      assert role in RoleNames(rps) <==> rps[0].0 == role || role in RoleNames(rps[1..]);
    }
  }

  lemma {:induction false} RolesSetUpGrants(db: Db, i: Instance, rps: Roles, gr: Grant)
    requires Tidy(db) && Plain(i.model) && Plain(i.pk) && PlainRoles(rps)
    ensures Tidy(RolesSetUp(db, i, rps))
    ensures gr in RolesSetUp(db, i, rps).grants <==>
              if Proper(gr.group) && InstanceOf(gr.group) == i && PermsFor(rps, RoleOf(gr.group)).Some?
              then Listed(gr, rps) else gr in db.grants
    decreases |rps|
  {
    if rps != [] {
      var role, perms := rps[0].0, rps[0].1;
      assert rps[0] in rps && forall rp | rp in rps[1..] :: rp in rps;
      RoleSetUpTidy(db, i, role, perms);
      RoleSetUpGrants(db, i, role, perms, gr);
      RolesSetUpGrants(RoleSetUp(db, i, role, perms), i, rps[1..], gr);
      ParsePrinted(i.model, i.pk, role);
      if Proper(gr.group) && InstanceOf(gr.group) == i && RoleOf(gr.group) == role {
        PrintParsed(gr.group);
      }
      hide RoleSetUp, RolesSetUp, Tidy;
    }
  }

  lemma InstanceSetUpGrants(db: Db, i: Instance, rps: Roles, gr: Grant)
    requires Tidy(db) && Plain(i.model) && Plain(i.pk) && PlainRoles(rps)
    ensures Tidy(InstanceSetUp(db, i, rps))
    ensures gr in InstanceSetUp(db, i, rps).grants <==>
              if Proper(gr.group) && InstanceOf(gr.group) == i && PermsFor(rps, RoleOf(gr.group)).Some?
              then Listed(gr, rps) else gr in db.grants
  {
    RolesSetUpGrants(db, i, rps, gr);
  }

  /** Groups, links and flags after each form: what was there and the roles of the instances. */
  lemma {:induction false} RolesSetUpRows(db: Db, i: Instance, rps: Roles)
    ensures var db' := RolesSetUp(db, i, rps);
            && db'.groups == db.groups + RoleGroups({i}, rps)
            && db.links <= db'.links <= db.links + RoleLinks({i}, rps)
            && db'.upToDate == db.upToDate
            && db'.data.Keys == db.data.Keys + RoleGroups({i}, rps)
    decreases |rps|
  {
    if rps == [] {
      assert RoleGroups({i}, rps) == {} && RoleLinks({i}, rps) == {};
    } else {
      var role, rest := rps[0].0, rps[1..];
      RolesSetUpRows(RoleSetUp(db, i, role, rps[0].1), i, rest);
      MoreRoles(i, rps);
      hide RoleGroups, RoleLinks, NameOf;
    }
  }

  lemma MoreRoles(i: Instance, rps: Roles)
    requires rps != []
    ensures RoleGroups({i}, rps) == {NameOf(i, rps[0].0)} + RoleGroups({i}, rps[1..])
    ensures RoleLinks({i}, rps) == {(i, NameOf(i, rps[0].0))} + RoleLinks({i}, rps[1..])
  {
  }

  lemma MoreInstances(a: set<Instance>, b: set<Instance>, rps: Roles)
    ensures RoleGroups(a + b, rps) == RoleGroups(a, rps) + RoleGroups(b, rps)
    ensures RoleLinks(a + b, rps) == RoleLinks(a, rps) + RoleLinks(b, rps)
  {
    hide NameOf, RoleNames;
  }

  lemma UnionAssociates<T>(a: set<T>, b: set<T>, c: set<T>)
    ensures a + b + c == a + (b + c)
  {
  }

  lemma InstanceSetUpRows(db: Db, i: Instance, rps: Roles)
    ensures var db' := InstanceSetUp(db, i, rps);
            && db'.groups == db.groups + RoleGroups({i}, rps)
            && db'.links == db.links + RoleLinks({i}, rps)
            && db'.upToDate == db.upToDate + {i}
            && db'.data.Keys == db.data.Keys + RoleGroups({i}, rps)
  {
    RolesSetUpRows(db, i, rps);
    hide RoleGroups, RoleLinks, RolesSetUp;
  }

  lemma {:induction false} EachSetUpRows(db: Db, instances: seq<Instance>, rps: Roles)
    ensures var db' := EachSetUp(db, instances, rps);
            && db'.groups == db.groups + RoleGroups(Elements(instances), rps)
            && db'.links == db.links + RoleLinks(Elements(instances), rps)
            && db'.upToDate == db.upToDate + Elements(instances)
            && db'.data.Keys == db.data.Keys + RoleGroups(Elements(instances), rps)
    decreases |instances|
  {
    if instances == [] {
      assert RoleGroups({}, rps) == {} && RoleLinks({}, rps) == {};
    } else {
      var i, rest := instances[0], instances[1..];
      var db1 := InstanceSetUp(db, i, rps);
      assert EachSetUp(db, instances, rps) == EachSetUp(db1, rest, rps);
      assert instances == [i] + rest;
      assert Elements(instances) == {i} + Elements(rest);
      hide *;
      InstanceSetUpRows(db, i, rps);
      EachSetUpRows(db1, rest, rps);
      MoreInstances({i}, Elements(rest), rps);
      UnionAssociates(db.groups, RoleGroups({i}, rps), RoleGroups(Elements(rest), rps));
      UnionAssociates(db.links, RoleLinks({i}, rps), RoleLinks(Elements(rest), rps));
      UnionAssociates(db.upToDate, {i}, Elements(rest));
      UnionAssociates(db.data.Keys, RoleGroups({i}, rps), RoleGroups(Elements(rest), rps));
    }
  }

  lemma RoleGroupIff(g: string, instances: set<Instance>, rps: Roles)
    requires PlainRoles(rps) && forall i | i in instances :: Plain(i.model) && Plain(i.pk)
    ensures g in RoleGroups(instances, rps) <==>
              Proper(g) && InstanceOf(g) in instances && PermsFor(rps, RoleOf(g)).Some?
  {
    if g in RoleGroups(instances, rps) {
      var i, role :| i in instances && role in RoleNames(rps) && g == NameOf(i, role);
      ParsePrinted(i.model, i.pk, role);
      PermsForListed(rps, role);
    }
    if Proper(g) && InstanceOf(g) in instances && PermsFor(rps, RoleOf(g)).Some? {
      PermsForListed(rps, RoleOf(g));
      PrintParsed(g);
      assert g == NameOf(InstanceOf(g), RoleOf(g));
    }
  }

  lemma {:induction false} EachSetUpReassigns(db: Db, instances: seq<Instance>, rps: Roles)
    requires Tidy(db) && PlainRoles(rps) && forall i | i in instances :: Plain(i.model) && Plain(i.pk)
    ensures Tidy(EachSetUp(db, instances, rps))
    ensures Reassigned(db, EachSetUp(db, instances, rps), RoleGroups(Elements(instances), rps), rps)
    decreases |instances|
  {
    var rest := if instances == [] then [] else instances[1..];
    if instances != [] {
      var i := instances[0];
      assert i in instances && forall j | j in rest :: j in instances;
      var db1 := InstanceSetUp(db, i, rps);
      InstanceSetUpGrants(db, i, rps, Grant("", 0, i));
      EachSetUpReassigns(db1, rest, rps);
      assert Elements(instances) == {i} + Elements(rest) by {
        assert instances == [i] + rest;
      }
      forall gr: Grant
        ensures gr in EachSetUp(db, instances, rps).grants <==>
          if gr.group in RoleGroups(Elements(instances), rps) then Listed(gr, rps) else gr in db.grants
      {
        InstanceSetUpGrants(db, i, rps, gr);
        RoleGroupIff(gr.group, Elements(instances), rps);
        RoleGroupIff(gr.group, Elements(rest), rps);
      }
    } else {
      assert RoleGroups(Elements(instances), rps) == {};
    }
  }
}
