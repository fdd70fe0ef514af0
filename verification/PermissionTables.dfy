/** The permission code as it runs, on tables updated in place. */
module PermissionTables {
  import opened Common
  import opened GroupNames
  import opened Permissions
  import opened BulkPermissions

  class PermissionTable {
    var groups: set<string>
    var links: set<(Instance, string)>
    var data: map<string, Data>
    var grants: set<Grant>
    var upToDate: set<Instance>

    function Now(): Db
      reads this
    {
      Db(groups, links, data, grants, upToDate)
    }

    constructor ()
      ensures Now() == Db({}, {}, map[], {}, {}) && Tidy(Now())
    {
      groups, links, data, grants, upToDate := {}, {}, map[], {}, {};
    }

    method GetOrCreateGroup(i: Instance, role: string) returns (name: string)
      modifies this
      ensures Now() == WithGroup(old(Now()), i, role) && name == NameOf(i, role)
    {
      name := i.model + ":#" + i.pk + ":" + role;
      if name !in groups {
        groups := groups + {name};
        links := links + {(i, name)};
      }
      if name !in data {
        data := data[name := Data(role, Some(i))];
      }
      assert groups == old(groups) + {name};
    }

    method SetupGroupObjectPermissions(i: Instance, group: string, perms: set<nat>)
      modifies this
      ensures Now() == GroupSetUp(old(Now()), i, group, perms)
    {
      ghost var before := Now();
      var current := CurrentPerms(Now(), group);
      var toRemove := Rows(current - perms);
      var toAdd := Rows(perms - current);
      ghost var added := set p | p in perms - current :: Grant(group, p, i);
      ghost var removed := set p | p in current - perms :: Grant(group, p, i);
      for k := 0 to |toAdd|
        invariant Now() == before.(grants := before.grants + GrantsOf(group, toAdd[..k], i))
      {
        assert toAdd[..k + 1] == toAdd[..k] + [toAdd[k]];
        GrantsGrow(group, toAdd[..k], toAdd[k], i);
        grants := grants + {Grant(group, toAdd[k], i)};
      }
      assert toAdd[..|toAdd|] == toAdd;
      AllGrants(group, toAdd, perms - current, i);
      assert grants == before.grants + added;
      for k := 0 to |toRemove|
        invariant Now() == before.(grants := before.grants + added - GrantsOf(group, toRemove[..k], i))
      {
        assert toRemove[..k + 1] == toRemove[..k] + [toRemove[k]];
        GrantsGrow(group, toRemove[..k], toRemove[k], i);
        grants := grants - {Grant(group, toRemove[k], i)};
      }
      assert toRemove[..|toRemove|] == toRemove;
      AllGrants(group, toRemove, current - perms, i);
      assert GrantsOf(group, toRemove, i) == removed;
    }

    ghost function GrantsOf(group: string, perms: seq<nat>, i: Instance): set<Grant> {
      set p | p in perms :: Grant(group, p, i)
    }

    lemma GrantsGrow(group: string, perms: seq<nat>, p: nat, i: Instance)
      ensures GrantsOf(group, perms + [p], i) == GrantsOf(group, perms, i) + {Grant(group, p, i)}
    {
      assert p in perms + [p] && forall q | q in perms :: q in perms + [p];
    }

    lemma AllGrants(group: string, perms: seq<nat>, s: set<nat>, i: Instance)
      requires Elements(perms) == s
      ensures GrantsOf(group, perms, i) == set p | p in s :: Grant(group, p, i)
    {
      assert forall p :: p in perms <==> p in Elements(perms);
    }

    method SetupPermissions(i: Instance, rps: Roles)
      modifies this
      ensures Now() == InstanceSetUp(old(Now()), i, rps)
    {
      for k := 0 to |rps|
        invariant RolesSetUp(Now(), i, rps[k..]) == RolesSetUp(old(Now()), i, rps)
      {
        assert rps[k..][0] == rps[k] && rps[k..][1..] == rps[k + 1..];
        var name := GetOrCreateGroup(i, rps[k].0);
        SetupGroupObjectPermissions(i, name, rps[k].1);
      }
      links := links + RoleLinks({i}, rps);
      upToDate := upToDate + {i};
    }

    /** Groups, links and group data of all live instances. */
    method PrepareGroups(model: string, live: set<Instance>, rps: Roles)
      modifies this
      ensures Now() == BulkPrepared(old(Now()), model, live, rps)
    {
      groups := groups + RoleGroups(live, rps);
      links := links + RoleLinks(live, rps);
      data := data + map g | g in groups && StartsWith(g, model + ":#") ::
                       Data(RoleOf(g), Some(Instance(model, PkOf(g))));
    }

    method ReassignRole(model: string, role: string, perms: set<nat>)
      modifies this
      ensures Now() == BulkRole(old(Now()), model, role, perms)
    {
      var created := set g, p | g in data && data[g].role == role && data[g].of.Some?
                                && data[g].of.value.model == model && p in perms
                     :: Grant(g, p, Instance(model, data[g].of.value.pk));
      grants := set gr | gr in grants && !(gr.of.model == model && gr.group in data
                                           && data[gr.group].role == role && gr.perm !in perms);
      grants := grants + created;
    }

    method BatchReassignPermissions(model: string, live: set<Instance>, rps: Roles)
      modifies this
      ensures Now() == BulkReassigned(old(Now()), model, live, rps)
      ensures old(Tidy(Now())) && Plain(model) && PlainInstances(model, live) && PlainRoles(rps) ==> Tidy(Now())
    {
      if Tidy(Now()) && Plain(model) && PlainInstances(model, live) && PlainRoles(rps) {
        BulkReassigns(Now(), model, live, rps);
      }
      hide BulkPrepared, BulkRole, Tidy;
      ghost var before := Now();
      upToDate := upToDate - live;
      FlagsAside(before, model, live, rps, upToDate);
      PrepareGroups(model, live, rps);
      ghost var prepared := Now();
      for k := 0 to |rps|
        invariant BulkRoles(Now(), model, rps[k..]) == BulkRoles(prepared, model, rps)
      {
        assert rps[k..][0] == rps[k] && rps[k..][1..] == rps[k + 1..];
        ReassignRole(model, rps[k].0, rps[k].1);
      }
      upToDate := upToDate + live;
    }
  }

  /** The bulk statements do not look at the flags. */
  lemma FlagsAside(db: Db, model: string, live: set<Instance>, rps: Roles, flags: set<Instance>)
    ensures BulkRoles(BulkPrepared(db.(upToDate := flags), model, live, rps), model, rps)
         == BulkRoles(BulkPrepared(db, model, live, rps), model, rps).(upToDate := flags)
    ensures BulkRoles(BulkPrepared(db, model, live, rps), model, rps).upToDate == db.upToDate
  {
    RolesFlagsAside(BulkPrepared(db, model, live, rps), model, rps, flags);
    BulkRolesRows(BulkPrepared(db, model, live, rps), model, rps);
  }

  lemma {:induction false} RolesFlagsAside(db: Db, model: string, rps: Roles, flags: set<Instance>)
    ensures BulkRoles(db.(upToDate := flags), model, rps) == BulkRoles(db, model, rps).(upToDate := flags)
    decreases |rps|
  {
    if rps != [] { RolesFlagsAside(BulkRole(db, model, rps[0].0, rps[0].1), model, rps[1..], flags); }
  }
}
