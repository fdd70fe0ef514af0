/** The team requests as they run, on membership tables updated in place. */
module RoleTables {
  import opened Common
  import opened Roles
  import opened RoleCoherence

  class RoleTable {
    var holds: set<Hold>
    var links: set<Hold>
    var private: set<nat>
    const reviewerOnly: set<nat>

    function Now(): Db
      reads this
    {
      Db(holds, links, private)
    }

    constructor (reviewerOnly: set<nat>)
      ensures Now() == Db({}, {}, {}) && this.reviewerOnly == reviewerOnly
      ensures LinksInPlace(Now()) && Coherent(Now())
    {
      this.reviewerOnly := reviewerOnly;
      holds, links, private := {}, {}, {};
    }

    // ----- a project's team -----

    method SetRoleGroupMembers(r: Role)
      modifies this`holds
      ensures Now() == Resynced(old(Now()), r)
    {
      var users := set l, h | l in links && l.1 == r && h in holds && h.1.OfPeople? && h.1.people == l.0 :: (h.0, r);
      holds := (set h | h in holds && h.1 != r) + users;
    }

    method AddUser(u: nat, p: nat, role: ProjectRole)
      modifies this
      ensures Now() == UserAdded(old(Now()), p, u, role, reviewerOnly)
    {
      if role == Reviewers && !(exists h :: h in holds && h.1 == OfProject(p, Reviewers)) && p in reviewerOnly {
        private := private + {p};
      }
      holds := set h | h in holds && !(h.0 == u && OfThisProject(p, h.1));
      holds := holds + {(u, OfProject(p, role))};
    }

    method AddPeopleGroup(people: nat, p: nat, role: ProjectRole)
      modifies this
      ensures Now() == GroupAdded(old(Now()), p, people, role)
    {
      links := set l | l in links && !(l.0 == people && OfThisProject(p, l.1));
      links := links + {(people, OfProject(p, role))};
      SetRoleGroupMembers(OfProject(p, role));
    }

    method AddUsers(us: seq<nat>, p: nat, role: ProjectRole)
      modifies this
      ensures Now() == UsersAdded(old(Now()), p, us, role, reviewerOnly)
    {
      for i := 0 to |us|
        invariant Now() == UsersAdded(old(Now()), p, us[..i], role, reviewerOnly)
      {
        assert us[..i + 1][..i] == us[..i];
        AddUser(us[i], p, role);
      }
      assert us[..|us|] == us;
    }

    method AddPeopleGroups(gs: seq<nat>, p: nat, role: ProjectRole)
      modifies this
      ensures Now() == GroupsAdded(old(Now()), p, gs, role)
    {
      for i := 0 to |gs|
        invariant Now() == GroupsAdded(old(Now()), p, gs[..i], role)
      {
        assert gs[..i + 1][..i] == gs[..i];
        AddPeopleGroup(gs[i], p, role);
      }
      assert gs[..|gs|] == gs;
    }

    method AddTeam(p: nat, req: Request)
      modifies this
      ensures Now() == TeamAdded(old(Now()), p, req, reviewerOnly)
    {
      AddUsers(req.owners, p, Owners);
      AddUsers(req.reviewers, p, Reviewers);
      AddUsers(req.members, p, Members);
      AddPeopleGroups(req.ownerGroups, p, OwnerGroups);
      AddPeopleGroups(req.reviewerGroups, p, ReviewerGroups);
      AddPeopleGroups(req.memberGroups, p, MemberGroups);
    }

    method RemoveUsers(us: seq<nat>, p: nat)
      modifies this
      ensures Now() == UsersDropped(old(Now()), p, us)
    {
      for i := 0 to |us|
        invariant Now() == UsersDropped(old(Now()), p, us[..i])
      {
        assert us[..i + 1][..i] == us[..i];
        holds := set h | h in holds && !(h.0 == us[i] && OfThisProject(p, h.1));
      }
      assert us[..|us|] == us;
    }

    method RemovePeopleGroups(gs: seq<nat>, p: nat)
      modifies this
      ensures Now() == ProjectResynced(GroupsUnlinked(old(Now()), p, gs), p)
    {
      for i := 0 to |gs|
        invariant Now() == GroupsUnlinked(old(Now()), p, gs[..i])
      {
        assert gs[..i + 1][..i] == gs[..i];
        links := set l | l in links && !(l.0 == gs[i] && OfThisProject(p, l.1));
      }
      assert gs[..|gs|] == gs;
      SetRoleGroupMembers(OfProject(p, MemberGroups));
      SetRoleGroupMembers(OfProject(p, OwnerGroups));
      SetRoleGroupMembers(OfProject(p, ReviewerGroups));
    }

    method RemoveTeam(req: Removal) returns (ok: bool)
      modifies this
      ensures ok <==> !Refused(old(Now()), req)
      ensures Now() == RemovalStep(old(Now()), req)
    {
      var p := req.project;
      var us: seq<nat> := [];
      if req.users.Some? {
        var owner := OfProject(p, Owners);
        if forall h :: h in holds && h.1 == owner ==> h.0 in req.users.value {
          forall u: nat | (u, owner) in holds ensures u in req.users.value {
            assert (u, owner).1 == owner && (u, owner).0 == u;
          }
          return false;
        }
        us := InProject(Now(), p, req.users.value);
      }
      var gs := GroupsInProject(Now(), p, req.groups);
      RemoveUsers(us, p);
      RemovePeopleGroups(gs, p);
      return true;
    }

    // ----- a people group's team -----

    method AddMembers(people: nat, us: seq<nat>, role: TeamRole)
      modifies this
      ensures Now() == MembersAdded(old(Now()), people, us, role)
    {
      for i := 0 to |us|
        invariant Now() == MembersAdded(old(Now()), people, us[..i], role)
      {
        assert us[..i + 1][..i] == us[..i];
        holds := set h | h in holds && !(h.0 == us[i] && OfThisPeople(Now(), people, h.1));
        holds := holds + {(us[i], OfPeople(people, role))};
      }
      assert us[..|us|] == us;
    }

    method DropMembers(people: nat, us: seq<nat>)
      modifies this
      ensures Now() == MembersDropped(old(Now()), people, us)
    {
      for i := 0 to |us|
        invariant Now() == MembersDropped(old(Now()), people, us[..i])
      {
        assert us[..i + 1][..i] == us[..i];
        holds := set h | h in holds && !(h.0 == us[i] && OfThisPeople(Now(), people, h.1));
      }
      assert us[..|us|] == us;
    }

    method SetRoleGroupsMembers(people: nat)
      requires LinksInPlace(Now())
      modifies this`holds
      ensures Now() == ResyncedLinks(old(Now()), people)
    {
      var roles := Rows(LinkedRoles(Now(), people));
      ghost var before := Now();
      forall r | r in roles ensures (people, r) in before.links {
        assert r in Elements(roles);
        var l :| l in before.links && l.0 == people && l.1 == r;
        assert l == (people, r);
      }
      for i := 0 to |roles|
        invariant links == before.links && private == before.private
        invariant forall u: nat, r: Role ::
          (u, r) in holds <==> if r in roles[..i] then InLinkedTeam(before, u, r) else (u, r) in before.holds
      {
        ghost var db := Now();
        OneMoreRole(before, db, people, roles[..i], roles[i]);
        assert roles[..i + 1] == roles[..i] + [roles[i]];
        SetRoleGroupMembers(roles[i]);
      }
      assert roles[..|roles|] == roles;
      forall r: Role ensures r in roles <==> (people, r) in before.links {
        assert r in roles <==> r in Elements(roles);
        if (people, r) in before.links { assert (people, r).1 in LinkedRoles(before, people); }
      }
      ResyncedLinksExact(before, people);
      assert LinkedResynced(before, Now(), people);
    }

    lemma OneMoreRole(before: Db, db: Db, people: nat, done: seq<Role>, role: Role)
      requires LinksInPlace(before) && (people, role) in before.links
      requires db.links == before.links && forall r | r in done :: (people, r) in before.links
      requires forall u: nat, r: Role ::
        (u, r) in db.holds <==> if r in done then InLinkedTeam(before, u, r) else (u, r) in before.holds
      ensures forall u: nat, r: Role ::
        (u, r) in Resynced(db, role).holds <==>
          if r in done + [role] then InLinkedTeam(before, u, r) else (u, r) in before.holds
    {
    }

    method AddTeamMembers(people: nat, leaders: seq<nat>, managers: seq<nat>, members: seq<nat>)
      requires LinksInPlace(Now())
      modifies this
      ensures Now() == TeamStep(old(Now()), TeamOp.AddMembers(people, leaders, managers, members))
    {
      TeamMembersAddedTouches(Now(), people, leaders, managers, members);
      AddMembers(people, leaders, Leaders);
      AddMembers(people, managers, Managers);
      AddMembers(people, members, TeamMembers);
      SetRoleGroupsMembers(people);
    }

    method RemoveTeamMembers(people: nat, us: seq<nat>)
      requires LinksInPlace(Now())
      modifies this
      ensures Now() == TeamStep(old(Now()), TeamOp.DropMembers(people, us))
    {
      MembersDroppedTouches(Now(), people, us);
      DropMembers(people, us);
      SetRoleGroupsMembers(people);
    }
  }
}
