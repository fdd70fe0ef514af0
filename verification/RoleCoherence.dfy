/** When the cached members of `*_groups` roles are exact, and what keeps a project owned. */
module RoleCoherence {
  import opened Common
  import opened Roles

  // ----- requests on a people group's team -----

  function MemberAdded(db: Db, people: nat, u: nat, role: TeamRole): Db {
    var db1 := DroppedFromPeople(db, u, people);
    db1.(holds := db1.holds + {(u, OfPeople(people, role))})
  }

  function MembersAdded(db: Db, people: nat, us: seq<nat>, role: TeamRole): Db {
    if us == [] then db
    else MemberAdded(MembersAdded(db, people, us[..|us| - 1], role), people, us[|us| - 1], role)
  }

  function MembersDropped(db: Db, people: nat, us: seq<nat>): Db {
    if us == [] then db
    else DroppedFromPeople(MembersDropped(db, people, us[..|us| - 1]), us[|us| - 1], people)
  }

  function LinkedRoles(db: Db, people: nat): set<Role> {
    set l | l in db.links && l.0 == people :: l.1
  }

  /** `PeopleGroup.set_role_groups_members`: every role the group is linked to, in any order. */
  ghost predicate LinkedResynced(db: Db, db': Db, people: nat) {
    && db'.links == db.links && db'.private == db.private
    && forall u: nat, r: Role ::
         (u, r) in db'.holds <==> if (people, r) in db.links then InLinkedTeam(db, u, r) else (u, r) in db.holds
  }

  function ResyncedLinks(db: Db, people: nat): Db {
    db.(holds :=
      (set h | h in db.holds && (people, h.1) !in db.links) +
      (set l, h | l in db.links && (people, l.1) in db.links && h in db.holds
                  && h.1.OfPeople? && h.1.people == l.0 :: (h.0, l.1)))
  }

  lemma ResyncedLinksExact(db: Db, people: nat)
    ensures LinkedResynced(db, ResyncedLinks(db, people), people)
    ensures forall db' | LinkedResynced(db, db', people) :: db' == ResyncedLinks(db, people)
  {
    var db1 := ResyncedLinks(db, people);
    forall u: nat, r: Role
      ensures (u, r) in db1.holds <==> if (people, r) in db.links then InLinkedTeam(db, u, r) else (u, r) in db.holds
    {
      if (people, r) in db.links {
        if InLinkedTeam(db, u, r) {
          var g: nat :| (g, r) in db.links && InTeam(db, u, g);
          var q :| (u, OfPeople(g, q)) in db.holds;
          var l, h: Hold := (g, r), (u, OfPeople(g, q));
          assert (h.0, l.1) in db1.holds;
        }
        if (u, r) in db1.holds {
          var l, h: Hold :| l in db.links && (people, l.1) in db.links && h in db.holds && h.1.OfPeople?
                            && h.1.people == l.0 && (h.0, l.1) == (u, r);
          assert h == (u, OfPeople(l.0, h.1.teamRole)) && l == (l.0, r);
          assert InTeam(db, u, l.0);
        }
      }
    }
    forall db' | LinkedResynced(db, db', people) ensures db' == db1 {
      forall h: Hold ensures h in db'.holds <==> h in db1.holds {
        assert h == (h.0, h.1);
      }
    }
  }

  /** The membership changes of one request touch the roles of one people group only. */
  ghost predicate TouchesOnly(db: Db, db': Db, people: nat) {
    && db'.links == db.links && db'.private == db.private
    && forall u: nat, r: Role | !OfThisPeople(db, people, r) :: (u, r) in db.holds <==> (u, r) in db'.holds
  }

  lemma {:induction false} MembersAddedTouches(db: Db, people: nat, us: seq<nat>, role: TeamRole)
    ensures TouchesOnly(db, MembersAdded(db, people, us, role), people)
  {
    if us != [] { MembersAddedTouches(db, people, us[..|us| - 1], role); }
  }

  lemma {:induction false} MembersDroppedTouches(db: Db, people: nat, us: seq<nat>)
    ensures TouchesOnly(db, MembersDropped(db, people, us), people)
  {
    if us != [] { MembersDroppedTouches(db, people, us[..|us| - 1]); }
  }

  function TeamMembersAdded(db: Db, people: nat, leaders: seq<nat>, managers: seq<nat>, members: seq<nat>): Db {
    MembersAdded(MembersAdded(MembersAdded(db, people, leaders, Leaders), people, managers, Managers),
                 people, members, TeamMembers)
  }

  lemma TeamMembersAddedTouches(db: Db, people: nat, leaders: seq<nat>, managers: seq<nat>, members: seq<nat>)
    ensures TouchesOnly(db, TeamMembersAdded(db, people, leaders, managers, members), people)
  {
    hide MembersAdded;
    var d1 := MembersAdded(db, people, leaders, Leaders);
    var d2 := MembersAdded(d1, people, managers, Managers);
    MembersAddedTouches(db, people, leaders, Leaders);
    MembersAddedTouches(d1, people, managers, Managers);
    MembersAddedTouches(d2, people, members, TeamMembers);
  }

  /** Cached roles stay exact under any change of a people group's members, and the roles the
      group is linked to become exact whatever they were. */
  lemma TeamChangeKeepsCaches(db: Db, db1: Db, db2: Db, people: nat, r: Role)
    requires LinksInPlace(db) && TouchesOnly(db, db1, people) && LinkedResynced(db1, db2, people)
    requires r.OfProject? && !IsDirect(r.role) && (Cached(db, r) || (people, r) in db.links)
    ensures Cached(db2, r)
  {
  }

  /** A people group's add or remove request keeps every project coherent. */
  lemma TeamRequestsKeepCoherence(db: Db, db1: Db, db2: Db, people: nat)
    requires LinksInPlace(db) && Coherent(db)
    requires TouchesOnly(db, db1, people) && LinkedResynced(db1, db2, people)
    ensures Coherent(db2) && LinksInPlace(db2)
  {
    hide TouchesOnly, LinkedResynced, Cached;
    forall p: nat ensures ProjectCoherent(db2, p) {
      assert ProjectCoherent(db, p);
      forall r: ProjectRole | !IsDirect(r) ensures Cached(db2, OfProject(p, r)) {
        TeamChangeKeepsCaches(db, db1, db2, people, OfProject(p, r));
      }
    }
    assert db2.links == db.links by { SameLinks(db, db1, db2, people); }
  }

  lemma SameLinks(db: Db, db1: Db, db2: Db, people: nat)
    requires TouchesOnly(db, db1, people) && LinkedResynced(db1, db2, people)
    ensures db2.links == db.links
  {
  }

  /** It gives nobody a direct role in a project, and takes none away. */
  lemma TeamRequestsKeepDirect(db: Db, db1: Db, db2: Db, people: nat, u: nat, p: nat)
    requires LinksInPlace(db) && TouchesOnly(db, db1, people) && LinkedResynced(db1, db2, people)
    ensures SameDirect(db, db2, u, p)
  {
  }

  // ----- team roles after an add request -----

  ghost predicate OnlyTeamRole(db: Db, u: nat, people: nat, role: TeamRole) {
    forall r: TeamRole :: (u, OfPeople(people, r)) in db.holds <==> r == role
  }

  ghost predicate SameTeamRoles(db: Db, db': Db, u: nat, people: nat) {
    forall r: TeamRole :: (u, OfPeople(people, r)) in db.holds <==> (u, OfPeople(people, r)) in db'.holds
  }

  lemma {:induction false} MembersAddedRoles(db: Db, people: nat, us: seq<nat>, role: TeamRole, u: nat)
    ensures var db' := MembersAdded(db, people, us, role);
            if u in us then OnlyTeamRole(db', u, people, role) else SameTeamRoles(db, db', u, people)
  {
    if us != [] {
      MembersAddedRoles(db, people, us[..|us| - 1], role, u);
      assert us == us[..|us| - 1] + [us[|us| - 1]];
    }
  }

  /** Each listed user holds exactly one role of the people group, the last one listed;
      the others keep theirs. */
  lemma TeamMembersAddedRoles(
      db: Db, people: nat, leaders: seq<nat>, managers: seq<nat>, members: seq<nat>, db2: Db, u: nat)
    requires LinksInPlace(db)
    requires LinkedResynced(TeamMembersAdded(db, people, leaders, managers, members), db2, people)
    ensures if u in members then OnlyTeamRole(db2, u, people, TeamMembers)
            else if u in managers then OnlyTeamRole(db2, u, people, Managers)
            else if u in leaders then OnlyTeamRole(db2, u, people, Leaders)
            else SameTeamRoles(db, db2, u, people)
  {
    var d1 := MembersAdded(db, people, leaders, Leaders);
    var d2 := MembersAdded(d1, people, managers, Managers);
    MembersAddedRoles(db, people, leaders, Leaders, u);
    MembersAddedRoles(d1, people, managers, Managers, u);
    MembersAddedRoles(d2, people, members, TeamMembers, u);
    TeamMembersAddedTouches(db, people, leaders, managers, members);
    assert forall r: TeamRole :: (people, OfPeople(people, r)) !in db.links;
    hide MembersAdded;
  }

  // ----- requests on a project's team -----

  /** A removal request makes the three cached roles of its project exact from any state. */
  lemma RemovalMakesCoherent(db: Db, p: nat)
    ensures ProjectCoherent(ProjectResynced(db, p), p)
  {
    var d1 := Resynced(db, OfProject(p, MemberGroups));
    var d2 := Resynced(d1, OfProject(p, OwnerGroups));
    var d3 := Resynced(d2, OfProject(p, ReviewerGroups));
    ResyncedCached(db, OfProject(p, MemberGroups));
    ResyncedCached(d1, OfProject(p, OwnerGroups));
    ResyncedCached(d2, OfProject(p, ReviewerGroups));
    CachedElsewhere(d1, OfProject(p, OwnerGroups), OfProject(p, MemberGroups));
    CachedElsewhere(d2, OfProject(p, ReviewerGroups), OfProject(p, MemberGroups));
    CachedElsewhere(d2, OfProject(p, ReviewerGroups), OfProject(p, OwnerGroups));
    hide Cached, Resynced;
    forall r: ProjectRole | !IsDirect(r) ensures Cached(d3, OfProject(p, r)) {
      assert r == MemberGroups || r == OwnerGroups || r == ReviewerGroups;
    }
  }

  lemma CachedElsewhere(db: Db, r: Role, other: Role)
    requires r.OfProject? && other != r && Cached(db, other)
    ensures Cached(Resynced(db, r), other)
  {
  }

  /** A user of a cached role who would remain in it without this people group. */
  ghost predicate HeldByOthers(db: Db, u: nat, r: Role, people: nat) {
    exists other: nat :: other != people && (other, r) in db.links && InTeam(db, u, other)
  }

  ghost predicate Replaceable(db: Db, people: nat, r: Role) {
    (people, r) in db.links ==> forall u: nat | InTeam(db, u, people) :: HeldByOthers(db, u, r, people)
  }

  /** Adding a people group makes the role it goes to exact from any state. The role it leaves
      is not synchronised: the project stays coherent exactly when everyone in the group is
      also in another group of that role. */
  lemma GroupAddedCoherence(db: Db, p: nat, people: nat, role: ProjectRole)
    requires !IsDirect(role)
    ensures Cached(GroupAdded(db, p, people, role), OfProject(p, role))
    ensures ProjectCoherent(db, p) ==>
              (ProjectCoherent(GroupAdded(db, p, people, role), p) <==>
               forall r: ProjectRole | !IsDirect(r) && r != role :: Replaceable(db, people, OfProject(p, r)))
  {
    var db1 := Unlinked(db, people, p);
    var db2 := db1.(links := db1.links + {(people, OfProject(p, role))});
    var db3 := GroupAdded(db, p, people, role);
    ResyncedCached(db2, OfProject(p, role));
    if ProjectCoherent(db, p) {
      forall r: ProjectRole | !IsDirect(r) && r != role
        ensures Cached(db3, OfProject(p, r)) <==> Replaceable(db, people, OfProject(p, r))
      {
        LeftRole(db, db3, p, people, OfProject(p, r));
      }
      hide Cached, Replaceable, GroupAdded;
    }
  }

  lemma LeftRole(db: Db, db': Db, p: nat, people: nat, r: Role)
    requires OfThisProject(p, r) && Cached(db, r)
    requires forall g: nat :: (g, r) in db'.links <==> (g, r) in db.links && g != people
    requires forall u: nat, g: nat :: InTeam(db', u, g) <==> InTeam(db, u, g)
    requires forall u: nat :: (u, r) in db'.holds <==> (u, r) in db.holds
    ensures Cached(db', r) <==> Replaceable(db, people, r)
  {
    forall u: nat ensures InLinkedTeam(db', u, r) <==> HeldByOthers(db, u, r, people) {
      if HeldByOthers(db, u, r, people) {
        var g: nat :| g != people && (g, r) in db.links && InTeam(db, u, g);
        assert (g, r) in db'.links && InTeam(db', u, g);
      }
    }
    forall u: nat ensures (u, r) in db.holds <==>
      HeldByOthers(db, u, r, people) || ((people, r) in db.links && InTeam(db, u, people)) {
    }
    if Cached(db', r) && (people, r) in db.links {
      forall u: nat | InTeam(db, u, people) ensures HeldByOthers(db, u, r, people) {
        assert (u, r) in db.holds;
      }
    }
  }

  /** Giving users a direct role takes them out of the project's cached roles too: the project
      stays coherent exactly when none of them was in a cached role. */
  lemma UsersAddedCoherence(db: Db, p: nat, us: seq<nat>, role: ProjectRole, reviewerOnly: set<nat>)
    requires IsDirect(role) && ProjectCoherent(db, p)
    ensures ProjectCoherent(UsersAdded(db, p, us, role, reviewerOnly), p) <==>
              forall u: nat, r: ProjectRole | u in us && !IsDirect(r) :: (u, OfProject(p, r)) !in db.holds
  {
    var db' := UsersAdded(db, p, us, role, reviewerOnly);
    forall v: nat, r: Role | !(r.OfProject? && IsDirect(r.role))
      ensures db'.links == db.links
      ensures (v, r) in db'.holds <==> (v, r) in db.holds && !(v in us && OfThisProject(p, r))
    {
      UsersAddedElsewhere(db, p, us, role, reviewerOnly, v, r);
    }
    assert forall v: nat, g: nat :: InTeam(db', v, g) <==> InTeam(db, v, g);
    assert db'.links == db.links by { UsersAddedElsewhere(db, p, us, role, reviewerOnly, 0, OfProject(p, OwnerGroups)); }
    hide UsersAdded;
    forall r: ProjectRole | !IsDirect(r)
      ensures Cached(db', OfProject(p, r)) <==> forall u: nat | u in us :: (u, OfProject(p, r)) !in db.holds
    {
      var q := OfProject(p, r);
      assert Cached(db, q);
      assert forall v: nat :: InLinkedTeam(db', v, q) <==> InLinkedTeam(db, v, q);
    }
  }

  // ----- owners -----

  ghost predicate HasOwner(db: Db, p: nat) {
    exists u: nat :: (u, OfProject(p, Owners)) in db.holds
  }

  /** The owners of a project after an add request; it may leave none. */
  lemma OwnersAfterAdd(db: Db, p: nat, req: Request, reviewerOnly: set<nat>, u: nat)
    ensures (u, OfProject(p, Owners)) in TeamAdded(db, p, req, reviewerOnly).holds <==>
              match LastListed(req, u)
              case Some(role) => role == Owners
              case None => (u, OfProject(p, Owners)) in db.holds
  {
    TeamAddedDirect(db, p, req, reviewerOnly, u);
    assert IsDirect(Owners);
  }

  /** A removal request; `users` is absent when the request does not list any. */
  datatype Removal = Removal(project: nat, users: Option<seq<nat>>, groups: seq<nat>)

  /** `validate_users` refuses a list that names every owner, also when there is none. */
  ghost predicate Refused(db: Db, req: Removal) {
    req.users.Some? &&
    forall u: nat | (u, OfProject(req.project, Owners)) in db.holds :: u in req.users.value
  }

  /** The users who hold a role in the project, as `validate_users` keeps them. */
  function InProject(db: Db, p: nat, us: seq<nat>): (r: seq<nat>)
    ensures forall u | u in r :: u in us
  {
    if us == [] then []
    else
      var rest := InProject(db, p, us[1..]);
      if exists h :: h in db.holds && h.0 == us[0] && OfThisProject(p, h.1) then [us[0]] + rest else rest
  }

  function GroupsInProject(db: Db, p: nat, gs: seq<nat>): seq<nat> {
    if gs == [] then []
    else
      var rest := GroupsInProject(db, p, gs[1..]);
      if exists l :: l in db.links && l.0 == gs[0] && OfThisProject(p, l.1) then [gs[0]] + rest else rest
  }

  ghost function RemovalStep(db: Db, req: Removal): Db {
    if Refused(db, req) then db
    else
      var us := if req.users.Some? then InProject(db, req.project, req.users.value) else [];
      TeamRemoved(db, req.project, us, GroupsInProject(db, req.project, req.groups))
  }

  ghost function RemovalRun(db: Db, reqs: seq<Removal>): Db
    decreases |reqs|
  {
    if reqs == [] then db else RemovalRun(RemovalStep(db, reqs[0]), reqs[1..])
  }

  lemma {:induction false} UsersDroppedHolds(db: Db, p: nat, us: seq<nat>, u: nat, r: Role)
    ensures (u, r) in UsersDropped(db, p, us).holds <==> (u, r) in db.holds && !(u in us && OfThisProject(p, r))
  {
    if us != [] {
      UsersDroppedHolds(db, p, us[..|us| - 1], u, r);
      assert us == us[..|us| - 1] + [us[|us| - 1]];
    }
  }

  lemma {:induction false} GroupsUnlinkedHolds(db: Db, p: nat, gs: seq<nat>)
    ensures GroupsUnlinked(db, p, gs).holds == db.holds
  {
    if gs != [] { GroupsUnlinkedHolds(db, p, gs[..|gs| - 1]); }
  }

  /** Removal takes direct roles of this project from the listed users, and nothing else. */
  lemma TeamRemovedDirect(db: Db, p: nat, us: seq<nat>, gs: seq<nat>, u: nat, q: nat, r: ProjectRole)
    requires IsDirect(r)
    ensures (u, OfProject(q, r)) in TeamRemoved(db, p, us, gs).holds <==>
              (u, OfProject(q, r)) in db.holds && !(u in us && q == p)
  {
    var d := GroupsUnlinked(UsersDropped(db, p, us), p, gs);
    UsersDroppedHolds(db, p, us, u, OfProject(q, r));
    GroupsUnlinkedHolds(UsersDropped(db, p, us), p, gs);
    var d1 := Resynced(d, OfProject(p, MemberGroups));
    var d2 := Resynced(d1, OfProject(p, OwnerGroups));
    ResyncedHolds(d, OfProject(p, MemberGroups), u, OfProject(q, r));
    ResyncedHolds(d1, OfProject(p, OwnerGroups), u, OfProject(q, r));
    ResyncedHolds(d2, OfProject(p, ReviewerGroups), u, OfProject(q, r));
  }

  lemma RemovalKeepsOwner(db: Db, req: Removal, q: nat)
    requires HasOwner(db, q)
    ensures HasOwner(RemovalStep(db, req), q)
  {
    if !Refused(db, req) {
      var p := req.project;
      var us := if req.users.Some? then InProject(db, p, req.users.value) else [];
      var u: nat :| (u, OfProject(q, Owners)) in db.holds && (q == p ==> u !in us);
      TeamRemovedDirect(db, p, us, GroupsInProject(db, p, req.groups), u, q, Owners);
    }
  }

  /** Over any run of removal requests, a project that has an owner keeps one. */
  lemma {:induction false} RemovalRunKeepsOwner(db: Db, reqs: seq<Removal>, q: nat)
    requires HasOwner(db, q)
    ensures HasOwner(RemovalRun(db, reqs), q)
    decreases |reqs|
  {
    if reqs != [] {
      RemovalKeepsOwner(db, reqs[0], q);
      RemovalRunKeepsOwner(RemovalStep(db, reqs[0]), reqs[1..], q);
    }
  }

  // ----- runs -----

  datatype TeamOp =
    | AddMembers(people: nat, leaders: seq<nat>, managers: seq<nat>, members: seq<nat>)
    | DropMembers(people: nat, users: seq<nat>)
    | RemoveFromProject(removal: Removal)

  ghost function TeamStep(db: Db, op: TeamOp): Db {
    match op
    case AddMembers(people, leaders, managers, members) =>
      ResyncedLinks(TeamMembersAdded(db, people, leaders, managers, members), people)
    case DropMembers(people, users) => ResyncedLinks(MembersDropped(db, people, users), people)
    case RemoveFromProject(removal) => RemovalStep(db, removal)
  }

  ghost function TeamRun(db: Db, ops: seq<TeamOp>): Db
    decreases |ops|
  {
    if ops == [] then db else TeamRun(TeamStep(db, ops[0]), ops[1..])
  }

  lemma {:induction false} GroupsUnlinkedLinks(db: Db, p: nat, gs: seq<nat>, g: nat, r: Role)
    ensures (g, r) in GroupsUnlinked(db, p, gs).links <==> (g, r) in db.links && !(g in gs && OfThisProject(p, r))
  {
    if gs != [] {
      GroupsUnlinkedLinks(db, p, gs[..|gs| - 1], g, r);
      assert gs == gs[..|gs| - 1] + [gs[|gs| - 1]];
    }
  }

  lemma {:induction false} UsersDroppedLinks(db: Db, p: nat, us: seq<nat>)
    ensures UsersDropped(db, p, us).links == db.links
  {
    if us != [] { UsersDroppedLinks(db, p, us[..|us| - 1]); }
  }

  lemma TeamRemovedHolds(db: Db, p: nat, us: seq<nat>, gs: seq<nat>, u: nat, r: Role)
    requires !OfThisProject(p, r)
    ensures (u, r) in TeamRemoved(db, p, us, gs).holds <==> (u, r) in db.holds
  {
    var d := GroupsUnlinked(UsersDropped(db, p, us), p, gs);
    UsersDroppedHolds(db, p, us, u, r);
    GroupsUnlinkedHolds(UsersDropped(db, p, us), p, gs);
    var d1 := Resynced(d, OfProject(p, MemberGroups));
    var d2 := Resynced(d1, OfProject(p, OwnerGroups));
    ResyncedHolds(d, OfProject(p, MemberGroups), u, r);
    ResyncedHolds(d1, OfProject(p, OwnerGroups), u, r);
    ResyncedHolds(d2, OfProject(p, ReviewerGroups), u, r);
  }

  lemma TeamRemovedElsewhere(db: Db, p: nat, us: seq<nat>, gs: seq<nat>, q: nat)
    requires q != p && ProjectCoherent(db, q)
    ensures ProjectCoherent(TeamRemoved(db, p, us, gs), q)
  {
    var db' := TeamRemoved(db, p, us, gs);
    forall r: ProjectRole | !IsDirect(r) ensures Cached(db', OfProject(q, r)) {
      var role := OfProject(q, r);
      assert Cached(db, role);
      forall u: nat ensures (u, role) in db'.holds <==> InLinkedTeam(db', u, role) {
        TeamRemovedHolds(db, p, us, gs, u, role);
        forall g: nat ensures (g, role) in db'.links <==> (g, role) in db.links {
          UsersDroppedLinks(db, p, us);
          GroupsUnlinkedLinks(UsersDropped(db, p, us), p, gs, g, role);
        }
        forall g: nat ensures InTeam(db', u, g) <==> InTeam(db, u, g) {
          forall t: TeamRole ensures (u, OfPeople(g, t)) in db'.holds <==> (u, OfPeople(g, t)) in db.holds {
            TeamRemovedHolds(db, p, us, gs, u, OfPeople(g, t));
          }
        }
      }
    }
  }

  lemma TeamRemovedLinksInPlace(db: Db, p: nat, us: seq<nat>, gs: seq<nat>)
    requires LinksInPlace(db)
    ensures LinksInPlace(TeamRemoved(db, p, us, gs))
  {
    UsersDroppedLinks(db, p, us);
    forall g: nat, r: Role | (g, r) in TeamRemoved(db, p, us, gs).links ensures r.OfProject? && !IsDirect(r.role) {
      GroupsUnlinkedLinks(UsersDropped(db, p, us), p, gs, g, r);
    }
  }

  lemma TeamStepKeepsCoherence(db: Db, op: TeamOp)
    requires LinksInPlace(db) && Coherent(db)
    ensures LinksInPlace(TeamStep(db, op)) && Coherent(TeamStep(db, op))
  {
    hide ProjectCoherent, Cached, TeamMembersAdded, MembersDropped, ResyncedLinks, TeamRemoved;
    match op
    case AddMembers(people, leaders, managers, members) =>
      var d1 := TeamMembersAdded(db, people, leaders, managers, members);
      TeamMembersAddedTouches(db, people, leaders, managers, members);
      ResyncedLinksExact(d1, people);
      TeamRequestsKeepCoherence(db, d1, ResyncedLinks(d1, people), people);
    case DropMembers(people, users) =>
      var d1 := MembersDropped(db, people, users);
      MembersDroppedTouches(db, people, users);
      ResyncedLinksExact(d1, people);
      TeamRequestsKeepCoherence(db, d1, ResyncedLinks(d1, people), people);
    case RemoveFromProject(req) =>
      if !Refused(db, req) {
        var p := req.project;
        var us := if req.users.Some? then InProject(db, p, req.users.value) else [];
        var gs := GroupsInProject(db, p, req.groups);
        TeamRemovedLinksInPlace(db, p, us, gs);
        forall q: nat ensures ProjectCoherent(TeamRemoved(db, p, us, gs), q) {
          if q == p { TeamRemovedCoherent(db, p, us, gs); } else { TeamRemovedElsewhere(db, p, us, gs, q); }
        }
      }
  }

  lemma TeamRemovedCoherent(db: Db, p: nat, us: seq<nat>, gs: seq<nat>)
    ensures ProjectCoherent(TeamRemoved(db, p, us, gs), p)
  {
    RemovalMakesCoherent(GroupsUnlinked(UsersDropped(db, p, us), p, gs), p);
  }

  /** Over any run of people-group requests and project removals, every project's cached
      roles stay exact. */
  lemma {:induction false} TeamRunKeepsCoherence(db: Db, ops: seq<TeamOp>)
    requires LinksInPlace(db) && Coherent(db)
    ensures LinksInPlace(TeamRun(db, ops)) && Coherent(TeamRun(db, ops))
    decreases |ops|
  {
    if ops != [] {
      TeamStepKeepsCoherence(db, ops[0]);
      TeamRunKeepsCoherence(TeamStep(db, ops[0]), ops[1..]);
    }
  }

  // ----- what one request does -----

  lemma {:induction false} InProjectKeeps(db: Db, p: nat, us: seq<nat>, u: nat, r: Role)
    requires (u, r) in db.holds && OfThisProject(p, r)
    ensures u in InProject(db, p, us) <==> u in us
  {
    var h: Hold := (u, r);
    if us != [] {
      InProjectKeeps(db, p, us[1..], u, r);
      assert us == [us[0]] + us[1..] && h in db.holds && h.0 == u && OfThisProject(p, h.1);
    }
  }

  lemma {:induction false} GroupsInProjectKeeps(db: Db, p: nat, gs: seq<nat>, g: nat, r: Role)
    requires (g, r) in db.links && OfThisProject(p, r)
    ensures g in GroupsInProject(db, p, gs) <==> g in gs
  {
    var l: Hold := (g, r);
    if gs != [] {
      GroupsInProjectKeeps(db, p, gs[1..], g, r);
      assert gs == [gs[0]] + gs[1..] && l in db.links && l.0 == g && OfThisProject(p, l.1);
    }
  }

  /** A removal request that lists every owner changes nothing; any other takes exactly the
      listed users' direct roles and the listed groups' links in its project, and leaves its
      cached roles exact; other roles and all publication statuses stay. */
  lemma RemovalExact(db: Db, req: Removal, u: nat, q: nat, direct: ProjectRole, g: nat, r: Role)
    requires IsDirect(direct)
    ensures var db' := RemovalStep(db, req);
            if req.users.Some?
               && forall o: nat | (o, OfProject(req.project, Owners)) in db.holds :: o in req.users.value
            then db' == db
            else
              && ((u, OfProject(q, direct)) in db'.holds <==>
                    (u, OfProject(q, direct)) in db.holds
                    && !(q == req.project && req.users.Some? && u in req.users.value))
              && ((g, r) in db'.links <==> (g, r) in db.links && !(OfThisProject(req.project, r) && g in req.groups))
              && ProjectCoherent(db', req.project)
              && db'.private == db.private
              && (!OfThisProject(req.project, r) ==> ((u, r) in db'.holds <==> (u, r) in db.holds))
  {
    if !Refused(db, req) {
      var p := req.project;
      var us := if req.users.Some? then InProject(db, p, req.users.value) else [];
      var gs := GroupsInProject(db, p, req.groups);
      TeamRemovedDirect(db, p, us, gs, u, q, direct);
      if (u, OfProject(q, direct)) in db.holds && q == p && req.users.Some? {
        InProjectKeeps(db, p, req.users.value, u, OfProject(q, direct));
      }
      UsersDroppedLinks(db, p, us);
      GroupsUnlinkedLinks(UsersDropped(db, p, us), p, gs, g, r);
      if (g, r) in db.links && OfThisProject(p, r) { GroupsInProjectKeeps(db, p, req.groups, g, r); }
      RemovalMakesCoherent(GroupsUnlinked(UsersDropped(db, p, us), p, gs), p);
      if !OfThisProject(p, r) { TeamRemovedHolds(db, p, us, gs, u, r); }
      UsersDroppedPrivate(db, p, us);
      GroupsUnlinkedPrivate(UsersDropped(db, p, us), p, gs);
    }
  }

  lemma {:induction false} UsersDroppedPrivate(db: Db, p: nat, us: seq<nat>)
    ensures UsersDropped(db, p, us).private == db.private
  {
    if us != [] { UsersDroppedPrivate(db, p, us[..|us| - 1]); }
  }

  lemma {:induction false} GroupsUnlinkedPrivate(db: Db, p: nat, gs: seq<nat>)
    ensures GroupsUnlinked(db, p, gs).private == db.private
  {
    if gs != [] { GroupsUnlinkedPrivate(db, p, gs[..|gs| - 1]); }
  }

  lemma {:induction false} MembersDroppedRoles(db: Db, people: nat, us: seq<nat>, u: nat)
    ensures var db' := MembersDropped(db, people, us);
            if u in us then forall r: TeamRole :: (u, OfPeople(people, r)) !in db'.holds
            else SameTeamRoles(db, db', u, people)
  {
    if us != [] {
      MembersDroppedRoles(db, people, us[..|us| - 1], u);
      assert us == us[..|us| - 1] + [us[|us| - 1]];
    }
  }

  /** A people-group request leaves each listed user with the last role listed for it, or with
      none when it is a removal; the others keep theirs. */
  lemma TeamStepRoles(db: Db, op: TeamOp, u: nat)
    requires LinksInPlace(db) && !op.RemoveFromProject?
    ensures var db' := TeamStep(db, op);
            match op
            case AddMembers(people, leaders, managers, members) =>
              if u in members then OnlyTeamRole(db', u, people, TeamMembers)
              else if u in managers then OnlyTeamRole(db', u, people, Managers)
              else if u in leaders then OnlyTeamRole(db', u, people, Leaders)
              else SameTeamRoles(db, db', u, people)
            case DropMembers(people, users) =>
              if u in users then forall r: TeamRole :: (u, OfPeople(people, r)) !in db'.holds
              else SameTeamRoles(db, db', u, people)
            case _ => true
  {
    match op
    case AddMembers(people, leaders, managers, members) =>
      ResyncedLinksExact(TeamMembersAdded(db, people, leaders, managers, members), people);
      TeamMembersAddedRoles(db, people, leaders, managers, members, TeamStep(db, op), u);
    case DropMembers(people, users) =>
      MembersDroppedRoles(db, people, users, u);
      MembersDroppedTouches(db, people, users);
      assert forall r: TeamRole :: (people, OfPeople(people, r)) !in db.links;
    case _ =>
  }

  /** A people-group request leaves the roles of other people groups, all links and all
      publication statuses as they are. */
  lemma TeamStepElsewhere(db: Db, op: TeamOp, u: nat, r: Role)
    requires LinksInPlace(db) && !op.RemoveFromProject?
    ensures var db' := TeamStep(db, op);
            && db'.links == db.links && db'.private == db.private
            && (r.OfPeople? && r.people != op.people ==> ((u, r) in db'.holds <==> (u, r) in db.holds))
  {
    match op
    case AddMembers(people, leaders, managers, members) =>
      ResyncedLinksExact(TeamMembersAdded(db, people, leaders, managers, members), people);
      TeamMembersAddedTouches(db, people, leaders, managers, members);
    case DropMembers(people, users) =>
      ResyncedLinksExact(MembersDropped(db, people, users), people);
      MembersDroppedTouches(db, people, users);
    case _ =>
  }
}
