/** Role groups of projects and people groups, and the cached members of `*_groups` roles. */
module Roles {
  import opened Common

  datatype ProjectRole =
    | Owners | Reviewers | Members
    | OwnerGroups | ReviewerGroups | MemberGroups

  datatype TeamRole = Leaders | Managers | TeamMembers

  /** The permission groups: one per project and role, one per people group and role. */
  datatype Role = OfProject(project: nat, role: ProjectRole) | OfPeople(people: nat, teamRole: TeamRole)

  type Hold = (nat, Role)

  /** `holds`: users in roles. `links`: people groups in project roles. `private`: the
      projects whose publication status is private. */
  datatype Db = Db(holds: set<Hold>, links: set<Hold>, private: set<nat>)

  predicate IsDirect(r: ProjectRole) {
    r == Owners || r == Reviewers || r == Members
  }

  /** `get_all_members` of a people group. */
  predicate InTeam(db: Db, u: nat, people: nat) {
    exists r :: (u, OfPeople(people, r)) in db.holds
  }

  ghost predicate InLinkedTeam(db: Db, u: nat, r: Role) {
    exists people: nat :: (people, r) in db.links && InTeam(db, u, people)
  }

  predicate OfThisProject(p: nat, r: Role) {
    r.OfProject? && r.project == p
  }

  /** `people_group.groups`: its own roles and the project roles it is linked to. */
  predicate OfThisPeople(db: Db, people: nat, r: Role) {
    (r.OfPeople? && r.people == people) || (people, r) in db.links
  }

  /** The users cached for a role are exactly the members of its people groups. */
  ghost predicate Cached(db: Db, r: Role) {
    forall u: nat :: (u, r) in db.holds <==> InLinkedTeam(db, u, r)
  }

  ghost predicate ProjectCoherent(db: Db, p: nat) {
    forall r: ProjectRole | !IsDirect(r) :: Cached(db, OfProject(p, r))
  }

  ghost predicate Coherent(db: Db) {
    forall p :: ProjectCoherent(db, p)
  }

  /** People groups are linked to `*_groups` roles of projects only. */
  ghost predicate LinksInPlace(db: Db) {
    forall people: nat, r: Role | (people, r) in db.links :: r.OfProject? && !IsDirect(r.role)
  }

  // ----- elementary changes -----

  function DroppedFromProject(db: Db, u: nat, p: nat): Db {
    db.(holds := set h | h in db.holds && !(h.0 == u && OfThisProject(p, h.1)))
  }

  function DroppedFromPeople(db: Db, u: nat, people: nat): Db {
    db.(holds := set h | h in db.holds && !(h.0 == u && OfThisPeople(db, people, h.1)))
  }

  function Unlinked(db: Db, people: nat, p: nat): Db {
    db.(links := set l | l in db.links && !(l.0 == people && OfThisProject(p, l.1)))
  }

  /** `set_role_group_members`: the users of the role become the members of its groups. */
  function Resynced(db: Db, r: Role): Db {
    db.(holds :=
      (set h | h in db.holds && h.1 != r) +
      (set l, h | l in db.links && l.1 == r && h in db.holds && h.1.OfPeople? && h.1.people == l.0
       :: (h.0, r)))
  }

  lemma ResyncedHolds(db: Db, r: Role, u: nat, r': Role)
    ensures (u, r') in Resynced(db, r).holds <==>
              if r' == r then InLinkedTeam(db, u, r) else (u, r') in db.holds
  {
  }

  /** A project role is exact right after its synchronisation, whatever the state before;
      teams and the other roles are as they were. */
  lemma ResyncedCached(db: Db, r: Role)
    requires r.OfProject?
    ensures Cached(Resynced(db, r), r)
    ensures forall u: nat, people: nat :: InTeam(Resynced(db, r), u, people) <==> InTeam(db, u, people)
    ensures forall u: nat, r': Role | r' != r :: (u, r') in Resynced(db, r).holds <==> (u, r') in db.holds
  {
  }

  // ----- requests on a project's team -----

  /** `reviewerOnly`: the projects with a category whose projects only reviewers can publish. */
  function UserAdded(db: Db, p: nat, u: nat, role: ProjectRole, reviewerOnly: set<nat>): Db {
    var firstReviewer := role == Reviewers && !exists h :: h in db.holds && h.1 == OfProject(p, Reviewers);
    var db1 := DroppedFromProject(db, u, p);
    db1.(holds := db1.holds + {(u, OfProject(p, role))},
         private := if firstReviewer && p in reviewerOnly then db.private + {p} else db.private)
  }

  function GroupAdded(db: Db, p: nat, people: nat, role: ProjectRole): Db {
    var db1 := Unlinked(db, people, p);
    Resynced(db1.(links := db1.links + {(people, OfProject(p, role))}), OfProject(p, role))
  }

  function UsersAdded(db: Db, p: nat, us: seq<nat>, role: ProjectRole, reviewerOnly: set<nat>): Db {
    if us == [] then db
    else UserAdded(UsersAdded(db, p, us[..|us| - 1], role, reviewerOnly), p, us[|us| - 1], role, reviewerOnly)
  }

  function GroupsAdded(db: Db, p: nat, gs: seq<nat>, role: ProjectRole): Db {
    if gs == [] then db
    else GroupAdded(GroupsAdded(db, p, gs[..|gs| - 1], role), p, gs[|gs| - 1], role)
  }

  datatype Request = Request(
    owners: seq<nat>, reviewers: seq<nat>, members: seq<nat>,
    ownerGroups: seq<nat>, reviewerGroups: seq<nat>, memberGroups: seq<nat>)

  function TeamAdded(db: Db, p: nat, req: Request, reviewerOnly: set<nat>): Db {
    var d1 := UsersAdded(db, p, req.owners, Owners, reviewerOnly);
    var d2 := UsersAdded(d1, p, req.reviewers, Reviewers, reviewerOnly);
    var d3 := UsersAdded(d2, p, req.members, Members, reviewerOnly);
    var d4 := GroupsAdded(d3, p, req.ownerGroups, OwnerGroups);
    var d5 := GroupsAdded(d4, p, req.reviewerGroups, ReviewerGroups);
    GroupsAdded(d5, p, req.memberGroups, MemberGroups)
  }

  function UsersDropped(db: Db, p: nat, us: seq<nat>): Db {
    if us == [] then db else DroppedFromProject(UsersDropped(db, p, us[..|us| - 1]), us[|us| - 1], p)
  }

  function GroupsUnlinked(db: Db, p: nat, gs: seq<nat>): Db {
    if gs == [] then db else Unlinked(GroupsUnlinked(db, p, gs[..|gs| - 1]), gs[|gs| - 1], p)
  }

  function ProjectResynced(db: Db, p: nat): Db {
    Resynced(Resynced(Resynced(db,
      OfProject(p, MemberGroups)), OfProject(p, OwnerGroups)), OfProject(p, ReviewerGroups))
  }

  function TeamRemoved(db: Db, p: nat, us: seq<nat>, gs: seq<nat>): Db {
    ProjectResynced(GroupsUnlinked(UsersDropped(db, p, us), p, gs), p)
  }

  // ----- who holds what after an add request -----

  /** The direct role of `u` in `p`: nothing but `role`, or nothing at all. */
  ghost predicate OnlyDirect(db: Db, u: nat, p: nat, role: ProjectRole) {
    forall r: ProjectRole | IsDirect(r) :: (u, OfProject(p, r)) in db.holds <==> r == role
  }

  /** `u` has the same direct roles in `p` in both states. */
  ghost predicate SameDirect(db: Db, db': Db, u: nat, p: nat) {
    forall r: ProjectRole | IsDirect(r) ::
      (u, OfProject(p, r)) in db.holds <==> (u, OfProject(p, r)) in db'.holds
  }

  lemma {:induction false} UsersAddedDirect(
      db: Db, p: nat, us: seq<nat>, role: ProjectRole, reviewerOnly: set<nat>, u: nat)
    requires IsDirect(role)
    ensures var db' := UsersAdded(db, p, us, role, reviewerOnly);
            if u in us then OnlyDirect(db', u, p, role) else SameDirect(db, db', u, p)
  {
    if us != [] {
      UsersAddedDirect(db, p, us[..|us| - 1], role, reviewerOnly, u);
      assert us == us[..|us| - 1] + [us[|us| - 1]];
    }
  }

  lemma GroupAddedDirect(db: Db, p: nat, people: nat, role: ProjectRole, u: nat, q: nat)
    requires !IsDirect(role)
    ensures SameDirect(db, GroupAdded(db, p, people, role), u, q)
  {
  }

  lemma {:induction false} GroupsAddedDirect(db: Db, p: nat, gs: seq<nat>, role: ProjectRole, u: nat)
    requires !IsDirect(role)
    ensures SameDirect(db, GroupsAdded(db, p, gs, role), u, p)
  {
    if gs != [] {
      var rest := gs[..|gs| - 1];
      GroupsAddedDirect(db, p, rest, role, u);
      GroupAddedDirect(GroupsAdded(db, p, rest, role), p, gs[|gs| - 1], role, u, p);
    }
  }

  /** The last list that names the user, in processing order. */
  function LastListed(req: Request, u: nat): Option<ProjectRole> {
    if u in req.members then Some(Members)
    else if u in req.reviewers then Some(Reviewers)
    else if u in req.owners then Some(Owners)
    else None
  }

  /** After an add request a listed user holds exactly the last role listed for it, and an
      unlisted user keeps its direct roles. */
  lemma TeamAddedDirect(db: Db, p: nat, req: Request, reviewerOnly: set<nat>, u: nat)
    ensures var db' := TeamAdded(db, p, req, reviewerOnly);
            match LastListed(req, u)
            case Some(role) => OnlyDirect(db', u, p, role)
            case None => SameDirect(db, db', u, p)
  {
    hide UsersAdded, GroupsAdded;
    var d1 := UsersAdded(db, p, req.owners, Owners, reviewerOnly);
    var d2 := UsersAdded(d1, p, req.reviewers, Reviewers, reviewerOnly);
    var d3 := UsersAdded(d2, p, req.members, Members, reviewerOnly);
    var d4 := GroupsAdded(d3, p, req.ownerGroups, OwnerGroups);
    var d5 := GroupsAdded(d4, p, req.reviewerGroups, ReviewerGroups);
    UsersAddedDirect(db, p, req.owners, Owners, reviewerOnly, u);
    UsersAddedDirect(d1, p, req.reviewers, Reviewers, reviewerOnly, u);
    UsersAddedDirect(d2, p, req.members, Members, reviewerOnly, u);
    GroupsAddedDirect(d3, p, req.ownerGroups, OwnerGroups, u);
    GroupsAddedDirect(d4, p, req.reviewerGroups, ReviewerGroups, u);
    GroupsAddedDirect(d5, p, req.memberGroups, MemberGroups, u);
  }

  lemma UserAddedElsewhere(db: Db, p: nat, u: nat, role: ProjectRole, reviewerOnly: set<nat>, v: nat, r: Role)
    ensures var db' := UserAdded(db, p, u, role, reviewerOnly);
            && db'.links == db.links
            && (r != OfProject(p, role) ==>
                  ((v, r) in db'.holds <==> (v, r) in db.holds && !(v == u && OfThisProject(p, r))))
  {
  }

  lemma {:induction false} UsersAddedElsewhere(
      db: Db, p: nat, us: seq<nat>, role: ProjectRole, reviewerOnly: set<nat>, v: nat, r: Role)
    ensures var db' := UsersAdded(db, p, us, role, reviewerOnly);
            && db'.links == db.links
            && (r != OfProject(p, role) ==>
                  ((v, r) in db'.holds <==> (v, r) in db.holds && !(v in us && OfThisProject(p, r))))
  {
    hide UserAdded, OfThisProject;
    if us != [] {
      var before, u := us[..|us| - 1], us[|us| - 1];
      UsersAddedElsewhere(db, p, before, role, reviewerOnly, v, r);
      UserAddedElsewhere(UsersAdded(db, p, before, role, reviewerOnly), p, u, role, reviewerOnly, v, r);
      assert us == before + [u];
    }
  }

  lemma {:induction false} GroupsAddedLinks(db: Db, p: nat, gs: seq<nat>, role: ProjectRole, g: nat, u: nat, r: Role)
    ensures var db' := GroupsAdded(db, p, gs, role);
            && ((g, r) in db'.links <==>
                  if g in gs && OfThisProject(p, r) then r.role == role else (g, r) in db.links)
            && (!OfThisProject(p, r) ==> ((u, r) in db'.holds <==> (u, r) in db.holds))
  {
    if gs != [] {
      var before := gs[..|gs| - 1];
      GroupsAddedLinks(db, p, before, role, g, u, r);
      assert gs == before + [gs[|gs| - 1]];
      ResyncedHolds(GroupsAdded(db, p, before, role), OfProject(p, role), u, r);
    }
  }

  /** The last list that names the people group. */
  function LastLinked(req: Request, g: nat): Option<ProjectRole> {
    if g in req.memberGroups then Some(MemberGroups)
    else if g in req.reviewerGroups then Some(ReviewerGroups)
    else if g in req.ownerGroups then Some(OwnerGroups)
    else None
  }

  /** Each listed people group is linked to exactly the last role listed for it, the others
      stay linked as they were, and nothing changes for other projects. */
  lemma TeamAddedLinks(db: Db, p: nat, req: Request, reviewerOnly: set<nat>, g: nat, u: nat, r: Role)
    ensures var db' := TeamAdded(db, p, req, reviewerOnly);
            && ((g, r) in db'.links <==>
                  if LastLinked(req, g).Some? && OfThisProject(p, r) then r.role == LastLinked(req, g).value
                  else (g, r) in db.links)
            && (!OfThisProject(p, r) ==> ((u, r) in db'.holds <==> (u, r) in db.holds))
  {
    var d1 := UsersAdded(db, p, req.owners, Owners, reviewerOnly);
    var d2 := UsersAdded(d1, p, req.reviewers, Reviewers, reviewerOnly);
    var d3 := UsersAdded(d2, p, req.members, Members, reviewerOnly);
    var d4 := GroupsAdded(d3, p, req.ownerGroups, OwnerGroups);
    var d5 := GroupsAdded(d4, p, req.reviewerGroups, ReviewerGroups);
    UsersAddedElsewhere(db, p, req.owners, Owners, reviewerOnly, u, r);
    UsersAddedElsewhere(d1, p, req.reviewers, Reviewers, reviewerOnly, u, r);
    UsersAddedElsewhere(d2, p, req.members, Members, reviewerOnly, u, r);
    GroupsAddedLinks(d3, p, req.ownerGroups, OwnerGroups, g, u, r);
    GroupsAddedLinks(d4, p, req.reviewerGroups, ReviewerGroups, g, u, r);
    GroupsAddedLinks(d5, p, req.memberGroups, MemberGroups, g, u, r);
    hide UsersAdded, GroupsAdded;
  }

  ghost predicate HasReviewer(db: Db, p: nat) {
    exists u: nat :: (u, OfProject(p, Reviewers)) in db.holds
  }

  lemma {:induction false} UsersAddedPrivate(
      db: Db, p: nat, us: seq<nat>, role: ProjectRole, reviewerOnly: set<nat>)
    ensures var db' := UsersAdded(db, p, us, role, reviewerOnly);
            && (us != [] && role == Reviewers ==> HasReviewer(db', p))
            && db'.private ==
                 if role == Reviewers && us != [] && !HasReviewer(db, p) && p in reviewerOnly
                 then db.private + {p} else db.private
  {
    if us != [] {
      var before, u := us[..|us| - 1], us[|us| - 1];
      var d := UsersAdded(db, p, before, role, reviewerOnly);
      UsersAddedPrivate(db, p, before, role, reviewerOnly);
      assert HasReviewer(d, p) <==> exists h :: h in d.holds && h.1 == OfProject(p, Reviewers) by {
        if h :| h in d.holds && h.1 == OfProject(p, Reviewers) { assert (h.0, h.1) == h; }
      }
      assert (u, OfProject(p, role)) in UsersAdded(db, p, us, role, reviewerOnly).holds;
    }
  }

  lemma {:induction false} GroupsAddedPrivate(db: Db, p: nat, gs: seq<nat>, role: ProjectRole)
    ensures GroupsAdded(db, p, gs, role).private == db.private
  {
    if gs != [] { GroupsAddedPrivate(db, p, gs[..|gs| - 1], role); }
  }

  /** An add request makes a project private exactly when it brings the first reviewer to a
      project that only reviewers can publish; reviewers named as owners no longer count. */
  lemma TeamAddedPrivate(db: Db, p: nat, req: Request, reviewerOnly: set<nat>)
    ensures TeamAdded(db, p, req, reviewerOnly).private ==
              if p in reviewerOnly && req.reviewers != []
                 && (forall u: nat | (u, OfProject(p, Reviewers)) in db.holds :: u in req.owners)
              then db.private + {p} else db.private
  {
    hide UsersAdded, GroupsAdded;
    var d1 := UsersAdded(db, p, req.owners, Owners, reviewerOnly);
    var d2 := UsersAdded(d1, p, req.reviewers, Reviewers, reviewerOnly);
    var d3 := UsersAdded(d2, p, req.members, Members, reviewerOnly);
    var d4 := GroupsAdded(d3, p, req.ownerGroups, OwnerGroups);
    var d5 := GroupsAdded(d4, p, req.reviewerGroups, ReviewerGroups);
    forall u: nat
      ensures (u, OfProject(p, Reviewers)) in d1.holds <==>
                (u, OfProject(p, Reviewers)) in db.holds && u !in req.owners
    {
      UsersAddedDirect(db, p, req.owners, Owners, reviewerOnly, u);
      assert IsDirect(Reviewers);
    }
    UsersAddedPrivate(db, p, req.owners, Owners, reviewerOnly);
    UsersAddedPrivate(d1, p, req.reviewers, Reviewers, reviewerOnly);
    UsersAddedPrivate(d2, p, req.members, Members, reviewerOnly);
    GroupsAddedPrivate(d3, p, req.ownerGroups, OwnerGroups);
    GroupsAddedPrivate(d4, p, req.reviewerGroups, ReviewerGroups);
    GroupsAddedPrivate(d5, p, req.memberGroups, MemberGroups);
  }
}
