/** The cached roles of a project after a whole add request. */
module AddRequests {
  import opened Common
  import opened Roles
  import opened RoleCoherence

  /** The people groups a request adds to a role. */
  function ListFor(req: Request, role: ProjectRole): seq<nat> {
    match role
    case OwnerGroups => req.ownerGroups
    case ReviewerGroups => req.reviewerGroups
    case MemberGroups => req.memberGroups
    case _ => []
  }

  predicate ListsUser(req: Request, u: nat) {
    u in req.owners || u in req.reviewers || u in req.members
  }

  /** The links of a role after the request. */
  predicate LinkedAfter(db: Db, p: nat, req: Request, role: ProjectRole, g: nat) {
    if LastLinked(req, g).Some? then LastLinked(req, g).value == role else (g, OfProject(p, role)) in db.links
  }

  /** The links of a role when its own list has been processed. */
  predicate LinkedMidway(db: Db, p: nat, req: Request, role: ProjectRole, g: nat) {
    g in ListFor(req, role) ||
    ((g, OfProject(p, role)) in db.links
     && (role != OwnerGroups ==> g !in req.ownerGroups)
     && (role == MemberGroups ==> g !in req.reviewerGroups))
  }

  ghost predicate RemainsIn(db: Db, p: nat, req: Request, role: ProjectRole, u: nat) {
    exists g: nat :: LinkedAfter(db, p, req, role, g) && InTeam(db, u, g)
  }

  /** The condition under which the request leaves a cached role exact. A role it adds groups
      to was synchronised, but not after groups left it for a later role; the users of those
      must remain through other groups. In any other role, listed users must not remain, and
      unlisted users of the groups that leave must. */
  ghost predicate StaysExact(db: Db, p: nat, req: Request, role: ProjectRole) {
    if ListFor(req, role) != [] then
      forall u: nat, g: nat
        | InTeam(db, u, g) && LinkedMidway(db, p, req, role, g) && !LinkedAfter(db, p, req, role, g) ::
        RemainsIn(db, p, req, role, u)
    else
      && (forall u: nat | ListsUser(req, u) :: !RemainsIn(db, p, req, role, u))
      && (forall u: nat, g: nat
            | InTeam(db, u, g) && (g, OfProject(p, role)) in db.links && !LinkedAfter(db, p, req, role, g)
              && !ListsUser(req, u) ::
            RemainsIn(db, p, req, role, u))
  }

  lemma GroupAddedTeams(db: Db, p: nat, people: nat, role: ProjectRole, u: nat, g: nat)
    ensures InTeam(GroupAdded(db, p, people, role), u, g) <==> InTeam(db, u, g)
  {
    var db1 := Unlinked(db, people, p);
    ResyncedCached(db1.(links := db1.links + {(people, OfProject(p, role))}), OfProject(p, role));
  }

  /** A list of groups leaves teams and other roles alone, and its own role exact. */
  lemma {:induction false} GroupsAddedCached(db: Db, p: nat, gs: seq<nat>, role: ProjectRole)
    requires !IsDirect(role)
    ensures var db' := GroupsAdded(db, p, gs, role);
            && (forall u: nat, g: nat :: InTeam(db', u, g) <==> InTeam(db, u, g))
            && (forall u: nat, r: Role | r != OfProject(p, role) :: (u, r) in db'.holds <==> (u, r) in db.holds)
            && (if gs == [] then db' == db else Cached(db', OfProject(p, role)))
  {
    if gs != [] {
      var before, people := gs[..|gs| - 1], gs[|gs| - 1];
      var db1, db' := GroupsAdded(db, p, before, role), GroupsAdded(db, p, gs, role);
      assert db' == GroupAdded(db1, p, people, role);
      GroupsAddedCached(db, p, before, role);
      GroupAddedCoherence(db1, p, people, role);
      forall u: nat, g: nat ensures InTeam(db', u, g) <==> InTeam(db1, u, g) {
        GroupAddedTeams(db1, p, people, role, u, g);
      }
      forall u: nat, r: Role | r != OfProject(p, role) ensures (u, r) in db'.holds <==> (u, r) in db1.holds {
        ResyncedHolds(Unlinked(db1, people, p).(links := Unlinked(db1, people, p).links + {(people, OfProject(p, role))}),
                      OfProject(p, role), u, r);
      }
    }
  }

  function DirectAdded(db: Db, p: nat, req: Request, reviewerOnly: set<nat>): Db {
    var d1 := UsersAdded(db, p, req.owners, Owners, reviewerOnly);
    var d2 := UsersAdded(d1, p, req.reviewers, Reviewers, reviewerOnly);
    UsersAdded(d2, p, req.members, Members, reviewerOnly)
  }

  lemma DirectAddedElsewhere(db: Db, p: nat, req: Request, reviewerOnly: set<nat>, u: nat, r: Role)
    requires OfThisProject(p, r) ==> !IsDirect(r.role)
    ensures var d3 := DirectAdded(db, p, req, reviewerOnly);
            && d3.links == db.links
            && ((u, r) in d3.holds <==> (u, r) in db.holds && !(OfThisProject(p, r) && ListsUser(req, u)))
  {
    hide UsersAdded;
    var d1 := UsersAdded(db, p, req.owners, Owners, reviewerOnly);
    var d2 := UsersAdded(d1, p, req.reviewers, Reviewers, reviewerOnly);
    UsersAddedElsewhere(db, p, req.owners, Owners, reviewerOnly, u, r);
    UsersAddedElsewhere(d1, p, req.reviewers, Reviewers, reviewerOnly, u, r);
    UsersAddedElsewhere(d2, p, req.members, Members, reviewerOnly, u, r);
  }

  lemma DirectAddedTeams(db: Db, p: nat, req: Request, reviewerOnly: set<nat>, u: nat, g: nat)
    ensures InTeam(DirectAdded(db, p, req, reviewerOnly), u, g) <==> InTeam(db, u, g)
  {
    hide DirectAdded;
    var d3 := DirectAdded(db, p, req, reviewerOnly);
    forall role: TeamRole ensures (u, OfPeople(g, role)) in d3.holds <==> (u, OfPeople(g, role)) in db.holds {
      DirectAddedElsewhere(db, p, req, reviewerOnly, u, OfPeople(g, role));
    }
  }

  /** The state in which the role's own list of groups has just been processed. */
  function Midway(db: Db, p: nat, req: Request, reviewerOnly: set<nat>, role: ProjectRole): Db {
    var d3 := DirectAdded(db, p, req, reviewerOnly);
    var d4 := GroupsAdded(d3, p, req.ownerGroups, OwnerGroups);
    if role == OwnerGroups then d4
    else
      var d5 := GroupsAdded(d4, p, req.reviewerGroups, ReviewerGroups);
      if role == ReviewerGroups then d5 else GroupsAdded(d5, p, req.memberGroups, MemberGroups)
  }

  lemma MidwayLinks(db: Db, p: nat, req: Request, reviewerOnly: set<nat>, role: ProjectRole, g: nat)
    requires !IsDirect(role)
    ensures (g, OfProject(p, role)) in Midway(db, p, req, reviewerOnly, role).links <==>
              LinkedMidway(db, p, req, role, g)
  {
    hide DirectAdded, GroupsAdded;
    var d3, r := DirectAdded(db, p, req, reviewerOnly), OfProject(p, role);
    var d4 := GroupsAdded(d3, p, req.ownerGroups, OwnerGroups);
    var d5 := GroupsAdded(d4, p, req.reviewerGroups, ReviewerGroups);
    DirectAddedElsewhere(db, p, req, reviewerOnly, 0, r);
    GroupsAddedLinks(d3, p, req.ownerGroups, OwnerGroups, g, 0, r);
    GroupsAddedLinks(d4, p, req.reviewerGroups, ReviewerGroups, g, 0, r);
    GroupsAddedLinks(d5, p, req.memberGroups, MemberGroups, g, 0, r);
  }

  /** Who is in a cached role after the request, and who should be. */
  lemma CachedAfterRequest(db: Db, p: nat, req: Request, reviewerOnly: set<nat>, role: ProjectRole, u: nat)
    requires !IsDirect(role)
    ensures var db', r := TeamAdded(db, p, req, reviewerOnly), OfProject(p, role);
            && ((u, r) in db'.holds <==>
                  if ListFor(req, role) != []
                  then exists g: nat :: LinkedMidway(db, p, req, role, g) && InTeam(db, u, g)
                  else (u, r) in db.holds && !ListsUser(req, u))
            && (InLinkedTeam(db', u, r) <==> RemainsIn(db, p, req, role, u))
  {
    var db', r := TeamAdded(db, p, req, reviewerOnly), OfProject(p, role);
    var mid := Midway(db, p, req, reviewerOnly, role);
    forall g: nat
      ensures (g, r) in mid.links <==> LinkedMidway(db, p, req, role, g)
      ensures (g, r) in db'.links <==> LinkedAfter(db, p, req, role, g)
    {
      MidwayLinks(db, p, req, reviewerOnly, role, g);
      TeamAddedLinks(db, p, req, reviewerOnly, g, u, r);
    }
    MidwayHolds(db, p, req, reviewerOnly, role, u);
    hide TeamAdded, Midway, LinkedMidway, InTeam;
  }

  lemma MidwayHolds(db: Db, p: nat, req: Request, reviewerOnly: set<nat>, role: ProjectRole, u: nat)
    requires !IsDirect(role)
    ensures var db', mid, r := TeamAdded(db, p, req, reviewerOnly), Midway(db, p, req, reviewerOnly, role),
                               OfProject(p, role);
            && (forall g: nat :: InTeam(mid, u, g) <==> InTeam(db, u, g))
            && (forall g: nat :: InTeam(db', u, g) <==> InTeam(db, u, g))
            && ((u, r) in db'.holds <==> (u, r) in mid.holds)
            && (if ListFor(req, role) != [] then Cached(mid, r)
                else (u, r) in mid.holds <==> (u, r) in db.holds && !ListsUser(req, u))
  {
    hide DirectAdded, GroupsAdded, InTeam, Cached;
    var d3, r := DirectAdded(db, p, req, reviewerOnly), OfProject(p, role);
    var d4 := GroupsAdded(d3, p, req.ownerGroups, OwnerGroups);
    var d5 := GroupsAdded(d4, p, req.reviewerGroups, ReviewerGroups);
    DirectAddedElsewhere(db, p, req, reviewerOnly, u, r);
    forall g: nat ensures InTeam(d3, u, g) <==> InTeam(db, u, g) {
      DirectAddedTeams(db, p, req, reviewerOnly, u, g);
    }
    GroupsAddedCached(d3, p, req.ownerGroups, OwnerGroups);
    GroupsAddedCached(d4, p, req.reviewerGroups, ReviewerGroups);
    GroupsAddedCached(d5, p, req.memberGroups, MemberGroups);
    assert TeamAdded(db, p, req, reviewerOnly) == GroupsAdded(d5, p, req.memberGroups, MemberGroups) by {
      TeamAddedIs(db, p, req, reviewerOnly);
    }
  }

  lemma TeamAddedIs(db: Db, p: nat, req: Request, reviewerOnly: set<nat>)
    ensures TeamAdded(db, p, req, reviewerOnly) == Midway(db, p, req, reviewerOnly, MemberGroups)
  {
  }

  /** A whole add request leaves a cached role exact, from a state where the role is exact or
      gets a group, exactly under that condition. */
  lemma TeamAddedExactIff(db: Db, p: nat, req: Request, reviewerOnly: set<nat>, role: ProjectRole)
    requires !IsDirect(role) && (ListFor(req, role) != [] || Cached(db, OfProject(p, role)))
    ensures Cached(TeamAdded(db, p, req, reviewerOnly), OfProject(p, role)) <==> StaysExact(db, p, req, role)
  {
    forall u: nat { CachedAfterRequest(db, p, req, reviewerOnly, role, u); }
    hide TeamAdded, LinkedMidway, LinkedAfter, InTeam;
  }

  /** Hence the request keeps all caches exact exactly when the condition holds for the three
      cached roles of its project. */
  lemma TeamAddedCoherence(db: Db, p: nat, req: Request, reviewerOnly: set<nat>)
    requires Coherent(db)
    ensures Coherent(TeamAdded(db, p, req, reviewerOnly)) <==>
              forall role: ProjectRole | !IsDirect(role) :: StaysExact(db, p, req, role)
  {
    var db' := TeamAdded(db, p, req, reviewerOnly);
    assert ProjectCoherent(db, p);
    forall role: ProjectRole | !IsDirect(role)
      ensures Cached(db', OfProject(p, role)) <==> StaysExact(db, p, req, role)
    {
      TeamAddedExactIff(db, p, req, reviewerOnly, role);
    }
    forall q: nat | q != p ensures ProjectCoherent(db', q) {
      assert ProjectCoherent(db, q);
      forall role: ProjectRole | !IsDirect(role) ensures Cached(db', OfProject(q, role)) {
        OtherProjectKept(db, p, req, reviewerOnly, OfProject(q, role));
      }
    }
    hide TeamAdded, Cached, StaysExact;
    assert ProjectCoherent(db', p) <==> forall role: ProjectRole | !IsDirect(role) :: StaysExact(db, p, req, role);
  }

  lemma OtherProjectKept(db: Db, p: nat, req: Request, reviewerOnly: set<nat>, r: Role)
    requires !OfThisProject(p, r) && Cached(db, r)
    ensures Cached(TeamAdded(db, p, req, reviewerOnly), r)
  {
    var db' := TeamAdded(db, p, req, reviewerOnly);
    forall u: nat
      ensures (u, r) in db'.holds <==> (u, r) in db.holds
      ensures InLinkedTeam(db', u, r) <==> InLinkedTeam(db, u, r)
    {
      MidwayHolds(db, p, req, reviewerOnly, OwnerGroups, u);
      TeamAddedLinks(db, p, req, reviewerOnly, 0, u, r);
      forall g: nat ensures (g, r) in db'.links <==> (g, r) in db.links {
        TeamAddedLinks(db, p, req, reviewerOnly, g, u, r);
      }
    }
    hide TeamAdded;
  }
}
