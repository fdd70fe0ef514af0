# Verified model of the projects backend

This project models the stateful algorithms of the backend and proves what they keep over whole
runs. A database table is a map, set or sequence held by a class; each class method is one piece of
the original code, run in place, and its contract equates the new table with a function of the old
one. The lemmas are about those functions, over every sequence of requests.

`dafny verify dfyconfig.toml` checks everything.

| files | part of the backend |
|---|---|
| `Identifiers`, `SlugAllocator`, `SlugRegistry`, `SlugTable`, `Lookup` | slugs: allocation, history, resolution |
| `Forest`, `Hierarchies`, `HierarchyRequests`, `HierarchyTables`, `OrganizationTree`, `Replies` | parent relations of people groups, categories, organizations, replies |
| `Closures`, `Rendering` | reading hierarchies: closures, nested trees, paths |
| `Roles`, `RoleCoherence`, `AddRequests`, `RoleTables` | role groups of projects and people groups, cached members |
| `GroupNames`, `Permissions`, `BulkPermissions`, `PermissionTables` | object permissions, one by one and in bulk |
| `ContextMerge`, `Managers`, `Notifications`, `UnreadNotifications`, `UnsentNotifications`, `NotificationTables` | merging of notifications, reminders |
| `Deploys`, `DeployTables` | post-deploy processes |
| `Newsfeed` | round-robin merge and the first page |
| `Common` | options, listings of query results, pigeonhole |

## Where the code does less than one might expect

Some natural properties hold only under a condition. For each, the model keeps the code as it is
and proves the condition exactly.

- `slug_or_ids` selects what its identifiers select one by one if and only if it gets some
  identifier and at most one distinct slug, or only slugs that no object can hold: the array lookup
  asks for a row that used to hold all of them, and an empty list selects every row
  (`Lookup.SelectsEachIff`).
- A category ends up under a parent of another organization if and only if it is created in an
  existing organization with a body that names another one, and that one holds the parent: the one
  named, or its root when the parent is null (`Hierarchies.CategoryOrganizationIff`).
- A slug that is computed in one save and stored in a later one, after requests on other objects,
  leaves the table consistent if and only if the unique index refuses it or no other object used to
  hold it (`SlugRegistry.StaleSaveIff`). The index knows current slugs only: an object that takes the
  name and is renamed defeats it (`SlugRegistry.StaleSaveBreaks`).
- A slug fits its column of 50 characters if and only if the raw name and the retry number do: a
  people group whose name is 46 digits does not, because of the prefix (`SlugAllocator.SlugFitsIff`).
- A list stored by a single event is deduplicated only if it repeats no id; from the second event
  on it always is (`ContextMerge.MergingIsAFold`).
- Waiting notifications of a key never pile up if and only if its type is not `project_created`
  (`Notifications.NoPileUpIff`). The creation of a project sends that event once, so it takes a task
  that is delivered again; each event then waits in a notification of its own, and no more wait than
  there were events (`Notifications.CreatedOneEach`).
- An organization's people groups stay one tree under its root if and only if no root is deleted
  (`Hierarchies.StepKeepsRooted`). The API does not find roots, so that takes the admin site
  (`Hierarchies.ApiRunKeepsTrees`).
- Unread notifications of a key never pile up if and only if every manager of its type mails at
  once and merges (`UnreadNotifications.NoUnreadPileUpIff`).
- Moving a people group to another role of a project leaves the role it comes from stale unless all
  its members are in other groups of that role (`RoleCoherence.GroupAddedCoherence`); giving users
  a direct role keeps the caches exact only if none of them was in one (`RoleCoherence.UsersAddedCoherence`).
  For a whole add request the condition is `AddRequests.StaysExact` (`AddRequests.TeamAddedCoherence`).
- The bulk permission reassignment also reassigns the role groups left over from soft-deleted
  instances, which the instance-by-instance form does not (`BulkPermissions.BulkRefinesEach`).
- The announcements on the first page of the newsfeed are the intended ones if and only if no more
  exist or the other lists are long enough (`Newsfeed.FirstPageIff`), and projects stay apart from
  them if and only if that holds or no project is left. For a limit of 0 the paginator cuts a page
  of 100 while none is excluded, so they stay apart if and only if there is no announcement or no
  project (`Newsfeed.ApartIff`).
- Threads stay one deep under updates if and only if no comment that has replies becomes a reply
  (`Replies.OneDeepIff`).

## Model

| member | source | states |
|---|---|---|
| `Identifiers.PrefixEscapes` | apps/commons/mixins.py:434-436 | one prefixing takes any name out of the texts that read as a main id: eight characters for projects, integer-like for the others |
| `Identifiers.NumeralInjective` | apps/commons/mixins.py:446 | different retry numbers print differently |
| `Identifiers.ReadsAsIntIff` | apps/accounts/models.py:173-180 | a text reads as an integer exactly when it is digits with single underscores between them, after an optional sign, with white space around |
| `Identifiers.CandidatesDistinct` | apps/commons/mixins.py:437-448 | the names tried by the retry loop are pairwise distinct, even when some of them get the prefix |
| `Identifiers.CandidateIsSlug` | apps/commons/mixins.py:446-448 | no name tried reads as a main id |
| `SlugAllocator.RetriesBounded` | apps/commons/mixins.py:439-448 | pigeonhole: the number of candidates passed over is at most the number of taken and unusable names, so the loop ends |
| `SlugAllocator.FirstFit` | apps/commons/mixins.py:437-449 | the search stops at the first candidate that is free or already the object's own |
| `SlugAllocator.SlugForSound` | apps/commons/mixins.py:429-449 | at most taken + reserved + 1 retries; the result is not empty, not a main id, and either the object's own or unused, unreserved and not the prefix |
| `SlugAllocator.SlugIsFirstName` | apps/commons/mixins.py:429-449 | the slug is the first that the object may have of: the slugified title, or the prefix when there is none, with the prefix in front when that reads as a main id; then the same with 1, 2, … after a dash, with the prefix in front when that reads as a main id |
| `SlugAllocator.MainIdTitleIsPrefixed` | apps/commons/mixins.py:434-436 | a title that reads as a main id gets its own name behind the prefix exactly when that is the object's own or not blocked |
| `SlugAllocator.FreeTitleIsSlug` | apps/commons/mixins.py:429-449 | a title whose own name is usable and no main id keeps that name exactly when it is free or already the object's |
| `SlugAllocator.SlugFitsIff` | apps/commons/mixins.py:429-449 | the slug fits its 50 characters exactly when the slugified title, the prefix if that reads as a main id, and the retry number do |
| `SlugTables.SlugTable.GetSlug` | apps/commons/mixins.py:429-449 | the two loops compute exactly that name and terminate |
| `SlugTables.SlugTable.Save` | apps/commons/mixins.py:373-389 | in place: recompute when there is no slug or the title differs from the captured one, move the old slug to the history, store |
| `SlugTables.SlugTable.SavePermissionsFlag` | apps/projects/models.py:452-452 | a save limited to the permissions flag recomputes in memory and writes nothing of this table |
| `SlugTables.SlugTable.Create` | apps/commons/mixins.py:373-389 | an insert of a new object keeps the table consistent |
| `SlugTables.SlugTable.Update` | apps/commons/mixins.py:367-389 | a rename keeps the table consistent whatever the freshly loaded object had captured |
| `SlugTables.SlugTable.Delete` | apps/projects/models.py:267-282 | soft deletion keeps the row and its identifiers |
| `SlugTables.SlugTable.Restore` | apps/projects/models.py:290-293 | restoring keeps the table consistent |
| `SlugTables.SlugTable.HardDelete` | apps/projects/models.py:284-288 | hard deletion frees the row and its identifiers |
| `SlugTables.SlugTable.Duplicate` | apps/projects/models.py:565-609 | a copy starts without slug and history and gets identifiers of its own, through its three saves |
| `SlugRegistry.RunConsistent` | apps/commons/mixins.py:373-449 | over every run, identifier sets of distinct objects (soft-deleted ones included) are disjoint and no stored name is empty, reserved, the prefix or a main id |
| `SlugRegistry.StepExact` | apps/projects/models.py:267-293 | each request changes its own object only: the title, deletion mark and slug it leaves, with a copy slugged from the title of its original |
| `SlugRegistry.RunKeepsIds` | apps/commons/mixins.py:378-385 | over every run, an object that is not hard-deleted never loses an identifier |
| `SlugRegistry.RunKeepsHistories` | apps/commons/mixins.py:378-385 | over every run no history lists a name twice |
| `SlugRegistry.ResaveIsIdle` | apps/commons/mixins.py:373-389 | a recomputation right after a save changes nothing, neither slug nor history |
| `SlugRegistry.RenameBack` | apps/commons/mixins.py:439-444 | after any run without hard deletions, going back to a former title restores the slug the object had then and adds no identifier |
| `SlugRegistry.LimitedThenFull` | apps/projects/models.py:452-452 | a save limited to the permissions flag and then a full one store what one full save stores |
| `SlugRegistry.IndexNeverRefuses` | apps/projects/models.py:148-148 | on a consistent table the unique index on current slugs accepts every save of an object that is up to date |
| `SlugRegistry.StaleSaveIff` | apps/commons/mixins.py:373-389 | a slug computed on an older table and stored now leaves the table consistent exactly when the unique index refuses it or no other object used to hold it |
| `SlugRegistry.StaleSaveBreaks` | apps/commons/mixins.py:373-389 | a run that makes such a save break the table, for every new name: another object takes it and is renamed |
| `Lookup.GetMainId` | apps/commons/mixins.py:396-409 | main ids come back as given; on a consistent table a slug resolves to the one live object that holds or held it, or to nothing; it is never ambiguous |
| `Lookup.OldLinksWork` | apps/commons/mixins.py:396-409 | old links are permanent: after any run, every slug an object ever held resolves to it while it is live, and to nothing while it is soft-deleted |
| `Lookup.DeletionAndLinks` | apps/projects/models.py:267-293 | soft deletion breaks every link of an object but keeps its names taken, restoring mends them; hard deletion breaks them and frees the names |
| `Lookup.ResolvesUniquely` | apps/commons/mixins.py:402-408 | a slug has one resolution on a consistent table |
| `Lookup.BuildIdentifiersQuery` | apps/commons/queryset.py:20-43 | the nested loops collect main ids under `id` and slugs under both `slug` and `outdated_slugs`, and no empty field |
| `Lookup.SlugOrIds` | apps/commons/queryset.py:33-49 | the rows selected by the disjunction of the collected fields |
| `Lookup.OneSlugSelects` | apps/commons/queryset.py:45-46 | one slug selects exactly the live object that holds or held it |
| `Lookup.OneMainIdSelects` | apps/commons/queryset.py:20-46 | a main id selects its own row and no other |
| `Lookup.PrintedKeyReads` | apps/accounts/models.py:173-180 | a printed integer key reads as a main id, with its own value |
| `Lookup.SignedKeyReads` | apps/accounts/models.py:173-180 | white space around a printed integer and a minus sign before it are read as such |
| `Lookup.NumeralValue` | apps/commons/mixins.py:446-446 | a retry number is printed in decimal, without leading zeros |
| `Lookup.SelectedRow` | apps/commons/queryset.py:33-43 | a row is selected by its id, by its current slug, or when its history contains all the slugs given |
| `Lookup.SelectsEachIff` | apps/commons/queryset.py:20-49 | several identifiers select what each of them selects exactly when there is an identifier and at most one distinct slug |
| `Lookup.NothingSelectsAll` | apps/commons/queryset.py:33-43 | an empty list of identifiers selects every live row |
| `Forest.WalkEnds` | apps/accounts/serializers.py:599-603 | the walk to the root ends in every finite acyclic table |
| `Forest.ReparentKeepsForest` | apps/accounts/serializers.py:599-603 | a change of parent keeps the forest when the row is not at or above the new parent |
| `Forest.ReparentMakesCycle` | apps/accounts/serializers.py:599-603 | otherwise it makes a cycle |
| `Hierarchies.StepValid` | apps/accounts/serializers.py:582-632 | every request, accepted or refused, keeps the parent relation acyclic, one root per organization and roots without parent |
| `Hierarchies.Run` | apps/accounts/serializers.py:582-632 | and so does every run |
| `Hierarchies.GroupsStayInOrganization` | apps/accounts/serializers.py:597-598 | over every run, people groups are in the organization of their parent |
| `Hierarchies.StepKeepsRooted` | apps/accounts/models.py:191-202 | every organization keeps its root, and only roots are without parent, after exactly the requests that do not delete a root |
| `Hierarchies.RunKeepsTrees` | apps/accounts/serializers.py:582-611 | over every run that deletes no root, each organization has its root and that root is at or above all its people groups |
| `Hierarchies.ApiRunKeepsTrees` | apps/accounts/views.py:547-557 | over every run of API requests, which do not find roots, the same without exception |
| `Hierarchies.StepKeepsOrganizations` | apps/organizations/serializers.py:697-719 | the same for categories as long as creations name their own organization |
| `Hierarchies.CategoryOrganizationIff` | apps/organizations/serializers.py:697-719 | over every request, categories stay in the organization of their parent exactly when it is not a creation that takes its parent, named or implied, from another organization than its own |
| `Hierarchies.LoopCheckExact` | apps/accounts/serializers.py:599-604 | among parents of the organization, exactly those that would make a cycle are refused, and the others are stored |
| `Hierarchies.AcceptedParent` | apps/accounts/serializers.py:588-604 | an accepted row that is not a root goes under the parent named, or else under the organization's root, in its own organization |
| `HierarchyRequests.UpdateWithoutParent` | apps/accounts/serializers.py:572-580 | an update that leaves the parent out changes nothing, but for a people group without parent that is no root, which goes under the root |
| `HierarchyRequests.UpdateToNull` | apps/accounts/serializers.py:588-596 | an update to null leaves a root alone and puts every other row under the root of its organization, changing no other row |
| `HierarchyRequests.UpdateToParent` | apps/accounts/serializers.py:593-604 | a named parent is refused for a root, from another organization, and when it would make a cycle; otherwise it is stored and no other row changes |
| `HierarchyRequests.CreateExact` | apps/accounts/serializers.py:572-611 | when a creation is accepted, and the row it stores: its organization, its parent named, implied or none, all other rows as before |
| `HierarchyRequests.DeleteExact` | apps/accounts/signals.py:26-29 | a deletion takes one row and changes the parent of exactly its children |
| `HierarchyRequests.OthersKept` | apps/accounts/serializers.py:572-632 | no request changes a row's organization or makes it a root; only an update of the row or the deletion of its parent changes its parent |
| `Hierarchies.DeleteKeepsAncestors` | apps/accounts/signals.py:26-29 | deleting a people group keeps every remaining group's chain of ancestors, in order, without the deleted one; deleting a category cuts the chains there |
| `HierarchyTables.HierarchyTable.UpdateOrCreateRoot` | apps/accounts/models.py:191-202 | the organization's root, created when missing |
| `HierarchyTables.HierarchyTable.ValidateParent` | apps/accounts/serializers.py:582-604 | every branch of the validation, with the root it may create on the way |
| `HierarchyTables.HierarchyTable.IsAtOrAbove` | apps/accounts/serializers.py:599-603 | the loop finds the row exactly when it is at or above the new parent, and ends because the relation is a forest |
| `HierarchyTables.HierarchyTable.AddOrganization` | apps/accounts/signals.py:14-17 | a new organization gets its root people group |
| `HierarchyTables.HierarchyTable.Create` | apps/accounts/serializers.py:572-611 | creation under the validated parent |
| `HierarchyTables.HierarchyTable.ChangeParent` | apps/accounts/serializers.py:572-631 | an update stores the validated parent; a people group without one goes under the root |
| `HierarchyTables.HierarchyTable.Delete` | apps/accounts/signals.py:26-29 | children are handed to the deleted group's parent before it goes |
| `OrganizationTree.Run` | apps/organizations/serializers.py:308-316 | over every run of creation, parent change and deletion, organizations form a forest |
| `OrganizationTree.LoopCheckExact` | apps/organizations/serializers.py:308-316 | the check refuses exactly the parents that would make a cycle, and the others are stored |
| `OrganizationTree.StepExact` | apps/organizations/serializers.py:308-316 | when each request is accepted, and the parents it leaves: that of its own code as asked, of the children of a deleted code none, all others as before |
| `OrganizationTree.OrganizationTable.ValidateParentCode` | apps/organizations/serializers.py:308-316 | the loop decides whether the organization is at or above its new parent; a new organization is not checked |
| `OrganizationTree.OrganizationTable.ChangeParent` | apps/organizations/serializers.py:308-316 | an accepted parent is stored and the forest kept |
| `OrganizationTree.OrganizationTable.Delete` | apps/organizations/models.py:104-110 | deletion sets the children's parent to null |
| `Replies.RunKeepsForest` | apps/feedbacks/serializers.py:176-181 | threads never loop, because a target must be top-level |
| `Replies.OneDeepIff` | apps/projects/serializers.py:906-911 | threads stay one deep exactly when no comment that has replies is turned into a reply |
| `Closures.GetBelow` | apps/organizations/utils.py:4-16 | the level loop ends and returns exactly the start codes and all their descendants, without repetition iff the start codes are distinct and none is above another |
| `Closures.GetAbove` | apps/organizations/utils.py:19-60 | the level loop ends and returns exactly the start codes and the ancestors reached through edges whose lower end is visible (every edge, for categories), without repetition iff the start codes are distinct and no row is at or above two of them along these edges |
| `Closures.DualClosures` | apps/organizations/utils.py:35-60 | for existing categories, d is found below a iff a is found above d |
| `Rendering.ReachedIffLedTo` | apps/accounts/serializers.py:392-400 | counting parentless rows under the root means: reached along stored parents, or up to a parentless row and one step more |
| `Rendering.ShownUnderIsForest` | apps/accounts/serializers.py:392-400 | counting parentless groups as children of the root keeps a forest, so the recursion ends |
| `Rendering.RenderShows` | apps/accounts/serializers.py:375-404 | the rendered tree lists, exactly once each, the rows reached through visible rows within the depth limit |
| `Rendering.RenderNested` | apps/accounts/serializers.py:401-404 | every subtree hangs under its own parent |
| `Rendering.TreeExact` | apps/accounts/serializers.py:375-404 | the tree from any row shows, once each and under their stored parents, exactly the rows whose stored parents lead there through visible rows within the depth limit; from a root also, one level deeper, those led to a visible row without parent, which hangs under the root |
| `Rendering.RenderedInOrganization` | apps/accounts/serializers.py:392-400 | nothing of another organization is rendered |
| `Rendering.GetHierarchy` | apps/accounts/serializers.py:547-559 | the path holds exactly the visible ancestors (below the root), each above the next, numbered from 0 |
| `Roles.ResyncedCached` | apps/projects/models.py:514-522 | a synchronised role holds exactly the members of its people groups, whatever it held before, and nothing else changes |
| `Roles.TeamAddedDirect` | apps/projects/serializers.py:379-448 | after an add request each listed user holds exactly one direct role, the last one listed in processing order; unlisted users keep theirs |
| `Roles.TeamAddedLinks` | apps/projects/serializers.py:404-448 | each listed people group is linked to exactly the last role listed for it, the others as before; roles of other projects do not change |
| `Roles.TeamAddedPrivate` | apps/projects/serializers.py:383-392 | the request makes the project private exactly when it brings the first reviewer to a project only reviewers can publish |
| `RoleCoherence.TeamRequestsKeepCoherence` | apps/accounts/serializers.py:430-461 | a change of a people group's members keeps every project coherent |
| `RoleCoherence.TeamChangeKeepsCaches` | apps/accounts/models.py:268-273 | after a change of a people group's members the roles it is linked to are exact, and roles that were exact stay so |
| `RoleCoherence.TeamRequestsKeepDirect` | apps/accounts/serializers.py:430-461 | such a change gives and takes no direct project role |
| `RoleCoherence.TeamStepRoles` | apps/accounts/serializers.py:430-461 | a people-group request leaves each listed user with exactly the last role listed for it, or with none when it is a removal; the others keep theirs |
| `RoleCoherence.TeamStepElsewhere` | apps/accounts/serializers.py:430-461 | it leaves other people groups, all links and all publication statuses alone |
| `RoleCoherence.RemovalMakesCoherent` | apps/projects/serializers.py:495-503 | a removal request makes the three cached roles of its project exact from any state |
| `RoleCoherence.GroupAddedCoherence` | apps/projects/serializers.py:404-414 | adding a people group makes the new role exact from any state, and keeps the project coherent exactly when everyone in the group is also in another group of the role it left |
| `RoleCoherence.UsersAddedCoherence` | apps/projects/serializers.py:393-394 | giving users a direct role keeps the project coherent exactly when none of them was in one of its cached roles |
| `AddRequests.TeamAddedExactIff` | apps/projects/serializers.py:424-448 | a whole add request leaves a cached role exact exactly when, if it adds groups to it, users of groups that leave it for a later role remain through other groups, and if not, listed users are in no group still linked to it and unlisted users of a leaving group are in one |
| `AddRequests.CachedAfterRequest` | apps/projects/serializers.py:379-448 | who is in a cached role after the request, and who its people groups say should be |
| `AddRequests.TeamAddedCoherence` | apps/projects/serializers.py:424-448 | the request keeps all caches of all projects exact exactly when that holds for the three roles of its project |
| `RoleCoherence.OwnersAfterAdd` | apps/projects/serializers.py:424-448 | who owns the project after an add request |
| `RoleCoherence.RemovalExact` | apps/projects/serializers.py:471-510 | a removal that lists every owner changes nothing; any other takes exactly the listed users' direct roles and the listed groups' links in this project, and leaves its cached roles exact; other roles and publication statuses stay |
| `RoleCoherence.RemovalRunKeepsOwner` | apps/projects/serializers.py:471-510 | over any run of removal requests a project that has an owner keeps one |
| `RoleCoherence.TeamRunKeepsCoherence` | apps/accounts/serializers.py:430-461 | over any run of people-group requests and project removals every project's cached roles stay exact |
| `RoleTables.RoleTable.AddUser` | apps/projects/serializers.py:379-402 | the user leaves every role of the project and joins one |
| `RoleTables.RoleTable.AddPeopleGroup` | apps/projects/serializers.py:404-422 | the people group leaves every role of the project, joins one, and that one is synchronised |
| `RoleTables.RoleTable.AddTeam` | apps/projects/serializers.py:424-448 | owners, reviewers, members, then the three kinds of groups, each list in order |
| `RoleTables.RoleTable.RemoveTeam` | apps/projects/serializers.py:471-510 | refused exactly when every owner is listed; otherwise users, then groups, then the three synchronisations |
| `RoleTables.RoleTable.SetRoleGroupsMembers` | apps/accounts/models.py:268-273 | the loop synchronises every linked role, in any order |
| `RoleTables.RoleTable.AddTeamMembers` | apps/accounts/serializers.py:430-440 | leaders, managers, members in turn, then the linked roles |
| `RoleTables.RoleTable.RemoveTeamMembers` | apps/accounts/serializers.py:454-461 | the listed users leave the people group, then the linked roles are synchronised |
| `GroupNames.ParsePrinted` | apps/commons/mixins.py:248-250 | splitting at colons undoes the printing of a group name |
| `GroupNames.PrintParsed` | apps/commons/mixins.py:212-213 | printing undoes the splitting of every proper name |
| `GroupNames.PrintInjective` | apps/commons/mixins.py:166-168 | different models, keys or roles give different group names |
| `GroupNames.PrefixSelectsModel` | apps/commons/mixins.py:252-254 | the prefix filter selects the role groups of one model |
| `Permissions.RoleSetUpGrants` | apps/commons/mixins.py:138-182 | setting up one role leaves its group exactly the given permissions on the instance and touches no other group |
| `Permissions.EachSetUpReassigns` | apps/commons/mixins.py:138-150 | setting up all instances leaves exactly the listed grants on their role groups, and all others as before |
| `BulkPermissions.BulkReassigns` | apps/commons/mixins.py:188-286 | after the bulk form every existing role group of the model holds exactly the permissions last listed for its role; groups of other models are untouched, also those with the same role name |
| `BulkPermissions.BulkRefinesEach` | apps/commons/mixins.py:188-286 | bulk and one by one leave the same grants, except on role groups of instances no longer live, which only the bulk form reassigns |
| `BulkPermissions.BulkSameRows` | apps/commons/mixins.py:211-242 | both create the same groups with the same data, link them alike and mark the same instances |
| `BulkPermissions.DataExact` | apps/commons/mixins.py:243-264 | no group data that is there changes in either form, and which are new |
| `BulkPermissions.WithGroupLinked` | apps/commons/mixins.py:164-182 | getting or creating a group keeps every role group linked to its instance, and getting one that is there with its data changes nothing |
| `BulkPermissions.SetUpLinked` | apps/commons/mixins.py:211-242 | and so do both forms |
| `PermissionTables.PermissionTable.GetOrCreateGroup` | apps/commons/mixins.py:164-182 | the group, its link when it is new, its data when missing |
| `PermissionTables.PermissionTable.SetupGroupObjectPermissions` | apps/commons/mixins.py:138-150 | the two loops add what is missing and remove what is too much |
| `PermissionTables.PermissionTable.SetupPermissions` | apps/projects/models.py:416-452 | all roles of an instance, their links and the flag |
| `PermissionTables.PermissionTable.BatchReassignPermissions` | apps/commons/mixins.py:188-286 | the bulk statements and the loop over roles |
| `ContextMerge.DedupExact` | apps/notifications/utils.py:114-119 | the dictionary comprehension keeps each id at its first place with its last value |
| `ContextMerge.DedupKeepsIds` | apps/notifications/utils.py:114-119 | ids are unique afterwards and none is lost or made up |
| `ContextMerge.MergingIsAFold` | apps/notifications/utils.py:194-219 | merging event lists one at a time gives, from the second event on, the deduplication of their concatenation; a single list is stored as it came |
| `ContextMerge.ShapedMerge` | apps/notifications/utils.py:107-120 | contexts whose keys keep their shape merge without error and keep it |
| `Notifications.PendingIsDigest` | apps/notifications/utils.py:156-226 | over every run of events, reminders and views, a key of a merging type has at most one notification waiting, with the count and context of its events since the receiver's last reminder |
| `Notifications.NoPileUpIff` | apps/notifications/utils.py:238-244 | waiting notifications of a key never pile up, over any events, exactly when its type is not `project_created` |
| `Notifications.CreatedOneEach` | apps/notifications/utils.py:180-193 | for `project_created`, each to-be-sent event since the last reminder waits in a notification of its own, in order, and nothing else does |
| `Notifications.PendingCounts` | apps/notifications/utils.py:180-206 | its count is the number of to-be-sent events since the last reminder, and there is none iff there was no such event |
| `Notifications.PendingListsEverything` | apps/notifications/utils.py:194-219 | its lists are the deduplication of all the lists of those events |
| `Notifications.PendingUnitesValues` | apps/notifications/utils.py:194-219 | its plain values are the union of those of the events |
| `Notifications.PendingIsLatest` | apps/notifications/utils.py:192-219 | the waiting notification has the fields of the last event, and its single values |
| `UnreadNotifications.EventIsUnread` | apps/notifications/utils.py:156-187 | an event leaves its notification unread, whatever was seen before |
| `UnreadNotifications.UnreadIsDigest` | apps/notifications/utils.py:176-226 | over every run, a key of such a type has at most one unread notification, with the count and context of its events since the receiver last listed them |
| `UnreadNotifications.NoUnreadPileUpIff` | apps/notifications/utils.py:176-187 | unread notifications of a key never pile up exactly when all managers of its type mail at once and merge |
| `Notifications.MatchingAndOthers` | apps/notifications/utils.py:181-187 | matching rows and the rows kept make up the table |
| `UnsentNotifications.EventKeepsOthers` | apps/notifications/utils.py:156-193 | an event leaves the notifications of all other keys as they are; one that does not merge adds one of its own |
| `UnsentNotifications.UnsentIsDigest` | apps/notifications/utils.py:156-226 | over every run, a receiver who wants no mail about a delayed type has at most one notification for a key, with the count and context of all its events, and nothing waiting |
| `NotificationTables.NotificationTable.UpdateOrCreateForRecipient` | apps/notifications/utils.py:156-226 | look up, keep the last saved match, create or update, merge the context; a failing merge leaves count and context |
| `NotificationTables.EventOutcome` | apps/notifications/utils.py:190-219 | an event that merges is counted and shows its own fields; one that does not leaves count and context |
| `NotificationTables.NotificationTable.CreateAndSendNotifications` | apps/notifications/utils.py:228-235 | one event per recipient until one fails to merge; the recipients before it get an email exactly when they must receive it and the manager sends at once, in order and as often as they are listed, and then nothing more waits |
| `NotificationTables.NotificationTable.SendReminder` | apps/notifications/tasks.py:403-422 | each user with something waiting gets exactly one mail, listing all of it, and nothing waits afterwards |
| `Deploys.RecreatedExact` | apps/deploys/models.py:78-99 | exactly the declared tasks have a row; surviving rows keep their run history and whether they are to be run, and recreating again changes nothing |
| `Deploys.NewTaskStarts` | apps/deploys/models.py:101-143 | a task without a row is started by the next deploy of a named version exactly when it is declared there: every task, or in local environments those that run in tests |
| `Deploys.RestartIffFailure` | apps/deploys/models.py:101-143 | over any run at one version, whatever order results arrive in, a process once started is started again exactly by the deploys that find its status to be FAILURE |
| `Deploys.SuccessIsFinal` | apps/deploys/models.py:149-163 | a stored SUCCESS is kept, and its process never started again at that version |
| `Deploys.NextDeployStartsIff` | apps/deploys/models.py:101-143 | the next deploy, at any version, starts a process again exactly when its status is FAILURE, or at another version after the task's pause; raised starts count as failures, finished ones do not |
| `Deploys.QueuedStart` | apps/deploys/models.py:149-163 | the status of a queued start is that of its result until a final one is seen; the final result seen first stays, whatever arrives later |
| `Deploys.SortSorts` | apps/deploys/models.py:136 | the processes are sorted by priority |
| `DeployTables.DeployTable.GetStatus` | apps/deploys/models.py:149-163 | the stored status, or the result of the queued task, which is stored when final |
| `DeployTables.DeployTable.RecreateProcesses` | apps/deploys/models.py:78-99 | rows are inserted or get their priority, then undeclared ones go |
| `DeployTables.DeployTable.GetProcessesToRun` | apps/deploys/models.py:101-123 | each process that failed, or has neither run recently nor at this version, once |
| `DeployTables.DeployTable.RunTask` | apps/deploys/models.py:56-76 | status, times, version and task id after each outcome |
| `DeployTables.DeployTable.Deploy` | apps/deploys/models.py:125-143 | each selected process is started once, in non-decreasing priority |
| `Newsfeed.LandsAt` | apps/newsfeed/views.py:92-106 | item i of list j lands at i + Σ_{k<j} min(len k, i+1) + Σ_{k>j} min(len k, i) |
| `Newsfeed.PlaceOwner` | apps/newsfeed/views.py:92-106 | every place of the merge is the position of some item |
| `Newsfeed.KeepsOrder` | apps/newsfeed/views.py:92-106 | items of one list keep their order |
| `Newsfeed.MergePermutes` | apps/newsfeed/views.py:92-106 | the merge is a permutation of its inputs |
| `Newsfeed.FirstPageIff` | apps/newsfeed/views.py:108-119 | for every limit with which the request succeeds, the announcements on the first page are exactly the first (limit + 2) // 3 iff there are no more or the other lists fill the page, in particular when the limit is positive or missing and both have that many items |
| `Newsfeed.ApartIff` | apps/newsfeed/views.py:108-119 | for every such limit and given numbers of announcements, news and projects left: in all such feeds no project of the page is the subject of an announcement on it exactly when the page fills or no project is left; for a limit of 0, when there are no announcements or no projects |
| `Newsfeed.ShortFeedClash` | apps/newsfeed/views.py:108-119 | for all other numbers a feed in which they meet |

## Left out

- Django, the REST framework, guardian and Celery themselves: each ORM call is modelled as the set, map or sequence operation it performs; the order of query results is arbitrary unless the code orders them.
- Slugification of raw text and its cut to 46 characters: a title carries its slugified text. The failure of a save whose slug is wider than its column.
- Users as objects with slugs: their lookup also reads UUIDs and falls back to an import from Keycloak.
- `get_main_id` for fields other than `id`, and non-ASCII digits and spaces in the integer test.
- Which recipients a notification has and whether their settings ask for it: inputs of an event. Reminder texts and languages are left out.
- Lists of a context that mix entries and plain values, or hold dictionaries without id; the order of merged plain values, which the code does not fix either, so they are modelled as sets.
- The `created` flags returned by team additions, and soft deletion of projects in the role tables: a soft-deleted project has no cached roles, because deletion removes their groups.
- Cascading deletion of an organization, and the role groups deleted with a people group.
- The retry of a deploy after a database error, task progress and the admin actions that run or reset a task; `now` is the same throughout one deploy; Celery states other than SUCCESS and FAILURE count as pending.
- Redis caches, scores, statistics, search, translations, files, emails, permission classes and visibility filters: the set of visible rows is an input.
- Concurrent requests: each request runs alone, but for the save of a stale slug, and one deploy selects and starts its processes without interruption.
- Later pages of the newsfeed.
