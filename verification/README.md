# Verified model of WeftID's provisioning and background machinery

WeftID is an identity provider. This project models the parts of it that keep tables consistent over long runs of overlapping operations, and proves what those parts promise. Tables are maps and sets, a committed statement is a step, and every theorem below is about all inputs, all runs or all interleavings.

Check the whole project with `dafny verify dfyconfig.toml`.

## What is modelled

**Group hierarchy** (`GroupHierarchy.dfy`, `GroupStore.dfy`, `HierarchyRace.dfy`). Groups form a directed acyclic graph, and `group_lineage` caches its reflexive-transitive closure with shortest distances. The cache is kept up to date incrementally: a cross join on insert, a prune and a recursive query on removal. Both updates are proved to keep the cache exact, and cycle detection through the cache is proved to be exact. Deleting a group row only cascades to rows that name the group, so the cache is exact afterwards if and only if every parent and child of the group are also tied without it; the refusal of the admin service to delete a group that still has relationships implies that condition. Two other callers delete group rows without that refusal (`app/services/scim/inbound_group_write.py:746` and `app/services/groups/idp.py:496`), so a stale row is reachable. Racing calls are modelled statement by statement (`HierarchyRace.dfy`): the cycle check is a transaction of its own, and the transactions that insert and remove an edge read snapshots that others may overtake. The hierarchy stays acyclic with an exact closure exactly when every commit is safe: an insert still passes its check and its rows are what the closure of that moment gives, a removal leaves what it would leave undisturbed. Three runs fail: two opposite calls close a cycle, two overlapping inserts lose a row, and the lost row lets a later cycle pass its check at the commit. Once a cycle leads into the rows a removal rebuilds, its recursive query never ends (`QueryEndsIff`).

**Access decisions** (`Access.dfy`). One decision (a grant that reaches one of the user's groups, or an app open to all) is written as a point query, a left-join listing, union listings, a grouped count and fan-out queries. All are proved to agree with the point query, and the point query with reachability in the graph.

**Outbound SCIM provisioning** (`PushQueue.dfy`, `Provisioning.dfy`, `Untriggered.dfy`, `PushWorker.dfy`, `Overlap.dfy`). Changes fire triggers, triggers enqueue coalescing rows, a worker drains them. The promise is convergence: every disagreement between a receiver and the local decision is queued, or owed by a trigger that has still to run, so an empty queue with no trigger left means agreement. It is proved exactly: a run keeps it at every moment if and only if every trigger is safe when it runs, that is, whatever its change flipped is settled, queued, enqueued by it, or owed by another. A trigger that names the users of its change, runs before the next change and enqueues without failure is always safe. A trigger that runs after a later change need not be: two crossed triggers lose a user for good. Deleting groups, silent joins and edits of the hierarchy have no such trigger: for each there is the exact condition on the tables before the change and a concrete world that fails. One accepted pass over the ready rows brings agreement about for every pair without a dead-lettered or backing-off row. A second model splits the worker's listing, evaluation, call and row deletion into separate steps of any number of overlapping workers: every interleaving converges if and only if every move is safe where it is made, and two concrete runs fail, one at a deletion and one at a late call.

**Credential rotation** (`Credentials.dfy`). The statements of any number of rotations, revocations and creations interleave freely around row locks.

**Background tasks and periodic jobs** (`Tasks.dfy`, `Scheduler.dfy`). Any number of workers claim, run, report and die at any point; periodic jobs follow one clock reading per pass. A handler is never invoked twice; the price is that a task whose worker dies after its claim is committed stays in processing for good, since nothing looks for such tasks.

**Migrations** (`Migrations.dfy`). The process may die between any two statements and be started again.

**Event metadata** (`EventMetadata.dfy`) and **nonces** (`Nonces.dfy`). A content-addressed store with orphan deletion and redaction, and a single-use store with cleanup sweeps.

**Search, pages, attributes** (`LikeSearch.dfy`, `Pages.dfy`, `Attributes.dfy`). LIKE escaping against a matcher, the page tree whose redirect recurses by path lookup, and the canonical form of user attributes.

## Assumptions

- A trigger runs in one step, on the tables of that moment, some time after its change, and may fail to enqueue any set of keys. The SCIM configuration of the providers and their target URLs are fixed.
- Transactions run under READ COMMITTED, the default the code does not change. In `HierarchyRace` a transaction's writes appear at its commit; waiting for a row lock only rules interleavings out.
- A receiver that answers 2xx has done what was asked, and a 404 to a DELETE means the user is absent. A call that fails may or may not have taken effect.
- `RunsConvergeIff` treats evaluation, push and row deletion as one step. The code does not: `list_ready_entries` documents a lock held by the caller's session, but `fetchall` opens and commits its own (`app/database/_core.py:163-168`). Module `Overlap` says exactly what holds without that assumption.
- New ids are never in use already. PostgreSQL's `now()` is the start of the transaction, so a rotation stamps both rows with its start time.
- The metadata hash is injective where a lemma says `Injective`; `WriteReadsBackIff` gives the exact condition without it. Redaction is a function of the event and its metadata that adds its mark.
- A failed `complete_task` has not committed. A worker whose `fail_task` fails leaves its task in processing, like one that dies.
- A migration directory holds no version twice and none named `baseline`, and only one runner is alive at a time; the code takes no lock to ensure that.
- The page tree has no path twice and no empty path, as is the case for the tree in `app/pages.py`. With a repeated path the redirect could recurse for ever.
- Which characters count as decimal digits in a phone number is a parameter.

## Where the code and its text differ

- `count_user_access_for_sps` groups grants of proxy apps and OAuth2 clients under a null key besides the providers (`NullKeyIsOtherKinds`).
- `group_deleted` and `scim_group_deleted` are in the trigger table, but the trigger looks the group up after the cascade has taken its lineage and grants, so it enqueues nothing (`DeletionFiresNothing`); whoever it cuts off is tracked only under the condition of `DeleteGroupSafeIff`. The SCIM deletion first removes the direct members one by one, each with a trigger of its own (`app/services/scim/inbound_group_write.py:736-743`), so only members of groups below are cut off silently there. Groups deleted with their identity provider log `idp_group_invalidated`, which has no trigger (`InvalidateGroupsSafeIff`).
- `user_groups_bulk_added` and `domain_group_auto_assigned` have no trigger, so these joins are safe for provisioning only under the condition of `JoinSafeIff`. Neither have `group_relationship_created` and `group_relationship_deleted` (`AddChildSafeIff`, `RemoveChildSafeIff`).
- Sweeping expired nonces is invisible exactly while no mint names a nonce whose expired row a sweep has taken: the primary key refuses such a mint before the sweep and admits it after (`SweepsAreInvisibleIff`, `RemintSeesSweep`).
- `bulk_upsert_users` is one statement per chunk of 1000, each its own transaction; a chunk that names a user twice is refused by the database with the earlier chunks already stored.

## Model

| member | source | states |
|---|---|---|
| GroupGraph.LinkedIsExact | app/database/groups/relationships.py:46-108 | inserting an edge with one cross join keeps the closure table exact, shortest depths included, even when the edge closes a cycle |
| GroupGraph.CycleIffAncestor | app/database/groups/relationships.py:6-26 | the lookup refuses an edge if and only if adding it to the acyclic hierarchy would close a cycle |
| GroupGraph.RecursiveReach | app/database/groups/relationships.py:168-199 | while no cycle leads into the affected groups, the recursive query ends and yields exactly the walks of each length into them |
| GroupGraph.QueryEndsIff | app/database/groups/relationships.py:168-199 | the query reaches an empty round, and so ends, if and only if no cycle leads into the affected groups |
| GroupGraph.RelinkedIsExact | app/database/groups/relationships.py:111-201 | pruning the descendants' rows and rebuilding them gives the exact closure of the graph without the edge |
| GroupGraph.RelinkedRow | app/database/groups/relationships.py:168-199 | whatever closure a rebuild meets, rows there keep their depth or get a smaller rebuilt one, and a rebuilt pair is added exactly if a depth-0 row ends at its descendant |
| GroupGraph.WalkBounded | db-init/schema.sql:697-722 | in an acyclic hierarchy no chain is longer than the number of groups, which bounds the recursive query |
| GroupGraph.DeleteExactIffBridged | app/database/groups/core.py:160-175 | after the cascade of a group deletion the closure table is exact if and only if every parent and child of the group are tied without it by at most two edges |
| GroupGraph.StaleRowAfterDelete | app/database/groups/core.py:160-175 | on an acyclic chain of three with an exact closure, deleting the middle leaves a row for a pair nothing connects |
| GroupStore.Groups.CreateGroup | app/database/groups/core.py:64-116 | a new group with its depth-0 row keeps the hierarchy acyclic and the closure exact |
| GroupStore.Groups.IsAncestorOf | app/database/groups/lineage.py:46-61 | one lookup decides whether a chain of edges leads from one group to the other |
| GroupStore.Groups.AddGroupRelationship | app/database/groups/relationships.py:46-108 | outcome by constraint, duplicate or insertion; the closure stays exact |
| GroupStore.Groups.AddChild | app/services/groups/hierarchy.py:95-173 | the outcome for every input: first missing group, self-reference, parent without children, duplicate, cycle, or the edge added with the closure exact |
| GroupStore.Groups.RemoveGroupRelationship | app/database/groups/relationships.py:111-201 | exactly the edge goes and the closure is exact again |
| GroupStore.Groups.RemoveAllRelationships | app/services/groups/hierarchy.py:176-253 | a missing group is an error; otherwise every edge of the group goes except those an identity provider manages, no other, and the count says how many |
| GroupStore.Groups.DeleteRow | app/database/groups/core.py:160-175 | edges, lineage, memberships and grants naming the group go with it; the hierarchy stays valid if and only if the group was bridged |
| GroupStore.Groups.DeleteGroup | app/services/groups/crud.py:313-370 | the outcome for every input: a group is deleted, with its memberships and grants, exactly when it exists, is not an active IdP group and has no relationships; validity is always kept |
| HierarchyRace.StepSafeIff | app/database/groups/relationships.py:65-201 | a statement or commit of racing calls keeps the hierarchy acyclic and its closure exact if and only if it is safe: an insert still passes the cycle check and its rows are what the closure of that moment gives, a removal leaves what it would leave undisturbed |
| HierarchyRace.RacesGoodIff | app/services/groups/hierarchy.py:95-173 | any interleaving of creations, checks and the statements of inserts and removals is acyclic with an exact closure at every moment if and only if every commit is safe |
| HierarchyRace.UndisturbedRemove | app/database/groups/relationships.py:111-201 | a removal whose statements all read the tables it commits into is safe |
| HierarchyRace.RaceClosesCycle | app/services/groups/hierarchy.py:150-158 | from any hierarchy, two calls that put two unrelated groups above one another both pass their check and close a cycle |
| HierarchyRace.OverlapLosesRow | app/database/groups/relationships.py:87-106 | from any hierarchy, two overlapping inserts that chain three unrelated groups leave the closure without the row from top to bottom |
| HierarchyRace.StaleClosureHidesCycle | app/services/groups/hierarchy.py:150-158 | after that, an undisturbed call that closes the triangle passes its check, also where it commits, and closes a cycle |
| HierarchyRace.CheckIff | app/services/groups/hierarchy.py:95-158 | with an exact closure an edge passes its check if and only if it is new, joins two existing groups and closes no cycle |
| HierarchyRace.LoneInsertIsGood | app/database/groups/relationships.py:65-108 | an undisturbed call that adds an edge reaches an acyclic hierarchy with an exact closure and exactly that edge added |
| HierarchyRace.LoneRemoveIsGood | app/database/groups/relationships.py:111-201 | the same for an undisturbed removal, with exactly that edge gone |
| HierarchyRace.CallAdvances | app/database/groups/relationships.py:65-201 | a step leaves a call alone, moves it on by one statement for the same edge, or ends it: by its commit after its last statement, or by giving up, which changes no table |
| HierarchyRace.DropTakes | app/database/groups/relationships.py:157-166 | the delete of a removal takes only rows above its targets and never a group's own row |
| HierarchyRace.RebuildsIff | app/database/groups/relationships.py:168-199 | a removal gets past its recursive query if and only if the query comes to an empty round |
| HierarchyRace.WaitsIff | db-init/schema.sql:697-722 | inserting an edge that is there is refused; inserting a new one or deleting one waits exactly for a transaction that has written the same edge |
| HierarchyRace.OneWriterPerEdge | db-init/schema.sql:697-722 | in every interleaving at most one transaction at a time has written an edge |
| Access.UserCanAccessApp | app/database/sp_group_assignments.py:351-405 | an error unless exactly one app kind is named, otherwise the access decision for that app |
| Access.AccessIsReachability | app/database/sp_group_assignments.py:351-405 | access holds if and only if the app is open to all or a chain of edges leads from a granted group to one of the user's groups |
| Access.ScimListingIsPointwise | app/database/scim_scope.py:18-47 | the left-join query, null rows included, lists exactly the SCIM-enabled providers the point query accepts |
| Access.UnionListingIsPointwise | app/database/sp_group_assignments.py:444-582 | each union listing selects exactly the eligible apps the point query accepts |
| Access.AccessibleSpsOnce | app/database/sp_group_assignments.py:444-476 | the two arms, joined row by row over logos, grants, lineage and memberships, list a provider exactly when it is enabled, trusted and open to the user, under its name, with a logo time exactly if it has a logo, and in one row however many paths grant it |
| Access.CountIsDistinctUsers | app/database/sp_group_assignments.py:644-667 | a provider's count is the number of users neither inactivated nor anonymized who are granted it through a group, and absent when there is none |
| Access.NullKeyIsOtherKinds | app/database/sp_group_assignments.py:644-667 | the null key appears if and only if some active user is granted an app of another kind |
| Access.NullKeyExample | app/database/sp_group_assignments.py:644-667 | tables with one proxy grant and no provider whose count has an entry |
| Access.MembershipFanOutComplete | app/database/scim_scope.py:50-70 | every decision a membership change flips is in the fan-out, whose providers are the same before and after |
| Access.GrantFanOutComplete | app/database/scim_scope.py:73-90 | every decision a grant change flips is in the fan-out, whose members are the same before and after |
| PushQueue.ApplyKeepsUniqueIds | app/database/scim_push_queue.py:17-59 | every statement keeps row ids unique |
| PushQueue.UpsertEffect | app/database/scim_push_queue.py:17-59 | enqueueing gives a new row, or moves the old one to the end of the line with a clean record, its id and dead-letter mark kept; no other row changes |
| PushQueue.AttemptFailedEffect | app/database/scim_push_queue.py:207-234 | a failed attempt counts one, records its error and is not ready before the time given; no other row changes |
| PushQueue.DeadLetterEffect | app/database/scim_push_queue.py:237-255 | a dead letter is stamped with the time, keeps its record and is ready at no time |
| PushQueue.ClearEffect | app/database/scim_push_queue.py:258-279 | clearing makes exactly the named dead row ready again, with no attempts and no mark, its place in line kept |
| PushQueue.ReviveEffect | app/database/scim_push_queue.py:313-330 | reviving does that to every dead row of the provider and to nothing else |
| PushQueue.DeleteEffect | app/database/scim_push_queue.py:281-291 | exactly the named row goes |
| PushQueue.NoOvertaking | app/database/scim_push_queue.py:17-59 | while a row is neither refreshed nor deleted, no run of statements puts another row ahead of it |
| PushQueue.DeadStaysUnready | app/database/scim_push_queue.py:237-330 | a dead-lettered row stays unready through every run that does not clear, revive or delete it, however often re-enqueued |
| PushQueue.DeadUntilCleared | app/database/scim_push_queue.py:237-330 | after any such run, clearing it by id or reviving its provider makes it ready at once, with no attempts counted |
| PushQueue.BulkEqualsOneByOne | app/database/scim_push_queue.py:73-137 | the chunked bulk upsert leaves the table that one upsert per id leaves, up to enqueue times |
| PushQueue.BulkKeepsDeadLetters | app/database/scim_push_queue.py:73-137 | a bulk upsert keeps every dead-letter mark, touches no other key and gives each listed user a row |
| PushQueue.UpsertInChunks | app/database/scim_push_queue.py:73-137 | the chunk loop returns the list's length, or stops at the first chunk naming a user twice with the earlier chunks stored |
| PushQueue.Table.BulkUpsertUsers | app/database/scim_push_queue.py:73-137 | the same on the stored table; all rows are affected if and only if no chunk names a user twice |
| PushQueue.Table.Execute | app/database/scim_push_queue.py:207-330 | each statement's new table and exactly how many rows it matched |
| PushQueue.Table.ListReadyEntries | app/database/scim_push_queue.py:140-189 | up to the limit, none twice and in enqueue order, the oldest rows of the tenant that are not dead-lettered, not backing off, of the given provider if one is given, and not locked; all of them if the limit is not reached |
| PushQueue.OldEnoughIsListed | app/database/scim_push_queue.py:140-189 | a ready row with at most limit rows as old as it is in every listing |
| PushQueue.TenantListedIffWork | app/database/scim_push_queue.py:294-310 | with nothing locked a tenant is discovered if and only if its own listing is non-empty |
| PushQueue.CountsPartition | app/database/scim_push_queue.py:313-351 | pending and dead-lettered rows add up to the provider's rows, and reviving leaves none dead |
| Provisioning.TriggerCoversChange | app/constants/event_types.py:584-662 | whatever decision a change with a user-level trigger flips for a real user, the trigger enqueues that user for that provider |
| Provisioning.SwitchEffect | app/services/service_providers/crud.py:431-529 | the switch stores exactly the value given: open, every user may use the provider; closed, exactly those granted through a group; no other app changes |
| Provisioning.AssignEffect | app/services/service_providers/group_assignments.py:81-183 | assigning groups admits to that provider exactly the users in or below one of them, and changes no other access |
| Provisioning.UnassignEffect | app/services/service_providers/group_assignments.py:144-180 | exactly that grant goes |
| Provisioning.AddMembersEffect | app/services/groups/membership.py:293-339 | exactly the given users join the group, and are admitted to exactly what the group or one above is granted |
| Provisioning.RemoveMembersEffect | app/services/groups/membership.py:393-439 | exactly the given users leave exactly that group |
| Provisioning.UserEffect | app/services/users/crud.py:178-454 | creating and updating store the row; deleting takes the row and that user's memberships |
| Provisioning.GroupEffect | app/database/groups/core.py:64-116 | creating a group adds its own lineage row and nothing else |
| Provisioning.GroupsGoneEffect | app/database/groups/core.py:160-175 | groups go with exactly the memberships, grants and lineage rows that name one of them, one by one or in bulk |
| Provisioning.AllowedKeepsReferences | app/services/groups/membership.py:293-339 | whatever the service layer lets through keeps memberships and grants pointing at users and providers that exist |
| Provisioning.UnknownUserRefusedIff | app/services/groups/membership.py:293-339 | memberships are refused if and only if they would name a user that does not exist |
| Provisioning.UnknownProviderRefusedIff | app/services/service_providers/group_assignments.py:81-183 | grants and the open switch are refused if and only if a grant would name a provider that does not exist |
| Provisioning.UserRefusedIff | app/services/users/crud.py:178-454 | a creation is let through exactly if it adds an id; an update exactly if it adds none and makes or unmakes no service account; a deletion exactly if it takes an id and no service account |
| Provisioning.NoChangeFiresNothing | app/services/service_providers/crud.py:510-529 | a membership, grant or access-mode command that changes nothing enqueues nothing |
| Provisioning.SwitchEnqueues | app/services/scim/dispatch.py:373-450 | the switch enqueues exactly the users of the tenant that are not service accounts, and only for an enabled provider |
| Provisioning.GrantEnqueuesGroups | app/services/scim/dispatch.py:255-327 | a grant change enqueues exactly the groups granted, besides their users, for an enabled provider |
| Provisioning.MembershipEnqueuesGroup | app/services/scim/dispatch.py:190-252 | a membership change enqueues the group for exactly the granting providers in direct mode |
| Provisioning.EventsRunTheirTriggers | app/services/scim/dispatch.py:91-187 | user and group events enqueue exactly that user or group at the providers granting it; bulk deletions, silent joins and hierarchy edits enqueue nothing |
| Provisioning.ChangedConverges | app/services/scim/dispatch.py:42-84 | committing any change keeps every disagreement queued or owed by its pending trigger |
| Provisioning.FireConvergesIff | app/services/scim/dispatch.py:42-84 | a trigger, whenever it runs and whatever it fails to enqueue, keeps that if and only if all its change flipped is settled, queued, enqueued now or owed by another trigger |
| Provisioning.PromptFireIsSafe | app/services/scim/dispatch.py:42-84 | a trigger that names the users of its change, runs before the next change and does not fail is safe |
| Provisioning.CommitConvergesIff | app/services/scim/dispatch.py:42-327 | any change with its trigger run at once, if it has one, keeps every disagreement tracked if and only if every decision it flips is queued, owed or enqueued |
| Provisioning.PromptFireIsCommit | app/services/scim/dispatch.py:42-84 | changing and then firing at once is the single step those conditions speak of |
| Provisioning.CommitConverges | app/services/scim/dispatch.py:42-327 | a triggered change whose enqueues succeed is covered and keeps every disagreement in the queue |
| Untriggered.DeletionFiresNothing | app/services/scim/dispatch.py:150-187 | the trigger of a group deletion enqueues nothing, whatever the tables were |
| Untriggered.DeleteGroupSafeIff | app/services/groups/crud.py:359-370 | deleting a group keeps disagreements tracked if and only if everyone who loses a provider with it already has a row queued or owed there |
| Untriggered.InvalidateGroupsSafeIff | app/services/groups/idp.py:476-498 | the same for all groups deleted with their identity provider |
| Untriggered.DeletedGroupLosesTrack | app/services/groups/crud.py:359-370 | a converging world with an empty queue in which deleting a group leaves a user at the receiver, without access and without a row |
| Untriggered.InvalidatedGroupLosesTrack | app/services/groups/idp.py:476-498 | the same with the identity provider's groups |
| Untriggered.JoinSafeIff | app/services/groups/membership.py:483-543 | joins without a trigger keep disagreements tracked if and only if each provider a user newly reaches already has a row for the user |
| Untriggered.SilentJoinLosesTrack | app/services/groups/membership.py:526-541 | a converging world with an empty queue in which such a join gives access the receiver never hears of |
| Untriggered.AddChildSafeIff | app/services/groups/hierarchy.py:157-173 | adding a child group keeps disagreements tracked if and only if every provider granting the parent has a row for every newly admitted user below the child |
| Untriggered.RemoveChildSafeIff | app/services/groups/hierarchy.py:256-308 | removing a relationship keeps disagreements tracked if and only if everyone no longer connected by the remaining edges is queued or owed |
| Untriggered.HierarchyEditLosesTrack | app/services/groups/hierarchy.py:157-308 | adding or removing one child, between two exact closures, takes a converging world with an empty queue to one that has lost a user |
| Untriggered.ChainIsExact | app/database/groups/relationships.py:46-201 | the two closures of that world are exact, so each is what adding or removing the child leaves |
| Untriggered.CrossedTriggersLoseTrack | app/services/scim/dispatch.py:190-327 | a user leaves a group and the group loses its provider before either trigger runs: both triggers succeed, neither enqueues the user, and the receiver keeps the user for good |
| Provisioning.EnqueueMembershipChange | app/services/scim/dispatch.py:190-252 | the nested loops upsert exactly the fan-out keys whose enqueue does not fail: fresh or reset, dead-letter marks kept, all else alone |
| Provisioning.EnqueueIsEnqueued | app/services/scim/dispatch.py:190-252 | the set of upserts the convergence theorem commits has the effect proved of the trigger's loops |
| Provisioning.ToggleChangesOneProvider | app/services/scim/dispatch.py:373-450 | switching open access changes decisions for that provider only, and only if the flag changed; what it is changed to is `SwitchEffect` |
| PushWorker.ProcessSound | app/services/scim/worker.py:247-348 | handling one entry, whatever the credential, the answer and the receiver do, keeps every disagreement in the queue; which answer does what is stated by the verdicts below |
| PushWorker.DeleteIff | app/services/scim/worker.py:396-480 | a user's call is a DELETE if and only if the user is gone, the provider is not enabled, or neither the switch nor a chain of groups lets the user in; a group's, if and only if the group is gone |
| PushWorker.DeletedIsDelete | app/services/scim/worker.py:396-480 | deleting a user or a group turns their entries into DELETE calls; creating the group turns them back |
| PushWorker.OrphanVerdict | app/services/scim/worker.py:219-244 | an entry whose provider is gone, not enabled or without a target is dropped, and nothing else changes |
| PushWorker.NoTokenVerdict | app/services/scim/worker.py:247-300 | without a credential the entry is dead-lettered at once and no call is made |
| PushWorker.SettledVerdict | app/services/scim/quirks/generic.py:83-109 | any 2xx, and 404 to a DELETE, removes the row and leaves the user at the receiver exactly if wanted there |
| PushWorker.RetryVerdict | app/services/scim/worker.py:699-722 | 429, 5xx, no answer, an exception, and 404 to an update by a recorded id count one attempt and wait 1, 5, 30 minutes, then 2 hours; the fifth failure dead-letters |
| PushWorker.RefusedVerdict | app/services/scim/worker.py:725-733 | any other answer dead-letters the entry at once, however few its attempts |
| PushWorker.EffectVerdict | app/services/scim/worker.py:247-348 | a call that is not settled leaves the receiver as it was, or as asked if it took effect anyway |
| PushWorker.StepBringsBack | app/database/scim_push_queue.py:258-330 | in every world, clearing a dead letter or reviving its provider is possible and makes it ready again, and touches no table and no receiver |
| PushWorker.RunsConvergeIff | app/services/scim/worker.py:94-189 | in a run of changes, triggers running when they may, pushes, failures, dead-letterings, clearings and revivals every disagreement is queued or owed at every moment if and only if every trigger is safe when it runs |
| PushWorker.RunsConverge | app/services/scim/worker.py:94-189 | runs whose triggers name their users, run before the next change and succeed converge at every moment, and no row reaches five attempts |
| PushWorker.EmptyQueueMeansAgreement | app/constants/event_types.py:584-602 | whenever a safe run leaves the queue empty and no trigger to run, every managed receiver holds exactly the users it should |
| PushWorker.DrainAgrees | app/services/scim/worker.py:94-189 | from any sound state with no trigger to run, one accepted pass over the ready rows, in any order, leaves exactly the dead-lettered and backing-off rows, and every pair without one agrees |
| PushWorker.DrainEmpties | app/services/scim/worker.py:94-189 | once dead letters are revived and back-offs have elapsed, the pass empties the queue and brings agreement |
| PushWorker.DrainIsRun | app/services/scim/worker.py:94-189 | that pass is a run of the worker: from every world one leads to the drained world |
| PushWorker.FiveFailuresDeadLetter | app/services/scim/worker.py:81-88 | whatever else happens around it, a row whose attempts keep failing is attempted at most five times and dead-lettered exactly at the fifth failure, at least 156 minutes after the first |
| PushWorker.FailuresGoOn | app/services/scim/worker.py:81-88 | from any number of failures, a receiver that cannot be reached takes the row on to the fifth |
| PushWorker.StatementsElsewhere | app/database/scim_push_queue.py:17-330 | what may happen around a row: every statement that neither re-enqueues, deletes nor reports on it, nor brings it back once dead, leaves it as it is |
| Overlap.MoveSafeIff | app/services/scim/worker.py:219-348 | every move of an overlapping worker or of the environment keeps convergence if and only if it is safe: a trigger is safe when it runs, a call lands current or with a row queued or owed, a row is deleted while the receiver agrees or a new row is owed |
| Overlap.UndisturbedEntry | app/services/scim/worker.py:247-348 | listing, evaluating, calling and deleting without anything in between is the one step with an accepting receiver |
| Overlap.UndisturbedDrop | app/services/scim/worker.py:219-244 | listing and dropping an orphaned entry is the one step of dropping it |
| Overlap.AbandonEffect | app/services/scim/worker.py:699-733 | an entry given up is put off to the time given or dead-lettered, and the receiver is untouched |
| Overlap.FlightAdvances | app/services/scim/worker.py:247-348 | a move leaves an entry alone, moves it on by one stage for the same row, or ends it: after its call, dropped right after its listing, or abandoned |
| Overlap.InterleavingsConvergeIff | app/services/scim/worker.py:247-348 | for any number of overlapping workers, every moment of an interleaving converges if and only if every move is safe where it is made |
| Overlap.SettledInterleavingsConverge | app/services/scim/worker.py:247-348 | safe triggers and no decision changing under an entry in flight are enough |
| Overlap.FinishSafeIffCurrent | app/services/scim/worker.py:630-696 | while the receiver holds what was delivered and no row is owed, deleting the row is safe if and only if the decision evaluated is still the current one |
| Overlap.LostUpdate | app/services/scim/worker.py:552-555 | an interleaving safe up to its last move, the deletion of the row: a membership removed in between leaves the receiver with a user who lost access and no row |
| Overlap.LateLanding | app/services/scim/worker.py:396-444 | an interleaving safe up to its last move, a call that lands late: every row deletion was safe, and the receiver gets back a user who lost access, with no row |
| Credentials.InvKept | app/database/scim_credentials.py:149-211 | every statement of every interleaving keeps locks owned, new ids apart, rotations single and counts balanced |
| Credentials.StageAdvances | app/database/scim_credentials.py:149-211 | a statement moves its own rotation forward and leaves every other where it is |
| Credentials.RotatedCountsCompleted | app/database/scim_credentials.py:149-211 | over whole runs a credential has been rotated exactly as often as rotations of it ended with a new row |
| Credentials.AtMostOneRotation | app/database/scim_credentials.py:149-211 | however many rotations of one credential overlap, at most one commits a new row |
| Credentials.OutstandingIsConserved | app/database/scim_credentials.py:149-211 | credentials never scheduled for revocation always number creations minus effective revocations |
| Credentials.RevokedAtIsWriteOnce | app/database/scim_credentials.py:274-338 | once set, revoked_at never changes in any interleaving, and no row disappears |
| Credentials.UnusableStaysUnusable | app/database/scim_credentials.py:236-256 | a credential once refused is refused at every later time |
| Credentials.RotationOverlaps | app/database/scim_credentials.py:192-209 | after a committed rotation the old credential is accepted exactly until the overlap ends and the new one throughout |
| Credentials.CandidateIff | app/database/scim_credentials.py:67-99 | a row can be picked if and only if it is the provider's, holds a ciphertext and is not revoked, or not yet |
| Credentials.ActiveCredentialForOutbound | app/database/scim_credentials.py:67-99 | the newest usable row with a ciphertext, and one is found whenever one exists |
| Credentials.Rotate | app/database/scim_credentials.py:102-211 | an undisturbed call is a run of the protocol that replaces the credential or changes no row, decided by the credential's state, and leaves no lock |
| Credentials.CredentialTable.RotateCredentialAtomic | app/database/scim_credentials.py:102-211 | the same on the stored table, keeping the protocol's invariant |
| Credentials.CredentialTable.MarkRevoked | app/database/scim_credentials.py:274-338 | exactly the named unrevoked row is stamped; the count says whether there was one |
| Credentials.CredentialTable.CreateCredential | app/database/scim_credentials.py:22-64 | one new unrevoked row, nothing else, and the invariant kept |
| Tasks.HandledAtMostOnce | app/database/bg_tasks.py:47-70 | for any number of workers and any interleaving with deaths, no task's handler is invoked twice |
| Tasks.StatusAdvances | app/database/bg_tasks.py:73-106 | each step moves a status forward at most one stage, and only a finished task of the caller can be deleted |
| Tasks.StatusOnlyAdvances | app/database/bg_tasks.py:73-106 | over whole runs a task never moves back, never swaps outcomes and never returns once deleted |
| Tasks.ActivityAdvances | app/worker.py:300-327 | a step leaves a busy worker alone, moves it on by one for the same task, fails a success whose completion raised, or makes it idle: at the report, at an unknown job type, or by its death |
| Tasks.DeathFreesSelection | app/database/bg_tasks.py:47-70 | a worker may die at any point, which changes no task; if its claim had not committed, the task is pending and unlocked again |
| Tasks.DeathAbandons | app/database/bg_tasks.py:47-106 | dying anywhere between the committed claim and the report leaves the task in processing with no worker on it |
| Tasks.AbandonedStaysAbandoned | app/database/bg_tasks.py:47-106 | such a task stays so in every run: it is never claimed, handled, finished or deleted |
| Tasks.SelectNext | app/database/bg_tasks.py:47-70 | the oldest pending task that no other claim has selected, or none only if some worker has selected each |
| Tasks.Process | app/worker.py:300-327 | a claimed task is handled once, or not at all for an unknown job type, and completed exactly when handler and completion succeed |
| Tasks.TaskTable.CreateTask | app/database/bg_tasks.py:14-44 | one new pending task, with the invariant kept |
| Tasks.TaskTable.ClaimNextTask | app/database/bg_tasks.py:47-70 | the claimed task is the oldest unlocked pending one, never handled before, and now processing |
| Tasks.TaskTable.ProcessTask | app/worker.py:300-327 | the same on the stored table, keeping the invariant |
| Tasks.TaskTable.DeleteTasks | app/database/bg_tasks.py:271-301 | a task goes if and only if it is named, finished and of that user and tenant; every other is kept as it is, and the count is exact |
| Scheduler.RunsAreSpaced | app/worker.py:282-288 | with a clock that does not run backwards a job runs at the first check, never more often than its interval allows, and is less than one interval stale after each check |
| Scheduler.RateIsBounded | app/worker.py:282-288 | runs minus one, times the interval, is at most the time elapsed |
| Scheduler.Worker.CheckPeriodicJobs | app/worker.py:282-298 | each job's schedule and calls follow its own due time, and exactly the due jobs that raise are recorded, stopping no other |
| Migrations.RunsStayConsistent | db-init/migrate.py:113-199 | across any deaths and restarts the applied versions are a growing initial segment of the files, no version is logged both ways, and commits are late deaths plus one if applied |
| Migrations.LifeOfDatabase | db-init/migrate.py:177-199 | the same from a fresh or pre-existing database without a log |
| Migrations.CommittedOncePerLateDeath | db-init/migrate.py:126-156 | a version's SQL commits at most once more than the stops between its commit and its mark |
| Migrations.UndisturbedRunFinishes | db-init/migrate.py:177-199 | after any history one undisturbed run applies everything left |
| Migrations.PendingIsRest | db-init/migrate.py:113-123 | with an applied initial segment the pending list is the rest of the directory in order |
| Migrations.BootEffect | db-init/migrate.py:177-199 | startup goes on with a log table from each of the three states, with the baseline recorded where it made the table; dying on the way leaves an empty database empty or complete, and an older one possibly with an empty log |
| Migrations.RunOneEffect | db-init/migrate.py:126-156 | a migration leaves one new row, succeeded and completed exactly on success and with an error exactly if a failure was reported, and its SQL committed exactly if it came past the commit |
| Migrations.RunOneEarlierRow | db-init/migrate.py:126-156 | of the rows already there, only open failures of the same version are marked with the outcome |
| Migrations.Runner.RunMigration | db-init/migrate.py:126-156 | the statements up to the point of death, of failing SQL or of a failing success mark; alive only after success |
| Migrations.Runner.PendingMigrations | db-init/migrate.py:113-123 | the files not applied, in order |
| Migrations.Runner.Migrate | db-init/migrate.py:177-199 | detection and loop; finishes exactly when startup and every pending migration succeed |
| EventMetadata.ReadsReturnLastWrite | app/database/event_log.py:15-75 | in every interleaving of creates, swaps and orphan deletions, reading an event returns the metadata last written to it |
| EventMetadata.InsertEventEffect | app/database/event_log.py:15-75 | an event is stored with its kind, time and hash, or refused exactly if its id is taken or its hash does not resolve |
| EventMetadata.PointEventEffect | app/database/event_log.py:248-283 | pointing an event at other metadata changes only its hash, and nothing if event or metadata is missing |
| EventMetadata.InsertMetadataEffect | app/database/event_log.py:15-75 | inserting metadata keeps what is there under every hash |
| EventMetadata.DeleteOrphansEffect | app/database/event_log.py:286-308 | exactly the given hashes that no event refers to go |
| EventMetadata.DueIff | app/database/event_log.py:219-245 | an event is due for redaction if and only if it records an assertion, is more than 86400 seconds old and its metadata bears no mark |
| EventMetadata.WriteReadsBackIff | app/database/event_log.py:248-283 | a write reads back if and only if no other metadata sits under its hash |
| EventMetadata.OrphanDeletionIsInvisible | app/database/event_log.py:286-308 | orphan deletion changes no read and leaves none of the given hashes unreferenced |
| EventMetadata.SwapShrinksUnredacted | app/database/event_log.py:219-283 | swapping in marked metadata takes exactly that event out of the unredacted set and changes no other read |
| EventMetadata.EventLog.SwapEventMetadata | app/database/event_log.py:248-283 | both statements in order, keeping every hash resolvable |
| EventMetadata.EventLog.Batch | app/database/event_log.py:219-245 | distinct unredacted events up to the limit, empty only if there are none |
| EventMetadata.EventLog.RedactVerboseEventPii | app/jobs/redact_verbose_event_pii.py:56-95 | reading the clock at every query, in batches of at most 100, the job ends having rewritten exactly the events old enough at its last query, each once, counts them, leaves none and changes no other read, in particular none at most a day old; it leaves no metadata without an event that had one before |
| Nonces.ConsumedAtMostOncePerMint | app/database/forward_auth_nonces.py:62-107 | in every order of statements consumptions plus the outstanding row never exceed the mints |
| Nonces.EveryMintIsAccountedFor | app/database/forward_auth_nonces.py:25-124 | in every order of statements the mints equal the consumptions plus the expiries swept plus the outstanding row |
| Nonces.ConsumptionIff | app/database/forward_auth_nonces.py:62-107 | a consumption succeeds if and only if an earlier mint for the same domain took hold, is not expired, and was neither redeemed nor swept in between |
| Nonces.MissChangesNothing | app/database/forward_auth_nonces.py:25-107 | a statement that misses changes nothing, and a mint or consumption that hits changes the table |
| Nonces.ConsumptionRedeemsMint | app/database/forward_auth_nonces.py:62-107 | each consumption redeems an earlier mint for the same domain, strictly before expiry and not redeemed since |
| Nonces.SweepsAreInvisibleIff | app/database/forward_auth_nonces.py:110-124 | with a clock that does not run backwards, sweeps change no result of a run if and only if no mint names a nonce whose expired row a sweep has taken |
| Nonces.SweepsAreInvisible | app/database/forward_auth_nonces.py:110-124 | while no nonce is minted twice, sweeps anywhere change no result |
| Nonces.RemintSeesSweep | db-init/migrations/0048_forward_auth_nonces.sql:34 | for every expired row, minting its nonce again fails before a sweep and succeeds after it |
| Nonces.NonceStore.CreateNonce | app/database/forward_auth_nonces.py:25-59 | the row is inserted unless the nonce is there already |
| Nonces.NonceStore.ConsumeNonce | app/database/forward_auth_nonces.py:62-107 | the matching unexpired row is returned and gone, or nothing changes |
| Nonces.NonceStore.DeleteExpiredNonces | app/database/forward_auth_nonces.py:110-124 | exactly the expired rows go and the count is exact |
| LikeSearch.ChainedReplaceIsOnePass | app/database/_core.py:37-43 | the three chained replacements equal one pass that escapes each special character |
| LikeSearch.EscapedMatchesItself | app/database/_core.py:37-43 | an escaped term in a pattern matches itself and nothing else, whatever follows |
| LikeSearch.ContainsIsExact | app/database/_core.py:37-43 | an escaped term between percent signs matches exactly the strings that contain it literally |
| LikeSearch.UnescapedContains | app/database/_core.py:37-43 | what escaping is for: an unescaped term finds exactly the strings that contain it with any character in place of each underscore |
| LikeSearch.ContainsIgnoringCase | app/database/groups/listing.py:19 | under any character-wise case folding, the search finds exactly the strings that contain the term up to case |
| LikeSearch.HostPatternIsPrefix | app/database/proxy_apps.py:86-93 | a host pattern matches exactly the URLs with that literal prefix |
| LikeSearch.MatchIsAuthority | app/database/proxy_apps.py:86-114 | the lookup matches exactly the https URLs whose authority without port is the host |
| LikeSearch.OneHostPerUrl | app/database/proxy_apps.py:86-114 | no URL matches two different hosts |
| LikeSearch.EnabledProxyAppFor | app/database/proxy_apps.py:94-114 | the oldest enabled app of the domain fronting the host, or none only if there is none |
| Pages.GetAllPages | app/pages.py:877-884 | the loop flattens the tree in preorder |
| Pages.SearchIsScan | app/pages.py:887-900 | the recursive search finds what a scan of the flattened tree finds first, on every tree |
| Pages.PermissionIsLevel | app/pages.py:1038-1054 | a page is open to a role if and only if the role ranks at least as high as the page asks |
| Pages.AccessIff | app/pages.py:1057-1076 | a path is open if and only if a page has it and asks for no more than the role; an unknown path is closed |
| Pages.FirstAmongIsDescend | app/pages.py:1079-1111 | the path-driven recursion equals the plain descent |
| Pages.FallbackNeverTaken | app/pages.py:1095-1106 | for every page of the tree with a navigable child the nested call returns a path, so the fallback branch is never taken |
| Pages.FirstAccessibleIsDescend | app/pages.py:1079-1111 | a redirect target exists if and only if some child is visible and permitted, and is where always taking the first such page ends |
| Pages.TargetIsAccessible | app/pages.py:1057-1111 | the target is accepted by the access check and would not redirect again |
| Pages.HigherRoleKeepsTarget | app/pages.py:1038-1111 | a higher role never turns a redirect into none |
| Attributes.LocaleMatchesIffParts | app/constants/user_attributes.py:232 | the language-tag pattern holds if and only if every part between dashes is well formed |
| Attributes.CanonicalLocale | app/constants/user_attributes.py:278-282 | the in-place rewriting of the parts gives the canonical form: no upper case letter before the first dash, no lower case letter in a second part of two or three letters, every other part as given, the same tag, and matching whenever the input did |
| Attributes.CanonicalLocaleStable | app/constants/user_attributes.py:271-282 | the canonical form matches the pattern again and is its own canonical form |
| Attributes.CanonicalLocaleSameTag | app/constants/user_attributes.py:278-282 | only letter case changes, so it is the same tag under section 2.1.1 of RFC 5646 |
| Attributes.CanonicalLocaleCase | app/constants/user_attributes.py:278-282 | the same, part by part, read off the canonical form itself |
| Attributes.LettersAndDigits | app/constants/user_attributes.py:229-241 | the letter and digit classes against the alphabet written out |
| Attributes.Spaces | app/constants/user_attributes.py:237-260 | the white space that is trimmed and matched, character by character |
| Attributes.StripCuts | app/constants/user_attributes.py:260 | trimming cuts white space off both ends and nothing else |
| Attributes.Registry | app/constants/user_attributes.py:72-192 | the type and maximal length of every key |
| Attributes.PhoneMatchesIff | app/constants/user_attributes.py:237 | a phone number has only phone characters and a digit on its first line |
| Attributes.PostalMatchesIff | app/constants/user_attributes.py:240 | a postal code has letters, digits, white space and dashes, at least one |
| Attributes.PhoneIff | app/constants/user_attributes.py:284-289 | a phone number that matches and is not too long is stored as trimmed, any other refused |
| Attributes.PostalIff | app/constants/user_attributes.py:291-296 | the same for postal codes |
| Attributes.CountryIff | app/constants/user_attributes.py:266-269 | a country is accepted if and only if it is two letters, and stored as the same two in upper case |
| Attributes.LanguageIff | app/constants/user_attributes.py:271-282 | a language is accepted if and only if its parts are well formed and it is not too long, and stored in canonical case |
| Attributes.TextIff | app/constants/user_attributes.py:260-299 | any other attribute takes any text of at least one and at most its maximal length, as trimmed |
| Attributes.KeyIff | app/constants/user_attributes.py:247-256 | a key is handled by its registered rule, and one that is not registered is refused |
| Attributes.StoredReadsBack | app/constants/user_attributes.py:247-316 | what is accepted is stored within the limit, differs from the trimmed input in case at most, and reads back as stored |

## Left out

- Row-level security: the tenant is fixed, or a column of the table; no policy is modelled.
- The remote ids the worker records, SCIM payloads, the HTTP client's own retries, the sync log and the non-generic provider quirks.
- Group resources at the receiver: their rows are queued and drained, but agreement is stated for users only.
- Changes of `scim_enabled` and of target URLs during a provisioning run.
- Group deletions that overlap with the statements of other hierarchy edits: `HierarchyRace` interleaves creations, checks, inserts and removals.
- `get_accessible_sps_with_attribution`, which lists groups per provider: it would only add another join of the same kind.
- Credentials and Tasks interleave on values: the classes run whole operations in place, one at a time, and the theorems about overlap are about the step functions.
- Credentials.CredentialTable.MarkRevoked: does not parse the interval text of `schedule_revocation`; the resulting time is a parameter.
- A LIKE pattern ending in a lone escape, which the database refuses and the model lets match nothing; no pattern built by the code ends that way.
- LikeSearch.ContainsIgnoringCase: does not model case foldings that change the length of a string.
- Attributes.StoredReadsBack: does not model values that are not strings, which the types exclude here.
- Navigation context (`find_page_with_ancestors`, nav strips): display logic without a stated promise.
- Cooperative shutdown and sleeping in the worker loop.
- Routers, settings, token and password hashing, single-row CRUD: easy members only.
