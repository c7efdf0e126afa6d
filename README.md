# Identity reconciliation, modelled in Dafny

This project models the identity-reconciliation service of a contact
store: `reconcileIdentity` in `src/services/identityService.ts` and the
helpers it calls. A request carries an optional email and an optional
phone number. The service does five things:

- It finds the live contacts that share either value.
- It expands them to their whole clusters.
- It lets the oldest primary of those clusters win and demotes the others under it.
- It adds a secondary contact when the request brings a value the merged cluster lacks.
- It answers with the consolidated view of the winner's cluster: the primary id, deduplicated emails and phone numbers, and the secondary ids.

The database is replaced by an in-memory table of `Contact` records:

- Rows are kept in insertion order.
- Ids are handed out in increasing order starting at 1.
- `createdAt` is a tick of a logical clock that increases with every insert.
- `deletedAt` marks a soft-deleted row, which every query skips.

Files:

- `contacts.dfy` (module `Contacts`): the `Contact` record, the response
  record `ConsolidatedContact` (keeping the field spelling
  `primaryContatctId` of `src/types/index.ts`), and the reading of
  `value || null`, under which an empty string counts as absent.
- `table.dfy` (module `Table`): the table as a value.
  - The queries: `FindMatchingContacts`, the cluster query used by `expandToFullCluster`, and `getFullCluster`.
  - The updates: `createContact`, `update` and `updateMany`.
  - The closed form `DemoteAll` of the demotion loop.
  - The cluster invariant `WellFormed`: every cluster has one live primary, its oldest member, and every live secondary links straight to it.
  - The separation invariant `ValuesSeparated`: two live rows that share a present email or phone number belong to the same cluster. Every reconciliation merges all clusters a request touches, so no value is ever left in two clusters.
- `response.dfy` (module `Response`): `buildResponse`. It is a method whose two
  accumulation loops are proved equal to `ConsolidatedView`. That function
  deduplicates the present values (`Dedup` of `PresentValues`), and its
  properties are proved as lemmas.
- `reconcile.dfy` (module `Reconciliation`): the whole algorithm as the function
  `Reconcile(table, email, phone)`, which returns the new table and the response.
- `properties.dfy` (module `Properties`): what the service guarantees.
  - The new-identity case.
  - The merge rule: the oldest primary wins.
  - Flattening.
  - A secondary is created exactly when the request brings new information.
  - Preservation of the cluster invariant.
  - The ordering of the response.
  - Idempotence of a repeated request.
- `store.dfy` (module `Store`): the class `ContactStore`, a mutable table whose
  methods follow the source step by step:
  - `CreateContact`;
  - `ExpandToFullCluster`, with its id set and its id-keyed map;
  - `DemotePrimariesToSecondary`, with its update/updateMany loop;
  - `ReconcileIdentity`, proved to produce exactly the table and the response of `Reconcile`, and to keep both invariants.
  - `Valid()` is the conjunction of the two invariants. `CreateContact` and `DemotePrimariesToSecondary` state when they keep it.

## Model

| member | source | states |
|---|---|---|
| Contacts.Normalize | src/services/identityService.ts:21-22 | a value is kept exactly when it is present (non-null, non-empty); null, undefined and "" all become absent |
| Table.FindMatchingContacts | src/services/identityService.ts:90-107 | no match when both values are absent; otherwise exactly the live rows whose email equals the present email or whose phone equals the present phone |
| Table.ClusterQuery | src/services/identityService.ts:125-133 | exactly the live rows whose id or linkedId is one of the root ids |
| Table.FullCluster | src/services/identityService.ts:144-152 | exactly the live rows whose id is the primary id or whose linkedId is it |
| Table.FullClusterOrdered | src/services/identityService.ts:150 | the cluster comes out in ascending creation order (and ascending id order) |
| Table.DemoteStep | src/services/identityService.ts:159-181 | one loop iteration (update the primary to secondary linked to the new primary, then re-link its live secondaries) grows the set of demoted ids by that one id in the closed form |
| Table.DemoteNothing | src/services/identityService.ts:54-56 | demoting no primary leaves every row as it was |
| Table.DemotePreservesWellFormed | src/services/identityService.ts:155-182 | demoting live primaries newer than a live primary under it keeps every cluster at depth 1 with its oldest member as primary |
| Table.DemotedRowJoinsWinner | src/services/identityService.ts:159-180 | after demotion a row is a live member of the winner's cluster if and only if it was a live member of the winner's or a demoted primary's cluster |
| Table.ClusterValuesAgree | src/services/identityService.ts:59-68 | tables whose rows agree in value and in cluster membership give the refreshed cluster the same emails and phones as the touched clusters |
| Table.RootId | src/services/identityService.ts:116-118 | the root of a row is its own id when it is primary; the row is in the cluster of its root |
| Table.SetSecondary | src/services/identityService.ts:161-168 | `update` by id: the row with that id becomes a secondary linked to the target; every other field and every other row is unchanged |
| Table.Relink | src/services/identityService.ts:171-180 | `updateMany`: exactly the live rows linked to the old id are re-linked to the new one; no live row links to the old id afterwards; nothing else changes |
| Table.Created | src/services/identityService.ts:191-198 | the created row is live, and its id and tick exceed those of every row of a well-formed table |
| Table.Insert | src/services/identityService.ts:191-198 | the table afterwards holds exactly the old rows and the new one, and stays in creation order when the new row is the newest |
| Table.DemotedRoot | src/services/identityService.ts:159-180 | after demotion a row's root is the winner when its old root was demoted or was the winner, and is unchanged otherwise |
| Table.DemotePreservesSeparation | src/services/identityService.ts:155-182 | demoting primaries under a winner keeps live rows that share a value in one cluster |
| Table.InsertPreservesSeparation | src/services/identityService.ts:185-199 | appending a row that shares values only with its own cluster keeps live rows that share a value in one cluster |
| Table.SameRow | src/services/identityService.ts:48 | in a table kept in creation order a row is determined by its id or by its creation time, so the sort key never ties |
| Table.FilterKeepsOrder | src/services/identityService.ts:80-82 | filtering an ordered list (the secondaries of the final cluster) keeps it ordered |
| Reconciliation.HasNewInfo | src/services/identityService.ts:62-70 | new information needs a present value; a cluster member carrying exactly the request's email and phone means there is none |
| Reconciliation.OldestPrimary | src/services/identityService.ts:48-49 | the chosen primary is one of the candidates, and no candidate was created before it |
| Reconciliation.MatchesInExpansion | src/services/identityService.ts:115-122 | every matched contact is part of the expanded set |
| Reconciliation.ExpansionPrimaries | src/services/identityService.ts:40 | the primaries of the expanded set are exactly the live primary rows whose id is a root of a match |
| Reconciliation.ExpansionHasPrimary | src/services/identityService.ts:40-56 | when something matched, the expanded set holds at least one primary, so `primaries[0]` is always defined |
| Reconciliation.Reconcile | src/services/identityService.ts:17-87 | a reconciliation adds at most one row, and the id counter and the clock advance by exactly the number of rows added |
| Response.DedupDistinct | src/services/identityService.ts:206-224 | the response lists hold no value twice, and hold exactly the values of their input |
| Response.DedupKeepsHead | src/services/identityService.ts:208-218 | the first value pushed stays element 0 |
| Response.DedupFirstSeenOrder | src/services/identityService.ts:210-214 | values appear in the order of their first occurrence |
| Response.PresentValues | src/services/identityService.ts:210-224 | a value is listed exactly when it is non-empty and some contact carries it |
| Response.PresentValuesOrder | src/services/identityService.ts:210-224 | the present values keep the relative order of their first occurrences among the contacts |
| Response.DedupPresentOrder | src/services/identityService.ts:206-224 | the deduplicated present values are in first-seen order: a value listed before another occurs before every occurrence of the other |
| Response.ConsolidatedViewOrder | src/services/identityService.ts:206-224 | in the view, an email or phone listed before another is carried by an earlier contact than any contact carrying the other |
| Response.FirstIndex | src/services/identityService.ts:211 | the position found holds the value, and no earlier position does (`includes` sees the first occurrence) |
| Response.ConsolidatedViewShape | src/services/identityService.ts:202-234 | the primary id is the primary's; the emails and phones are duplicate-free and are exactly the present values of the primary and its secondaries; the primary's value is element 0 when present; the ids are the secondaries' ids in the order given |
| Response.LoneView | src/services/identityService.ts:33 | a primary without secondaries is reported with just its own present values and no secondary ids |
| Response.BuildResponse | src/services/identityService.ts:202-234 | the two push loops and the id map compute exactly the consolidated view |
| Store.MapSet | src/services/identityService.ts:121-137 | `Map.set` keyed by id: the new entry is present, entries with other ids survive, and the ids stay distinct |
| Store.OldestIgnoresOrder | src/services/identityService.ts:48-49 | the oldest primary is the same however the primaries are ordered, so the order in which the map yields them does not matter |
| Store.ExpandedPrimaries | src/services/identityService.ts:40 | filtering the expanded contacts for primaries gives the primaries of the touched clusters |
| Store.AllBut | src/services/identityService.ts:52 | the primaries to demote are all primaries except the winner |
| Store.AllButIds | src/services/identityService.ts:52-53 | the ids demoted are exactly the touched primaries' ids without the winner's |
| Store.SingleTouchedPrimary | src/services/identityService.ts:54-56 | a single primary in the expanded set is the winner and nothing is demoted |
| Store.ContactStore.CreateContact | src/services/identityService.ts:185-199 | the new row gets the next id and the current tick, is live, and is appended to the table; a valid store stays valid when the row's link names a live primary (and only a primary is unlinked) and it shares values only with its own cluster |
| Store.ContactStore.ExpandToFullCluster | src/services/identityService.ts:110-141 | the result holds no id twice and holds exactly the matched contacts and the live members of their clusters (root of a primary is its id, of a secondary its linkedId, falling back to its id) |
| Store.ContactStore.DemotePrimariesToSecondary | src/services/identityService.ts:155-182 | the loop of update and updateMany leaves the table equal to the closed-form demotion of the given ids, whatever their order; a valid store stays valid when the demoted rows are live primaries stored after the live new primary |
| Store.ContactStore.ReconcileIdentity | src/services/identityService.ts:17-87 | the step-by-step service yields exactly the new table and the response of `Reconcile`, and the store stays well formed with its values separated |
| Properties.RootsAreLivePrimaries | src/services/identityService.ts:116-118 | every root a match resolves to is the id of a live primary row |
| Properties.RootsSplit | src/services/identityService.ts:45-53 | the touched roots are the winner's id and the demoted ids |
| Properties.LoserIsNewerPrimary | src/services/identityService.ts:48-53 | every demoted primary is a live primary created after the winner |
| Properties.WinnerFacts | src/services/identityService.ts:45-56 | the winner is a live primary of a touched cluster; it is not demoted; every demoted primary is stored after it and was created after it |
| Properties.MergedClusterIsTouchedClusters | src/services/identityService.ts:53-59 | after the merge a row is in the winner's cluster if and only if it was a live member of a touched cluster |
| Properties.MergedClusterValues | src/services/identityService.ts:59-68 | the refreshed cluster holds exactly the emails and phones of the touched clusters |
| Properties.OldestPrimaryWins | src/services/identityService.ts:45-53 | the reported primary is a live primary of a touched cluster; every other primary of those clusters was created after it and is now its secondary |
| Properties.MergeFlattens | src/services/identityService.ts:170-180 | after a merge no live row links to a demoted primary; every live member of a touched cluster belongs to the winner's cluster; rows outside the touched clusters are unchanged |
| Properties.NewIdentity | src/services/identityService.ts:30-34 | with no match exactly one row is added, a primary with no link carrying the request's values, and the response lists just those values and no secondary ids |
| Properties.SecondaryCreatedExactlyOnNewInfo | src/services/identityService.ts:59-76 | a row is added if and only if the request brings an email or a phone absent from the touched clusters; it is then a secondary of the winner carrying the request's values, and otherwise the table is the merged table |
| Properties.InsertPreservesWellFormed | src/services/identityService.ts:185-199 | appending a live row with the next id and tick, linked to a live primary or unlinked as primary, keeps the table well formed |
| Properties.InsertKeepsValid | src/services/identityService.ts:185-199 | appending a fresh live row that fits the table keeps it well formed with its values separated |
| Properties.DemoteKeepsValid | src/services/identityService.ts:155-182 | demoting live primaries stored after a live winner keeps the table well formed with its values separated |
| Properties.ReconcilePreservesSeparation | src/services/identityService.ts:17-87 | after a reconciliation, live rows that share an email or phone still lie in one cluster |
| Properties.SharedValueMatches | src/services/identityService.ts:90-107 | a live row sharing a value with a row carrying the request's values is one of the request's matches |
| Properties.MatchesJoinRoot | src/services/identityService.ts:45-76 | after the merge every live row sharing a value with the request lies in the winner's cluster |
| Properties.ReconcilePreservesWellFormed | src/services/identityService.ts:17-87 | reconciliation keeps one live primary per cluster, the oldest member, with every live secondary linked straight to it |
| Properties.PrimaryIsOldest | src/services/identityService.ts:144-152 | every other member of a primary's cluster is a secondary linked to it and created after it |
| Properties.ReconcileReportsResolvedCluster | src/services/identityService.ts:79-86 | the response is the view of the resolved primary's cluster in the new table, and that primary is a live primary row of it |
| Properties.NewPrimaryIsAlone | src/services/identityService.ts:30-34 | the contact created for an unmatched request is alone in its cluster and the response is its cluster view |
| Properties.ClusterViewOrdering | src/services/identityService.ts:79-86 | the reported secondary ids are exactly the live rows linked to the primary, all newer than it, in ascending creation order |
| Properties.KnownValuesChangeNothing | src/services/identityService.ts:59-76 | in a well-formed table with separated values, a request whose present values all occur in one cluster changes nothing and reports that cluster under its primary's id |
| Properties.ContainedRequestChangesNothing | src/services/identityService.ts:59-76 | a request whose values all lie in one cluster and which matches nothing outside it changes nothing and reports that cluster under its primary's id |
| Properties.KnownValuesStayInCluster | src/services/identityService.ts:90-107 | with separated values, every row a request matches is in the cluster that already holds the request's values |
| Properties.SharedValueSameCluster | src/services/identityService.ts:90-107 | with separated values, a live row sharing a value with a member of a cluster is in that cluster |
| Properties.RootInCluster | src/services/identityService.ts:144-152 | a live row is in a primary's cluster exactly when that primary is its root |
| Properties.MatchesResolveTo | src/services/identityService.ts:116-118 | such a request matches something, and every match resolves to that cluster's primary |
| Properties.SingleClusterNoMerge | src/services/identityService.ts:54-56 | a match inside one cluster elects its primary and demotes nothing |
| Properties.NoMatchRepeat | src/services/identityService.ts:30-34 | after an unmatched request, the new primary's cluster holds every row the request matches and the values it carries |
| Properties.MatchRepeat | src/services/identityService.ts:45-76 | after a matched request, the winner's cluster holds every row the request matches and the values it carries |
| Properties.MatchedRowsInRoots | src/services/identityService.ts:115-133 | every row the request matches lies in a touched cluster |
| Properties.NewRowCarriesRequest | src/services/identityService.ts:70-76 | after the step that may add a secondary, the winner's cluster lacks none of the request's values |
| Properties.RepeatRequestIsIdempotent | src/services/identityService.ts:17-87 | repeating a request with a present value returns the same response and leaves the table as the first call left it |

## Left out

- The Prisma client and SQL are not modelled. The store is an in-memory
  sequence of rows with the same filter semantics, including the exclusion
  of soft-deleted rows. `findMany` without `orderBy` is modelled as returning
  rows in table order. The only order that reaches a result is the order of
  the primaries, and `Store.OldestIgnoresOrder` shows it does not matter.
- `async`/`await`, logging (`logger.info`), the HTTP layer, the error
  handler and start-up code are left out. They do not affect the table or
  the response.
- Request validation is left out. `Reconcile` accepts both values absent,
  as the service itself does: it then creates a primary with neither value.
  `Properties.RepeatRequestIsIdempotent` requires a present value, because
  a blank request creates a new primary every time.
- Wall-clock dates are left out. `createdAt` is a logical tick that grows
  with every insert, so creation times never tie. `updatedAt` is not kept.
- Concurrency and transactions are left out. Reconciliations are
  sequential calls on one store.
- The crash on `primaries[0]` when no primary is found is not modelled.
  Under the cluster invariant it cannot happen (`Reconciliation.ExpansionHasPrimary`).
  The invariant is a precondition of `ReconcileIdentity`.
- Store.ContactStore.DemotePrimariesToSecondary does not track the order
  in which the demotions run: it processes the primaries other than the
  winner (`Store.AllBut`) instead of the sorted tail `slice(1)`. Its final
  table depends only on the set of demoted ids, which is proved, so the
  result is the same.
- Soft deletion by another component is not modelled. The cluster
  invariant assumes every live secondary links to a live primary.
- An `update` of a missing id, which Prisma rejects, is modelled as a
  no-op. It cannot happen, because the demoted ids come from the table.
