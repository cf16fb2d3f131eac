# Bucket-list roadmaps: a Dafny model of the document layer

This project models the document-shaped data of the bucket-list roadmap tracker and
the operations its API handlers perform on it:

- the **roadmap schema** (`src/models/Roadmap.ts`): a roadmap owns ordered categories,
  a category owns ordered checklist items, with the schema's defaults (`desc: ""`,
  `checked: false`, `icon: "fa-star"`, `color: "text-gray-500"`) and required paths;
- the **legacy flat category collection** (`src/models/Category.ts`), where every
  string path is required and only `checked` has a default;
- the **one-time migration** (`src/pages/api/migrate.ts`), which copies every legacy
  category into one of the caller's roadmaps unless a category with the same label is
  already there — including one copied earlier in the same run — and reports the count;
- the **legacy collection API** (`src/pages/api/bucket.ts`): list, add a category, push
  an item, set an item's flag, pull items, delete a category;
- **seeding** (`src/pages/api/seed_test.ts`): empty the legacy collection and refill it
  from a static list with every item unchecked.

The document store is in-memory sequences and the update operators are sequence edits.
Ids the store assigns (`_id`) are `nat` parameters that the caller promises are unused.
An HTTP outcome is a status code plus a small payload (`Http.Response`); a branch that
writes no response is `NoResponse`.

Modelling conventions:

- A missing string path and the empty string are the same value, `""`: both are falsy
  in JavaScript, and mongoose's `required` rejects both. Inputs use `Option` only where a
  schema default tells an undefined path apart from a given one.
- Casting (applying defaults) and validation (required paths) are separate, as in
  mongoose: `$push` casts without validating, while `create`, `insertMany` and `save`
  validate. So a migrated roadmap whose legacy items lack a name fails `save()` with 500
  and nothing is stored, and an item pushed through the legacy API is stored unvalidated.
- Files: `wrappers.dfy` (Option, Result), `schema.dfy` (required-path check, JS `||` on
  strings), `seqs.dfy` (first-match search, order-preserving selection), `roadmap.dfy`, `legacy.dfy`,
  `http.dfy`, `migrate.dfy`, `bucket.dfy`, `seed.dfy`.

Two behaviours of the code are easy to miss: the roadmap's invited users go into a
plain string array, so the schema lets the same email appear twice and lets the owner
be invited too (`Roadmaps.InvitedUsersUnconstrained`); and a POST to the legacy API whose
`type` is neither `category` nor `item` writes no response at all.

Ids missing from a request body drop out of the store's filter instead of failing: a
migration without `roadmapId` works on the caller's first roadmap
(`Migration.AbsentIdPicksFirstOwned`), and a PUT without `categoryId` sets the flag of
the item in the first category that holds it (`Bucket.FindMatch`).

## Model

| member | source | states |
|---|---|---|
| `Roadmaps.NewItem` | src/models/Roadmap.ts:4-9 | an item is accepted iff its name is a non-empty string; a missing description becomes `""`, a missing flag `false`; the link is absent unless given |
| `Roadmaps.NewCategory` | src/models/Roadmap.ts:12-17 | a category is accepted iff its label is present and every item is accepted; missing icon and colour become `"fa-star"` and `"text-gray-500"`; items keep their order |
| `Roadmaps.NewRoadmap` | src/models/Roadmap.ts:20-26 | a roadmap is accepted iff name and owner email are present and every category is accepted; invited users are kept exactly as given |
| `Roadmaps.InvitedUsersUnconstrained` | src/models/Roadmap.ts:23 | the schema accepts a roadmap whose invited users repeat the owner's email twice |
| `Legacy.NewItem` | src/models/Category.ts:3-7 | a legacy item is accepted iff name and description are both present; its flag defaults to `false` |
| `Legacy.NewCategory` | src/models/Category.ts:9-14 | a legacy category is accepted iff label, icon and colour are present (no defaults) and every item is accepted; the items keep their order |
| `Migration.Import` | src/pages/api/migrate.ts:42-50 | the pushed category keeps label, icon, colour, item count, item order, names, descriptions and flags; no item gets a link |
| `Migration.Merge` | src/pages/api/migrate.ts:36-54 | the copy never shrinks the roadmap and the pre-existing categories stay, unchanged, at their positions |
| `Migration.TurnAppendsIffLabelAbsent` | src/pages/api/migrate.ts:38-52 | the turn for a legacy category appends its import iff no category with its label is present at that moment, counting earlier appends of the same run; otherwise it changes nothing |
| `Migration.MergeLabels` | src/pages/api/migrate.ts:36-54 | afterwards the set of labels is exactly the original labels plus the legacy labels |
| `Migration.MergeHasEveryLegacyLabel` | src/pages/api/migrate.ts:36-54 | afterwards every legacy label occurs in the roadmap |
| `Migration.MergeAppendsInLegacyOrder` | src/pages/api/migrate.ts:36-51 | the appended categories are imports of legacy categories, in legacy-collection order |
| `Migration.MergeNeverRepeatsLabel` | src/pages/api/migrate.ts:38-40 | no appended category repeats a label standing before it, so a duplicated legacy label is appended at most once |
| `Migration.MergeOfPresentLabels` | src/pages/api/migrate.ts:38-40 | when every legacy label is already present, the copy appends nothing |
| `Migration.MergeIdempotent` | src/pages/api/migrate.ts:36-54 | copying the same legacy list a second time leaves the categories unchanged |
| `Migration.MergeGrowth` | src/pages/api/migrate.ts:35-53 | the number of appended categories equals the number of distinct legacy labels not already in the roadmap |
| `Migration.FindOwned` | src/pages/api/migrate.ts:22-25 | the lookup finds the first roadmap whose owner is the caller and whose id is the given one, when one is given, and reports none when no roadmap matches |
| `Migration.AbsentIdPicksFirstOwned` | src/pages/api/migrate.ts:22-25 | without a `roadmapId` the lookup succeeds iff the caller owns some roadmap, and picks the first one the caller owns |
| `Migration.Migrate` | src/pages/api/migrate.ts:8-62 | no caller email gives 401 before the method check; a non-POST gives 405; no owned roadmap or an empty legacy collection gives 404; these change nothing; otherwise the roadmap's categories become the merge, and it is saved with status 200 and the count equal to the growth, or on a failed validation 500 with nothing saved |
| `Migration.MigrateTwice` | src/pages/api/migrate.ts:25-57 | after a successful run, running again on the saved roadmaps reports 0 and saves the same roadmaps |
| `Seqs.FirstIndex` | src/pages/api/bucket.ts:26-30 | the position of the first element meeting the condition, or a proof that none does: the search behind every single-document lookup |
| `Bucket.FindById` | src/pages/api/bucket.ts:26-30 | finds the first category with the given id, or reports that no category has it |
| `Bucket.FindItem` | src/pages/api/bucket.ts:39-42 | finds the first item with the given id, which the positional update selects |
| `Bucket.Found` | src/pages/api/bucket.ts:26-31 | the returned document is a stored category with the id, present iff one exists |
| `Bucket.PushItem` | src/pages/api/bucket.ts:24-31 | the item is appended to the end of that category only; all other categories and all headers are untouched; an unknown id changes nothing |
| `Bucket.FindMatch` | src/pages/api/bucket.ts:36-39 | the first category whose id is the given one, when one is given, and which holds an item with the item id, or none when no category meets the filter |
| `Bucket.MatchById` | src/pages/api/bucket.ts:38-39 | with unique ids and a category id given, the filter matches the category with that id exactly when it holds the item |
| `Bucket.SetChecked` | src/pages/api/bucket.ts:36-46 | in the first category the filter matches, only the flag of the first item with the id changes; its id, name and description, other items and other categories are untouched; no match changes nothing |
| `Bucket.Updated` | src/pages/api/bucket.ts:38-47 | the returned document is present iff the filter matched; it is the matched category as stored after the update, with the same id, label, icon, colour and items except that the first item with the id now carries the new flag |
| `Bucket.Without` | src/pages/api/bucket.ts:58 | the items left are those whose id differs, as a selection in their original order; with no item of that id nothing changes |
| `Bucket.WithoutCounts` | src/pages/api/bucket.ts:58 | every copy of an item whose id differs stays and no item with the id does, so with the selection order the result is fixed |
| `Bucket.PullItems` | src/pages/api/bucket.ts:55-59 | every item with the id leaves that category; other categories and all headers are untouched |
| `Bucket.RemoveCategory` | src/pages/api/bucket.ts:65-66 | the first category with the id is removed and the rest keep their order; an unknown id changes nothing |
| `Bucket.RemoveCategoryExact` | src/pages/api/bucket.ts:65-69 | with unique ids, the categories left are exactly those with a different id, and ids stay unique |
| `Bucket.LegacyCollection.Get` | src/pages/api/bucket.ts:12-15 | GET answers 200 with every stored category and changes nothing |
| `Bucket.LegacyCollection.Post` | src/pages/api/bucket.ts:17-33 | `category` appends exactly the validated new category with 201, or answers 500 and changes nothing; `item` pushes the cast item into the category with that id and returns that category or null; any other type changes nothing and sends no response; ids stay unique |
| `Bucket.LegacyCollection.Put` | src/pages/api/bucket.ts:35-48 | the collection becomes the flag update, with an absent category id dropped from the filter, and the response carries the updated category, or null when nothing matched |
| `Bucket.LegacyCollection.Delete` | src/pages/api/bucket.ts:50-72 | with both category and item ids the items are pulled, whatever `id` is; else with `id` the category is removed; else 400 and no change |
| `Bucket.LegacyCollection.Handle` | src/pages/api/bucket.ts:11-77 | dispatches on the method as the handler's `switch` does: each of GET, POST, PUT and DELETE gives the new contents and the response of its branch, and a method without a branch gives 400 and no change |
| `Seeding.FormatItems` | src/pages/api/seed_test.ts:18-22 | same items in the same order, names and descriptions kept, every flag `false` |
| `Seeding.Format` | src/pages/api/seed_test.ts:14-23 | same categories in the same order, label, icon and colour kept, items formatted |
| `Seeding.InsertMany` | src/pages/api/seed_test.ts:26 | the insert succeeds iff every document validates, and then stores each validated document in order |
| `Seeding.SeedAccepted` | src/pages/api/seed_test.ts:14-26 | seeding is accepted iff every label, icon, colour, item name and description of the static list is non-empty |
| `Seeding.SeededContents` | src/pages/api/seed_test.ts:14-26 | what seeding stores is the static list in order under the assigned ids, every field kept and every item unchecked |
| `Seeding.Seed` | src/pages/api/seed_test.ts:9-29 | the collection is first emptied and then holds exactly the inserted list (or stays empty when validation fails, with 500); the result depends only on the list and the ids, so no earlier category survives |
| `Seeding.SeedTwice` | src/pages/api/seed_test.ts:10-11 | seeding a second time with the same list and ids gives the same response and the same contents as the first time |
| `Bucket.LegacyCollection.Clear` | src/pages/api/seed_test.ts:11 | deleting every category leaves the collection empty |
| `Bucket.LegacyCollection.Replace` | src/pages/api/seed_test.ts:26 | a validated list under unique ids becomes the contents, in order, and the collection stays valid |

## Left out

- Sessions and the authentication handler are outside the model; the migration sees only whether a caller email is present.
- Connecting to the database (`src/lib/mongodb.ts`), store failures and every `catch` path ending in 500 are left out; only schema validation failures are modelled as 500.
- A malformed id (a string that is not an ObjectId) raises a cast error in the store, which the handlers answer with 500; ids are modelled as `nat`, so this path is not modelled.
- Bucket.LegacyCollection.Put: a body without `itemId` leaves the positional update nothing to select, a store error; the item id is modelled as always present.
- Bucket.LegacyCollection.Post: an item push without `categoryId` is modelled with the id present; how the store treats an absent id there is not modelled.
- The roadmap's `createdAt` timestamp and the ids mongoose gives to the sub-documents of a roadmap are not used by the modelled code and are left out.
- Bucket.LegacyCollection.Get: promises the stored categories but not their order, because the source sorts on `createdAt`, which the legacy schema does not define.
- Bucket.LegacyCollection.Post: the pushed item's fields are taken as strings; mongoose's casting of other JSON types is not modelled.
- Bucket.LegacyCollection.Put: the flag is a boolean; a request without `checked` is not modelled.
- Seeding.InsertMany: a validation failure inserts nothing; partial insertion by the store is not modelled.
- Response messages and the `success` flag of the JSON bodies are not modelled, only status codes and data.
- Concurrent requests and lost updates between load and save are outside the model.
- The page components (`src/pages/index.tsx`, `src/pages/roadmap/[id].tsx`), `next.config.ts`, the user model and the static seed list `src/data.ts` (a parameter here) are not part of this model.
- Invitations, owner/member access control and the roadmap create, patch and delete endpoints belong to the roadmap pages and API, whose code is not part of this model.
