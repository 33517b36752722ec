# Customer directory sync: a Dafny model

This project models the server side of a small customer/company admin application in Dafny.
The application keeps a local store of customers and companies. Once a day it reconciles
that store with an external customer directory (`syncCustomers`):

- Each external record carries a stable external id, contact fields and an ordered list of
  addresses. An address may name a company.
- For each address in order, the company is looked up by the exact name `address.company || ''`.
  A company that is found gets its four address fields overwritten. A company that is not found
  is created, but only when the address names one.
- Every company found or created is collected, and the customer is then upserted by external
  id. Its contact fields come from the record, with null stored as `''`. The collected
  companies are `connect`ed: they are added to the customer's associations, and nothing is
  removed.

Two neighbouring operations of the same file are modelled on the same store:

- the handler that attaches a company to a customer by id;
- the search filter of the customer list endpoint.

## Structure

- `tables.dfy` (module `Tables`): the two tables as maps from local id to row, each with the
  counter that issues the next id. It also defines the two natural-key lookups: company by name
  (`findFirst`) and customer by external id (`findUnique`).
- `feed.dfy` (module `Feed`): the external record and address shapes, and the `|| ''` defaulting.
- `reconcile.dfy` (module `Reconcile`): the sync as functions over a store value.
  - one address: `UpsertCompany`;
  - the address loop: `UpsertCompanies`;
  - one record: `ApplyRecord`;
  - the whole feed: `ApplyFeed`;
  - and `AttachCompany`.
- `store.dfy` (module `CustomerStore`): the store as a class whose map and counter fields the
  methods update in place. Each loop is proved, through its invariants, to produce exactly
  the state the `Reconcile` functions describe.
- `idempotence.dfy` (module `Idempotence`): syncing the same feed twice equals syncing it once.
- `search.dfy` (module `Search`): the list filter and substring search.
- `scenarios.dfy` (module `Scenarios`): worked examples on concrete stores.

## Model

| member | source | states |
|---|---|---|
| Tables.FindCompany | server/routes/customer.ts:208-212 | The found company carries exactly the name looked up and is the first such row; None means no row has that name. |
| Tables.FindCompanyStable | server/routes/customer.ts:207-241 | As the company table grows the way the sync grows it, a name that is found keeps finding the same company, and the empty name, never given to a created company, stays unfound. |
| Tables.FindCustomer | server/routes/customer.ts:201-203 | The found customer carries the external id; None means no customer carries it. |
| Tables.FindCustomerStable | server/routes/customer.ts:201-203 | In a table with unique external ids, a found external id keeps finding the same customer as customers are created. |
| Feed.OrEmpty | server/routes/customer.ts:210 | `value \|\| ''`: null and `''` both give `''`; any other value is kept. |
| Feed.CompanyName | server/routes/customer.ts:210-229 | The looked-up name `address.company \|\| ''` is non-empty exactly when the truthiness test on `address.company` holds, and is then the name a created company receives. |
| Feed.LocationOf | server/routes/customer.ts:220-223 | Each of address1, address2, city and province is the address's value when present and `''` when null. |
| Feed.ContactOf | server/routes/customer.ts:244-247 | Each of first name, last name, email and phone is the record's value when present and `''` when null. |
| Reconcile.Valid | server/routes/customer.ts:201-203 | The store's invariant: ids issued by the counters, `customerId` unique where present (the column `findUnique` looks up), every association pointing at an existing company. |
| Reconcile.ValidStoreFindsTheOnlyCustomer | server/routes/customer.ts:201-203 | In a valid store the lookup by external id finds exactly the one customer carrying it. |
| Reconcile.UpsertCompany | server/routes/customer.ts:208-240 | One address links the company its name finds and overwrites that company's address fields, null becoming `''`, keeping its name and id. A company is created only when none has the name and the address names one. Every other row is unchanged. |
| Reconcile.UpsertCompanies | server/routes/customer.ts:205-241 | The address loop only extends the company table (old rows keep id and name, new rows get fresh ids and non-empty names), and every collected id is a company of the table. |
| Reconcile.UpsertCompanyCreatesOnlyNewNames | server/routes/customer.ts:208-236 | One address creates a company only under a name no company had. |
| Reconcile.UpsertCompaniesCreatesOnlyNewNames | server/routes/customer.ts:207-241 | The address loop creates no duplicate company: every company it creates has a name no company had before the loop, and no two it creates share a name. |
| Reconcile.Resolve | server/routes/customer.ts:207-240 | The companies the addresses' names find are companies of the table. |
| Reconcile.UpsertCompaniesFindsNames | server/routes/customer.ts:207-236 | After the loop every non-empty company name of the record's addresses is found. |
| Reconcile.ResolveStable | server/routes/customer.ts:207-240 | Once a record's non-empty names are found, growing the table does not change the companies they find. |
| Reconcile.LinkedIsResolved | server/routes/customer.ts:238-240 | The set of ids the loop pushes is exactly the set of companies the addresses' names find in the final table. |
| Reconcile.ApplyRecord | server/routes/customer.ts:200-265 | A record's merge keeps the store valid: ids issued, external ids unique, associations pointing at companies. The company table is the address loop's, and existing customers keep their ids and external ids. |
| Reconcile.RecordUpsertsByExternalId | server/routes/customer.ts:201-265 | The record updates the customer with that non-empty external id in place, adding no row. It creates exactly one customer when none carries the id. When the id is `''` and already taken, the create fails on the unique column and no customer changes. |
| Reconcile.RecordSetsCustomer | server/routes/customer.ts:243-265 | The customer written takes the record's contact fields, null becoming `''`. Its associations become the prior ones united with the companies the addresses find. Every other customer is unchanged. |
| Reconcile.RecordKeepsAssociations | server/routes/customer.ts:248-257 | A record's merge removes no customer's association. |
| Reconcile.WriteKeepsStoreValid | server/routes/customer.ts:253-257 | Updating a customer through its own external id, linking only existing companies, keeps external ids unique and associations pointing at companies. |
| Reconcile.CreateKeepsStoreValid | server/routes/customer.ts:258-265 | Creating a customer under a fresh id with an external id no customer carries keeps external ids unique and associations pointing at companies. |
| Reconcile.ApplyFeed | server/routes/customer.ts:200-266 | A pass keeps the store valid and gives one outcome per record. It only extends both tables, and no customer loses an association. |
| Reconcile.ApplyFeedCreatesOnlyNewNames | server/routes/customer.ts:200-266 | A pass creates no duplicate company: every company it creates has a name no company had before the pass, and no two it creates share a name. |
| Reconcile.ApplyFeedKeepsCompanyNamesUnique | server/routes/customer.ts:200-266 | On a store where no two companies share a name, a pass keeps it so. |
| Reconcile.AttachCompany | server/routes/customer.ts:94-112 | An unknown company id reports not-found and an unknown customer id reports the failed update. Otherwise the company joins that customer's associations and nothing else changes. |
| Reconcile.AttachedCompanySurvivesSync | server/routes/customer.ts:104-112 | A company attached by hand is still attached after any later pass. |
| Idempotence.UpsertCompaniesAbsorb | server/routes/customer.ts:207-241 | The address loop leaves every canonical company of a name with the location of the last address naming it, and every non-empty name found. |
| Idempotence.LaterAddressWins | server/routes/customer.ts:207-241 | Within one record, when two addresses name the same company, the company keeps the later address's fields. |
| Idempotence.NoRecordNoLinks | server/routes/customer.ts:248-250 | An external id with no record in the feed links no company. |
| Idempotence.LinkedForStable | server/routes/customer.ts:207-250 | Once the feed's names are found, growing the company table does not change what the feed's records link. |
| Idempotence.RecordAbsorbsCompanies | server/routes/customer.ts:207-241 | Merging one more record preserves the invariant that canonical companies hold the feed's last location for their name and that every non-empty name is found. |
| Idempotence.RecordAbsorbsCustomers | server/routes/customer.ts:243-265 | Merging one more record preserves the invariant that synced customers hold their last record's contact fields and every company their records link, and that every external id of the feed is found. |
| Idempotence.RecordAbsorbs | server/routes/customer.ts:201-265 | Merging a feed's last record into a store that absorbs the rest of the feed gives a store that absorbs the whole feed. |
| Idempotence.SyncAbsorbsFeed | server/routes/customer.ts:200-266 | After a pass, each canonical company holds the location the feed gives its name last. Each customer with a non-empty external id holds its last record's contact fields and every company its records link. Every external id and every non-empty company name of the feed is found. A customer with the external id `''` is not covered: a second record with that id fails to create and leaves the first record's fields. |
| Idempotence.FeedLastAddressWins | server/routes/customer.ts:207-241 | After a pass, each non-empty company name of the feed finds one company holding the fields of the feed's last address with that name. |
| Idempotence.ReplayedSameShape | server/routes/customer.ts:214-225 | Overwriting address fields keeps every company's id and name, so every name lookup is unchanged. |
| Idempotence.ReplayUpsertCompany | server/routes/customer.ts:208-240 | On a store where the address's name is found, one address only overwrites the canonical company's location. |
| Idempotence.ReplayUpsertCompanies | server/routes/customer.ts:207-241 | On a store where all the record's names are found, the address loop creates nothing and yields the closed-form replayed table. |
| Idempotence.ReplayRecordCompanies | server/routes/customer.ts:207-241 | On a settled store, one record's address loop yields the closed-form replayed company table and links what the names find. |
| Idempotence.ReplayOtherCustomer | server/routes/customer.ts:253-265 | Replaying one more record in closed form leaves every customer with another external id as the shorter replay left it. |
| Idempotence.ReplayUpdatedCustomer | server/routes/customer.ts:243-257 | Replaying one more record in closed form sets the record's contact fields on the customer with its external id and adds the companies its addresses find. |
| Idempotence.ReplayRecordCustomers | server/routes/customer.ts:201-265 | On a store where every external id of the feed is found, a record creates no customer and yields the closed-form replayed customer table. |
| Idempotence.ReplayStep | server/routes/customer.ts:201-265 | On a store that finds every key of the feed, merging the last record after the replay of the rest gives the replay of the whole feed and creates no customer. |
| Idempotence.ReplayFeed | server/routes/customer.ts:200-266 | On a store that finds every key of the feed, a pass creates nothing and equals the closed-form replay. |
| Idempotence.ReplayOfAbsorbingStoreIsIdentity | server/routes/customer.ts:200-266 | Replaying a feed on a store that already holds all it says changes nothing. |
| Idempotence.SyncTwiceIsSyncOnce | server/routes/customer.ts:200-266 | Syncing the same feed a second time creates no customer and no company, and leaves the store exactly as the first sync left it. |
| Search.Contains | server/routes/customer.ts:21-23 | The substring scan answers true exactly when the term occurs at some position. |
| Search.ContainsIgnoringCase | server/routes/customer.ts:21-22 | `contains` with `mode: 'insensitive'` holds exactly when the lower-cased term occurs in the lower-cased text. |
| Search.Matches | server/routes/customer.ts:19-25 | An absent or empty term applies no filter. Otherwise a customer matches exactly when the term occurs in its first or last name ignoring case, or in its email with case counted. |
| Search.ExactMatchIgnoringCase | server/routes/customer.ts:21-22 | A term found as written is also found ignoring case. |
| Search.Listed | server/routes/customer.ts:18-25 | The listed customers are rows of the store, unchanged. |
| Search.NoTermListsEveryone | server/routes/customer.ts:19-25 | An absent or empty search term applies no filter: every customer is listed. |
| Search.ListedIffOccurs | server/routes/customer.ts:19-24 | With a non-empty term, a customer is listed exactly when the term occurs in its first name or last name ignoring case, or in its email with case counted. |
| Search.NameMatchIgnoresTermCase | server/routes/customer.ts:21-22 | The case of the term does not change the name conditions. |
| Search.ContainsTransitive | server/routes/customer.ts:21-23 | Containment composes: text containing a term contains every substring of that term. |
| Search.LowerAllKeepsOccurrence | server/routes/customer.ts:21-22 | Lower-casing both sides keeps an occurrence at the same position. |
| Search.LongerTermListsFewer | server/routes/customer.ts:19-24 | A term that contains another lists no customer the other does not. |
| CustomerStore.Store.constructor | server/routes/customer.ts:7-8 | A new store is empty and valid. It stands for a fresh, empty database; the client opens whatever database exists, and every method is proved for any valid state. |
| CustomerStore.Store.UpsertCompanyFor | server/routes/customer.ts:208-240 | One address's in-place update or create leaves exactly the table `UpsertCompany` describes, and the customers untouched. |
| CustomerStore.Store.CollectCompanies | server/routes/customer.ts:205-241 | The address loop leaves the company table and the pushed ids `UpsertCompanies` describes, and the customers untouched. |
| CustomerStore.Store.SyncCustomer | server/routes/customer.ts:200-265 | One record's merge keeps the store valid and leaves exactly the state and outcome `ApplyRecord` describes. |
| CustomerStore.Store.SyncCustomers | server/routes/customer.ts:171-267 | The pass keeps the store valid and leaves exactly the state and outcomes `ApplyFeed` describes. |
| CustomerStore.Store.AttachCompany | server/routes/customer.ts:91-118 | Attaching leaves the state `AttachCompany` describes, and on either not-found error leaves the store unchanged. |
| Scenarios.JaneDoeFirstSync | server/routes/customer.ts:200-266 | On an empty store, the feed "C1"/"Jane Doe" with one address at Acme, Springfield creates company Acme with that city and customer Jane Doe linked to it. |
| Scenarios.JaneDoeSecondSync | server/routes/customer.ts:200-266 | Syncing the same feed again updates Jane Doe in place, creates nothing and changes nothing. |
| Scenarios.UnionOfAssociations | server/routes/customer.ts:248-257 | A customer linked to Acme and synced with an address naming Bolt ends up linked to both. |

## Design decisions

- Local ids are natural numbers issued by a per-table counter. The store's own ids are generated strings, but only their freshness matters to the sync.
- `findFirst` by name has no ordering in the source. The model returns the smallest id with that name, a choice that overwriting a company's address fields does not move and that creating companies does not move either. The idempotence proof relies on both. The database gives no such promise when two companies share a name: after one of them is updated, the lookup may return the other. On a store where no two companies share a name there is only one candidate and the choice does not matter. `Reconcile.ApplyFeedKeepsCompanyNamesUnique` shows that a pass keeps such a store so.
- The source's "existing customer" test is `existingCustomer && existingCustomer.customerId`. When the external id is the empty string and a customer already carries it, the source falls through to a create that the unique column rejects. The model reports this as the outcome `DuplicateCustomerId` and leaves the customers unchanged; the companies of that record are still written, as in the source.
- An address without a company name still looks up the name `''`. Such an address is therefore not ignored for company purposes: when a company named `''` exists, the address updates its address fields and links it. It never creates one.
- The customers of a pass are merged one after another, in feed order.

## Left out

- Concurrency of `Promise.all` (server/routes/customer.ts:200): the records' merges run concurrently in the source and are sequential here. Two concurrent merges can both miss a company name and create two companies with the same name, or both miss an external id. When two merges update the same company, the address fields that survive are those of whichever update commits last, not of the later record in the feed. The model does not capture those races.
- Idempotence.SyncTwiceIsSyncOnce: holds for the sequential pass with the smallest-id choice of `findFirst`. On a store where two companies share a name, the source's lookup may pick a different row in the second pass and update that one instead. When two records name the same company, the source keeps the location of whichever concurrent update commits last, and that can differ between passes. The model does not capture either.
- Idempotence.FeedLastAddressWins: "last" means last in feed order. With the concurrent merges of the source, the surviving location is the one of the update that commits last, which need not be the last in the feed.
- A record whose customer create fails rejects `Promise.all`, but the other merges already running continue. The model continues with the next record and does not model the rejected promise reaching the cron callback.
- The cron schedule (server/routes/customer.ts:11-13) and the HTTP route wrappers, status codes and logging: I/O plumbing. The attach handler answers 404 only for an unknown company (server/routes/customer.ts:100-102), modelled as `CompanyNotFound`. An unknown customer makes the update throw, and the handler answers 500 (server/routes/customer.ts:104-117); `CustomerNotFound` stands for that failed update.
- The GraphQL feed query (server/routes/customer.ts:172-198) is a foreign call. The feed is an input sequence; its fixed `first: 250` with no pagination is not modelled.
- The string-interpolated `customerCreate` mutation of the create route (server/routes/customer.ts:66-81) and the create, get-by-id and update routes (server/routes/customer.ts:38-90, 120-169), including the PUT handler's nested upsert, whose meaning depends on the database library's internals.
- `displayName` and the address `id` are fetched but never stored; the model carries `displayName` only in the record.
- Search.Contains and Search.ContainsIgnoringCase: case folding covers only the ASCII letters A-Z, not the database's full Unicode case-insensitive match. Contact fields are strings, so a customer whose name or email is null in the database is modelled with `''`.
- Search.Listed returns the rows as a map; the order of the returned list and the included companies are not modelled.
- `connect` of a list that repeats an id is modelled as adding a set, which is what the association table stores.
- server/routes/company.ts, server/routes/auth.ts, server/providers/shopify.ts, server/app.ts and the client pages are not part of this model: CRUD, OAuth wiring and UI with no sync logic.
