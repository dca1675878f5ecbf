# Findora lost-and-found: a verified model of the dashboard list and the REST record stores

Findora is a campus lost-and-found platform. Students report lost items through a public
form. An administrator logs in, looks after a catalogue of found items (with photos), and
works through the incoming lost reports. This project models the three parts of it whose
behaviour can be stated exactly:

- **The admin dashboard list** (`Dashboard` module): the in-memory table of items, the
  three-way filter (search box, category select, status select), delete-by-id, the three
  summary cards ("Total Laporan", "Barang Hilang", "Barang Ditemukan") and the status badge.
  These are pure functions over `seq<Item>`.
- **The found-item and lost-report handlers** (`FoundItems`, `LostReports`): the store is
  a `map<int, Record>` plus the next autoincrement id. The create, edit, status and delete
  routes are pure functions from a store and a request to a `(Reply, Store)` pair. The
  single-item lookup `FoundItems.Get` only reads, so it returns a bare `Reply`. The two
  list routes are methods that return the records as a `seq`. The photo upload is an abstract function
  that returns a URL or fails, and `createdAt` is a `now` parameter. The list routes order
  the records by `createdAt`, newest first (`Listing` module).
- **Admin registration and login** (`Admins`): field-presence check, duplicate-email
  refusal, unique emails, and the two login rejections. Password hashing is an abstract
  `hash`/`compare` pair. The login token is its payload (admin id and email). `Admins.Register` returns a
  `(Reply, Store)` pair. `Admins.Login` returns an `Option<Reply<Token>>`, where `None`
  stands for a request on which the handler throws without replying.

Request conventions in the handlers:

- A request field that is absent is `None`.
- An `:id` path segment that JavaScript's `Number` does not turn into an integer is also
  `None`. The database refuses such an id, and the handler's `catch` block turns that
  refusal into a 500 reply.
- The login handler has no `try` block. When the email is absent, or the password is absent
  for a known email, it throws before replying. `Admins.Login` returns `None` for these
  requests.

`Common` holds the shared `Option`, `Reply` and `Date` types. `Text` models
`toLowerCase`, `toUpperCase` and `includes`. `Sequences` defines subsequences.

What the code does not do:

- The dashboard code has no polling, no notification detector, no sort and no working
  pagination.
- The "no filter" value of the two selects is the empty string, not a sentinel "all".
- The backend does not restrict lost-report status changes to a Diproses/Selesai toggle:
  `PUT /lost-reports/:id` accepts any status.

## Model

| member | source | states |
|---|---|---|
| Text.Lower | src/pages/admin/Dashboard.tsx:129 | lower-casing keeps the length and maps each character on its own to a character that is not an upper-case letter |
| Text.LowerForgetsCase | src/pages/admin/Dashboard.tsx:129 | lower-casing is idempotent and gives the same string for a term and its upper-cased form |
| Text.ContainsEmpty | src/pages/admin/Dashboard.tsx:129 | every string includes the empty string, so an empty search matches every name |
| Text.ContainsIffOccurs | src/pages/admin/Dashboard.tsx:129 | the recursive `includes` holds exactly when the needle occurs at some index of the haystack |
| Dashboard.FilteredItems | src/pages/admin/Dashboard.tsx:128-134 | the filtered list is a subsequence of the items (same relative order), an item is in it iff it is in the list and passes the criteria, and it is never longer |
| Dashboard.FilterKeepsMultiplicity | src/pages/admin/Dashboard.tsx:128-134 | the filtered list holds every passing item exactly as often as the input does, and no failing item |
| Dashboard.KeepIsConjunction | src/pages/admin/Dashboard.tsx:129-133 | an item passes iff it passes the search-only, the category-only and the status-only criteria |
| Dashboard.NoCriteriaShowsAll | src/pages/admin/Dashboard.tsx:129-131 | with search term, category and status all empty, the filter returns the list unchanged |
| Dashboard.FilterKeepsAllPassing | src/pages/admin/Dashboard.tsx:128-134 | when every item passes, the filter returns the list unchanged |
| Dashboard.FilterRespectsEquivalentCriteria | src/pages/admin/Dashboard.tsx:128-134 | two criteria that accept the same items give the same table |
| Dashboard.FilterTwice | src/pages/admin/Dashboard.tsx:133 | filtering by one criteria and then another equals filtering once by a criteria that demands both |
| Dashboard.FiltersCommute | src/pages/admin/Dashboard.tsx:133 | the order in which two filters are applied does not change the result |
| Dashboard.FilterIsSingleFiltersInTurn | src/pages/admin/Dashboard.tsx:129-133 | the three-way filter equals the search-only, then the category-only, then the status-only filter |
| Dashboard.ThreeFiltersAnyOrder | src/pages/admin/Dashboard.tsx:133 | any three filters applied one after another give the same table in all six orders |
| Dashboard.FilterIsThreeSingleFilters | src/pages/admin/Dashboard.tsx:133 | the three-way filter equals the search-only, category-only and status-only filters applied one after another, in all six orders |
| Dashboard.SearchDependsOnlyOnLowerCase | src/pages/admin/Dashboard.tsx:129 | two search terms with the same lower-case form give the same table |
| Dashboard.SearchIgnoresCase | src/pages/admin/Dashboard.tsx:129 | the upper-cased and the lower-cased search term give the same table as the term itself |
| Dashboard.DeleteItem | src/pages/admin/Dashboard.tsx:119-120 | deleting an id leaves a subsequence of the list (same order) that holds exactly the items of other ids |
| Dashboard.DeleteKeepsMultiplicity | src/pages/admin/Dashboard.tsx:119-120 | after deleting an id, every item of another id occurs as often as before, and no item of that id remains |
| Dashboard.DeleteAbsentIdIsNoOp | src/pages/admin/Dashboard.tsx:119-120 | deleting an id no item carries leaves the list unchanged |
| Dashboard.DeleteIsIdempotent | src/pages/admin/Dashboard.tsx:119-120 | deleting the same id twice is the same as deleting it once |
| Dashboard.CountsPartitionKnownStatuses | src/pages/admin/Dashboard.tsx:217-236 | the "Hilang" count plus the "Ditemukan or Dikembalikan" count is at most the total, with equality when every status is one of the three |
| Dashboard.LostCountIsLostFilterSize | src/pages/admin/Dashboard.tsx:226 | the "Barang Hilang" card equals the number of rows the status select "Hilang" shows |
| Dashboard.FoundCountIsFoundFilterSizes | src/pages/admin/Dashboard.tsx:236 | the "Barang Ditemukan" counter equals the rows the status filter shows for "Ditemukan" plus those it shows for "Dikembalikan" |
| Dashboard.Summarize | src/pages/admin/Dashboard.tsx:211-240 | the three cards: total is the list length, lost is the size of the "Hilang" status filter, found is the sizes of the "Ditemukan" and "Dikembalikan" filters added, and lost plus found is bounded by the total as above |
| Dashboard.StatusBadge | src/pages/admin/Dashboard.tsx:137-148 | the badge shows the status text, and its style is the plain default exactly for statuses other than the three known ones |
| Dashboard.BadgeSeparatesKnownStatuses | src/pages/admin/Dashboard.tsx:137-148 | "Hilang", "Ditemukan" and "Dikembalikan" get three different styles |
| Dashboard.InitialSummary | src/pages/admin/Dashboard.tsx:48-99 | the sample data gives the cards 5, 2 and 3 |
| FoundItems.List | src/backend/foundItems.js:11-14 | the list holds every stored record exactly once and nothing else, ordered by `createdAt` descending |
| FoundItems.Get | src/backend/foundItems.js:22-29 | a lookup succeeds exactly for a stored id, returns the record with that id, and answers 404 "Not found" for a missing one |
| FoundItems.Create | src/backend/foundItems.js:34-66 | a new record gets the next id; photoUrl is null without a file and the upload's URL with one; status defaults to "Ditemukan" when absent or empty; adminId is null when absent or empty and its numeric value otherwise; a failed upload or a non-integer adminId answers 500 and changes nothing |
| FoundItems.Update | src/backend/foundItems.js:70-102 | every absent field keeps its value, a missing or empty foundDate keeps the date, no file keeps the photoUrl, id/adminId/createdAt never change; a missing id answers 500 and changes nothing |
| FoundItems.Delete | src/backend/foundItems.js:106-113 | deletion removes exactly that id, keeps every other record and leaves the id counter as it was; a missing id answers 500 and changes nothing |
| FoundItems.GetAfterCreate | src/backend/foundItems.js:24-26 | a created record can be fetched under its new id |
| FoundItems.GetAfterDelete | src/backend/foundItems.js:24-25 | after a delete, fetching that id answers 404 "Not found" |
| FoundItems.DeleteUndoesCreate | src/backend/foundItems.js:48-61 | deleting the record just created restores the table |
| FoundItems.EmptyEditChangesNothing | src/backend/foundItems.js:83-97 | an edit with every field absent and no photo answers the record and leaves the store unchanged |
| FoundItems.EditIsIdempotent | src/backend/foundItems.js:73-97 | repeating the same edit leaves every field but `photoUrl` as the first edit set it; a photo is uploaded again and may get a new URL or fail with 500 and no change; without a photo the repeat gives back exactly the first answer and store |
| LostReports.List | src/backend/lostReports.js:6-9 | the list holds every stored report exactly once and nothing else, ordered by `createdAt` descending |
| LostReports.Create | src/backend/lostReports.js:16-31 | a new report gets the next id, copies name, nim, email, phone, category and description, and always has status "Hilang" whatever the body says |
| LostReports.UpdateStatus | src/backend/lostReports.js:48-58 | only the status changes (and only when one is sent); a missing id answers 500 and changes nothing |
| LostReports.Delete | src/backend/lostReports.js:38-44 | deletion removes exactly that report and keeps the others; a missing id answers 500 and changes nothing |
| LostReports.StatusChangeIsReversible | src/backend/lostReports.js:48-55 | marking a report with a status and then back with its old one restores the store |
| LostReports.DeleteUndoesCreate | src/backend/lostReports.js:16-41 | deleting the report just created restores the reports |
| Admins.FindByEmail | src/backend/admins.js:13 | the lookup finds an admin exactly when one has that email, and returns that admin |
| Admins.Register | src/backend/admins.js:8-31 | a missing or empty field answers 400 and a taken email 409, both without change; otherwise exactly one admin is added with passwordHash = hash(password) and the reply carries id, name and email only; emails stay unique |
| Admins.Login | src/backend/admins.js:34-44 | an unknown email answers 401 "Email tidak terdaftar", a failed comparison 401 "Password salah"; a token is issued only for a stored admin whose hash accepts the password |
| Admins.RegisterAddsOne | src/backend/admins.js:17-23 | a successful registration adds one admin under a fresh id and keeps all others |
| Admins.RegisterTwiceConflicts | src/backend/admins.js:13-14 | registering again with the same email is refused with 409 |
| Admins.RegisterThenLogin | src/backend/admins.js:17-43 | after a successful registration, logging in with the same email and password issues a token for the new admin, given compare(p, hash(p)) |

## Left out

- Text.Lower: only the ASCII letters A-Z have a case mapping; the full Unicode mapping of `toLowerCase` is not modelled, so search over non-ASCII names is only modelled for characters without case.
- Dashboard.SearchIgnoresCase and Dashboard.SearchDependsOnlyOnLowerCase inherit that ASCII-only mapping: with the full Unicode mapping, JavaScript upper-cases "ß" to "SS", whose lower-case form "ss" is not found in "straße", so case-insensitivity of the search does not hold for every string.
- Polling refresh, a new-report notification detector, sort keys, a pagination engine and verify/unverify actions: the dashboard code has none of them. The pagination markup (src/pages/admin/Dashboard.tsx:342-365) is static.
- JSX rendering, toasts, dialogs, sidebar (including its fixed "3" notification badge), navigation and logout: presentation only.
- The zod form schemas of the public report form, the register page and the login page: library configuration whose checks are not visible.
- The hard-coded credential check of the login page and the `sessionStorage` route guard of the app: routing and browser-storage plumbing.
- The `authenticateToken` middleware is not part of this model: the found-item create, edit and delete handlers are modelled from the point where a request has been admitted, and the middleware's own rejections are left out.
- Prisma, multer, the image host, bcrypt and JWT are foreign code: the store is a map, the upload is a parameter, `hash`/`compare` are parameters, and a token is its payload (signature, secret and one-day expiry are opaque).
- Database failures other than a missing record or a non-integer id are not modelled. This covers connection errors, schema checks on required columns, and the 500 answers of the two list routes. Register's "Gagal mendaftar admin" path cannot happen in a single-threaded map.
- Date parsing: `new Date(text)` is the opaque value `DateOf(text)`. A store's rejection of an invalid date is therefore not modelled, and neither is the 500 answer of the lost-report create route that such a rejection would cause.
- Request bodies hold only absent fields or strings. JSON `null`, numbers and booleans are not modelled.
- The race between the duplicate-email check and the insert in register: concurrency is out of scope.
- The order among records with equal `createdAt` is left to the implementation, as it is for the database.
- server.js, vite.config.ts, the not-found page, the item detail view and the notification list: wiring, configuration or presentation.
