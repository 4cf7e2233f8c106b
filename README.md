# InsightBoard API core in Dafny

InsightBoard is a small KPI dashboard. Its API is an Express server over PostgreSQL.
This project models the server's core:

- **KPI routes** (`/kpis/summary`, `/kpis/daily`, `/kpis/top`). These are pure functions of the
  caller (`req.user`) and the event log. Role scoping (`buildScope`) is a row filter. Each SQL
  aggregate (`COUNT`, `COALESCE(SUM(CASE …))`, `COUNT(DISTINCT …)`, `GROUP BY … ORDER BY …
  LIMIT 5`) is a recursive function with its meaning proved as lemmas.
- **The two bearer gates**. One is `middleware/requireAuth.js`, which splits the header on
  single spaces. The other is `middleware/auth.js`, which strips a `Bearer ` prefix. Both are
  functions from the `Authorization` header and a token verifier to "reject with 401 and a
  message" or "continue with a user".
- **The double gate** in front of every KPI route. `index.js` mounts the prefix gate on `/kpis`.
  Each KPI route adds the split gate. `KpiPipeline.Request` composes the two with the handler.
- **Registration and login** (`routes/auth.js`). The `users` table is a class, `UserTable`, with
  a map from normalised email to row and the next id of the table's id sequence. `Register`
  updates the table in place and is proved against the specification function `Registered`.
  `Login` only reads the table.

Library calls are parameters:

- `jwt.verify` is a `Verifier` (a payload, or `None` when it throws).
- `jwt.sign` is a `Signer`.
- `bcrypt.hash` and `bcrypt.compare` are plain functions.
- `NOW()` is the integer `now` (seconds).
- `DATE(created_at)` is the function `day`.

A database that fails a query is the store `None`. That yields each KPI handler's 500 reply.

Modules (one per file): `Wrappers`, `Tokens`, `Events`, `DailySeries`, `TopTypes`, `KpiRoutes`,
`BearerSplit`, `BearerPrefix`, `KpiPipeline`, `AuthRoutes`.

## Model

| member | source | states |
|---|---|---|
| Events.BuildScope | api/src/routes/kpis.js:38-45 | The scope is unscoped exactly for role `admin`. Its parameters are `[]` for an admin and `[user.id]` for anyone else. |
| Events.ScopedRows | api/src/routes/kpis.js:67-68 | The scoped query reads no more rows than the log holds. |
| Events.ScopedRowsMembers | api/src/routes/kpis.js:42 | A row is read if and only if it is in the log and passes the scope's WHERE clause. |
| Events.ScopedRowsAppend | api/src/routes/kpis.js:67-68 | Scoping distributes over concatenation of logs, so it keeps the log's order. |
| Events.AdminSeesAll | api/src/routes/kpis.js:41-43 | The unscoped query reads the whole log, unchanged. |
| Events.ScopeIsExact | api/src/routes/kpis.js:38-45 | Through `buildScope`, an admin reads every event. Anyone else reads exactly the events carrying their own `user_id`. |
| Events.SignedTotalIsSalesMinusRefunds | api/src/routes/kpis.js:65-74 | The per-row signed sum used by `/daily` equals the sales sum minus the refunds sum used by `/summary`. |
| Events.SignedTotalAppend | api/src/routes/kpis.js:134-140 | Revenue is additive over concatenated logs. |
| Events.UserIdsBound | api/src/routes/kpis.js:79 | Distinct users never outnumber events. There are none exactly when there are no events. |
| Events.DaysBound | api/src/routes/kpis.js:91 | Distinct active days never outnumber events. There are none exactly when there are no events. |
| KpiRoutes.Summary | api/src/routes/kpis.js:56-108 | 500 "Failed to compute KPIs" exactly when the store fails. Otherwise the admin variant is returned exactly for admins, with `event_count` the scoped row count and `revenue_cents` the scoped sales minus refunds. `active_users` is the number of distinct users of the whole log; `active_days` is the number of distinct days of the caller's own rows. Each is at most the count and zero exactly when the count is. |
| KpiRoutes.OtherRows | api/src/routes/kpis.js:42 | The complement of a user's scope is no longer than the log. |
| KpiRoutes.SplitCount | api/src/routes/kpis.js:64 | One user's rows plus everyone else's rows are all the rows. |
| KpiRoutes.SplitRevenue | api/src/routes/kpis.js:65-74 | One user's revenue plus everyone else's revenue is the total revenue. |
| KpiRoutes.OtherRowsUsers | api/src/routes/kpis.js:42 | The complement holds only log rows of other users. |
| KpiRoutes.OwnRowsOfOthers | api/src/routes/kpis.js:42 | Removing another user's rows does not change what a user sees. |
| KpiRoutes.ByUserOfOthers | api/src/routes/kpis.js:64-66 | The per-user totals of the other ids are unchanged by removing one user's rows. |
| KpiRoutes.TotalsAreSumsOverUsers | api/src/routes/kpis.js:64-66 | Over a list naming every user of the log once, the per-user counts and revenues add up to the log's count and revenue. |
| KpiRoutes.AdminSummaryIsSumOverUsers | api/src/routes/kpis.js:56-86 | An admin's `event_count` and `revenue_cents` are the sums of what each user's own summary would show. |
| KpiRoutes.Daily | api/src/routes/kpis.js:118-154 | 500 "Failed to compute daily KPIs" exactly when the store fails. Otherwise the dates are strictly ascending. They are exactly the days of the scoped rows of the last 14 days. Each entry is its day's signed sum, and the entries add up to that window's sales minus refunds. |
| KpiRoutes.DailyDatesInWindow | api/src/routes/kpis.js:122-128 | With a monotone calendar and no future events, every returned date lies between the day 14 days ago and today. |
| KpiRoutes.DailyMatchesWindowRevenue | api/src/routes/kpis.js:134-144 | The daily series adds up to the signed revenue of the rows it groups. |
| KpiRoutes.Top | api/src/routes/kpis.js:162-185 | 500 "Failed to compute top KPIs" exactly when the store fails. Otherwise at most 5 entries, forming a ranking that `ORDER BY count DESC LIMIT 5` may return (`IsTopFive`). |
| KpiRoutes.SummaryExample | api/src/routes/kpis.js:56-103 | On a three-event log, user 1 sees 2 events and 400 cents, and an admin sees 3 events, 700 cents and 2 active users. |
| DailySeries.InWindow | api/src/routes/kpis.js:123-128 | The time filter keeps no more rows than it is given. |
| DailySeries.InWindowMembers | api/src/routes/kpis.js:123 | A row passes the time filter if and only if it is stamped no earlier than `NOW() - 14 days`. |
| DailySeries.DatesCons | api/src/routes/kpis.js:143 | The dates of a series are the head's date plus the tail's dates. |
| DailySeries.AddToDayDates | api/src/routes/kpis.js:143 | Adding a row to its group adds exactly its day to the set of dates. |
| DailySeries.AscendingCons | api/src/routes/kpis.js:144 | A date below every later date keeps a series strictly ascending. |
| DailySeries.AddToDayAscending | api/src/routes/kpis.js:143-144 | Adding a row to its group keeps the dates strictly ascending. |
| DailySeries.AddToDayValue | api/src/routes/kpis.js:134-140 | Adding a row changes only its own day's sum, by the row's signed amount. |
| DailySeries.AddToDayTotal | api/src/routes/kpis.js:134-140 | Adding a row raises the series total by exactly its signed amount. |
| DailySeries.GroupByDayAscending | api/src/routes/kpis.js:143-144 | `GROUP BY 1 ORDER BY 1` yields strictly ascending dates, so no date appears twice. |
| DailySeries.GroupByDayDates | api/src/routes/kpis.js:133-143 | There is one group per day that has rows, and none for any other date. |
| DailySeries.GroupByDayValue | api/src/routes/kpis.js:134-140 | The value recorded for any date is that date's signed sum. |
| DailySeries.DayValueAbsent | api/src/routes/kpis.js:143 | A date without a group records nothing. |
| DailySeries.EntryIsDayValue | api/src/routes/kpis.js:143-144 | In an ascending series, each entry is the series' value for its date. |
| DailySeries.GroupByDayTotal | api/src/routes/kpis.js:134-140 | Grouping neither loses nor adds a cent. |
| DailySeries.GroupByDayCorrect | api/src/routes/kpis.js:130-147 | The grouped series is ascending, has exactly the rows' days, gives each entry its day's signed sum, and adds up to the rows' total. |
| TopTypes.KindsOfCons | api/src/routes/kpis.js:173 | The kinds of a tally are the head's kind plus the tail's kinds. |
| TopTypes.BumpKinds | api/src/routes/kpis.js:170-173 | Counting a row adds exactly its kind to the tally's kinds. |
| TopTypes.BumpDistinct | api/src/routes/kpis.js:173 | Counting a row keeps one group per kind. |
| TopTypes.BumpLookup | api/src/routes/kpis.js:170 | Counting a row raises only its own kind's count, by one. |
| TopTypes.KindsCons | api/src/routes/kpis.js:173 | The kinds of a log are the first row's kind plus the rest's kinds. |
| TopTypes.TallyDistinct | api/src/routes/kpis.js:173 | `GROUP BY type` yields one group per kind. |
| TopTypes.TallyKinds | api/src/routes/kpis.js:169-173 | The groups are exactly the kinds occurring in the rows. |
| TopTypes.TallySize | api/src/routes/kpis.js:173 | There are exactly as many groups as distinct kinds. |
| TopTypes.TallyLookup | api/src/routes/kpis.js:170 | Each kind's group holds `COUNT(*)` of its rows. |
| TopTypes.EntryIsLookup | api/src/routes/kpis.js:170-173 | In a tally with one group per kind, each entry is the tally's count for its kind. |
| TopTypes.LookupAbsent | api/src/routes/kpis.js:173 | A kind without a group counts zero. |
| TopTypes.InsertByCountMembers | api/src/routes/kpis.js:174 | Inserting into the ranking keeps exactly the old entries plus the new one. |
| TopTypes.InsertByCountOrdered | api/src/routes/kpis.js:174 | Inserting into a count-descending ranking keeps it count-descending. |
| TopTypes.InsertByCountKinds | api/src/routes/kpis.js:173-174 | Inserting a new kind adds exactly that kind and keeps kinds distinct. |
| TopTypes.SortByCountCorrect | api/src/routes/kpis.js:174 | `ORDER BY count DESC` orders the counts and keeps the same entries, the same kinds and the same length. |
| TopTypes.TallyEntryCount | api/src/routes/kpis.js:169-173 | Every group names a kind that occurs and carries its true count. |
| TopTypes.TopFiveCorrect | api/src/routes/kpis.js:166-178 | The computed top five: as many entries as the limit allows, distinct occurring kinds with true counts, non-increasing counts, and no omitted kind outnumbering the last one listed. |
| BearerSplit.SplitOnSpace | api/src/middleware/requireAuth.js:31 | `split(" ")` yields at least one piece, and no piece contains a space. |
| BearerSplit.JoinSplit | api/src/middleware/requireAuth.js:31 | Joining the pieces back with single spaces restores the header. |
| BearerSplit.SplitJoin | api/src/middleware/requireAuth.js:31 | Splitting a join of space-free pieces returns those pieces. |
| BearerSplit.SplitSpaceFree | api/src/middleware/requireAuth.js:31 | A space-free header is a single piece. |
| BearerSplit.SplitAfterWord | api/src/middleware/requireAuth.js:31 | A space-free word followed by a space is the first piece. |
| BearerSplit.AcceptedShape | api/src/middleware/requireAuth.js:30-36 | A header the format check accepts is `Bearer ` followed by a non-empty, space-free token, then nothing or a space. |
| BearerSplit.AcceptsShape | api/src/middleware/requireAuth.js:30-36 | Conversely, every such header is accepted with that token. |
| BearerSplit.RejectsOtherShapes | api/src/middleware/requireAuth.js:34-35 | A non-empty header of any other shape gets 401 "Invalid Authorization format". |
| BearerSplit.RequireAuth | api/src/middleware/requireAuth.js:21-50 | Every rejection is 401. "Missing Authorization header" exactly for an absent or empty header. "Invalid Authorization format" exactly for a malformed one. It continues exactly when the token verifies, with the whole payload as `req.user`; otherwise "Invalid or expired token". |
| BearerSplit.ExtraPiecesIgnored | api/src/middleware/requireAuth.js:31 | In `Bearer a b`, only `a` is the token; later pieces are dropped. |
| BearerSplit.DoubleSpaceRejected | api/src/middleware/requireAuth.js:31-35 | `Bearer  x` (two spaces) is malformed. |
| BearerPrefix.ExtractToken | api/src/middleware/auth.js:7 | A token is found if and only if the header starts with `Bearer `, and the header is then the prefix followed by the token. |
| BearerPrefix.ExtractPrefixed | api/src/middleware/auth.js:7 | Extracting from `Bearer ` + t gives back t, spaces included. |
| BearerPrefix.RequireAuth | api/src/middleware/auth.js:3-30 | Every rejection is 401. "Missing Bearer token" exactly when the header is absent, lacks the prefix, or has nothing after it. It continues exactly when the token verifies, with `req.user` holding only the payload's id, email and role. |
| BearerPrefix.AbsentIsEmpty | api/src/middleware/auth.js:6-10 | An absent header and an empty one get the same "Missing Bearer token". |
| BearerPrefix.BarePrefixRejected | api/src/middleware/auth.js:7-10 | A header of exactly `Bearer ` is a missing token. |
| BearerPrefix.TokenKeepsSpaces | api/src/middleware/auth.js:7-28 | Everything after the prefix is verified, spaces included. A failed verification gets "Invalid/expired token". |
| KpiPipeline.Request | api/src/index.js:34 | A KPI handler runs if and only if both gates continue. It receives the split gate's payload as the caller. Otherwise the reply is the 401 and message of the first gate that rejects: the prefix gate's when it rejects, else the split gate's. |
| KpiPipeline.BothGatesAccept | api/src/index.js:34 | A header both gates accept starts with `Bearer ` and a non-space. Both the split gate's token and the whole remainder verify, and the token is a prefix of that remainder. |
| KpiPipeline.GatesAgreeOnSingleToken | api/src/routes/kpis.js:56 | On `Bearer <token>` with a single token, both gates accept exactly when the token verifies and agree on the identity. |
| KpiPipeline.GatesDivergeOnExtraPieces | api/src/index.js:34 | On `Bearer a b`, the prefix gate verifies `a b` and the split gate verifies `a`. |
| KpiPipeline.SingleTokenRequest | api/src/index.js:34 | A single-token request reaches the handler exactly when the token verifies, and the handler scopes by that token's payload. |
| KpiPipeline.MissingHeaderRequest | api/src/index.js:34 | With no header, the prefix gate answers 401 "Missing Bearer token". |
| AuthRoutes.TrimStart | api/src/routes/auth.js:17 | Dropping leading white space never lengthens the string. |
| AuthRoutes.TrimEnd | api/src/routes/auth.js:17 | Dropping trailing white space never lengthens the string. |
| AuthRoutes.TrimStartIsSuffix | api/src/routes/auth.js:17 | What is left after dropping leading white space is a suffix that does not start with white space. |
| AuthRoutes.TrimEndIsPrefix | api/src/routes/auth.js:17 | What is left after dropping trailing white space is a prefix that does not end with white space. |
| AuthRoutes.TrimStartDropsSpace | api/src/routes/auth.js:17 | Only white space is dropped from the front. |
| AuthRoutes.TrimEndDropsSpace | api/src/routes/auth.js:17 | Only white space is dropped from the back. |
| AuthRoutes.TrimIsSlice | api/src/routes/auth.js:17 | `trim()` is the contiguous slice of its input that starts after the leading white space. |
| AuthRoutes.TrimEnds | api/src/routes/auth.js:17 | A trimmed string has no white space at either end. |
| AuthRoutes.TrimmedIsFixed | api/src/routes/auth.js:17 | Trimming a string with no white space at either end changes nothing. |
| AuthRoutes.NormalizeIdempotent | api/src/routes/auth.js:17 | Normalising twice is normalising once, so a stored email is its own key. |
| AuthRoutes.CaseVariantsCollide | api/src/routes/auth.js:16-17 | `A@b.com` and `a@B.com` both normalise to `a@b.com`. |
| AuthRoutes.SafeRole | api/src/routes/auth.js:19-20 | The role is `admin` if and only if `admin` was passed, and `user` otherwise. |
| AuthRoutes.InsertKeepsInvariant | api/src/routes/auth.js:27-32 | Inserting a fresh, normalised email with the next id and a safe role keeps the table invariant: keys are normalised emails, roles are safe, ids are positive, below the next id and distinct. |
| AuthRoutes.Registered | api/src/routes/auth.js:8-43 | 400 "email and password required" when a field is falsy. 409 "Email already exists" when the normalised email is taken. In both cases the table is unchanged. Registration succeeds if and only if both fields are present and the normalised email is new; then one row is added under it with the next id, the hash and the safe role, other rows are kept, and the reply carries the row without its hash. |
| AuthRoutes.RegisteredKeepsInvariant | api/src/routes/auth.js:8-43 | Every registration outcome keeps the table invariant. |
| AuthRoutes.BlankEmailIsStoredEmpty | api/src/routes/auth.js:12-17 | An email of spaces passes the presence check and is stored under the empty key. |
| AuthRoutes.UserTable.constructor | api/src/routes/auth.js:27-30 | An empty table satisfies the invariant. |
| AuthRoutes.UserTable.Register | api/src/routes/auth.js:8-43 | The reply, the rows and the id sequence after the call are those `Registered` gives for the old table. The invariant is kept. |
| AuthRoutes.UserTable.Login | api/src/routes/auth.js:51-98 | 400 exactly when a field is falsy. A token exactly when the normalised email is known and the password matches its hash; the token is signed over the stored id, email and role for two hours. Otherwise 401 "Invalid credentials". |
| AuthRoutes.UnknownEmailLooksLikeWrongPassword | api/src/routes/auth.js:70-79 | An unknown email and a wrong password get the very same 401 reply. |
| AuthRoutes.LoginIgnoresCase | api/src/routes/auth.js:58 | For non-empty emails, login depends on the email only through its normalised form. (The empty-string check comes before normalisation.) |
| AuthRoutes.RegisterThenLogin | api/src/routes/auth.js:8-98 | Registering a new email succeeds with the next id, the normalised email and the safe role. Then logging in with any case variant and the same password gets a token over the new id, the normalised email and the safe role. Registering the variant again gets 409. |

## Left out

- The PostgreSQL driver, connection pool and SQL text are not modelled. Each query is modelled by what it computes over the event log or the users table.
- `::int` casts and integer overflow are not modelled. Counts and sums are unbounded integers.
- `NOW()` and `DATE(created_at)` are parameters (`now`, `day`). Time zones and calendar arithmetic are not modelled.
- `jwt.sign`, `jwt.verify`, `bcrypt.hash` and `bcrypt.compare` are parameters. Secrets, expiry checking and bcrypt's random salt are not modelled.
- `toLowerCase` maps only the ASCII letters A-Z. Other Unicode case mappings are not modelled.
- Body fields are modelled as absent or a string. A non-string `email` (which makes `toLowerCase` throw) is not modelled.
- The 500 "Server error" replies of register and login (store failures other than the unique violation) are not modelled.
- UserTable.Register: the 409 is decided by looking the key up, which matches the `users_email_key` unique-violation branch. The id sequence also advancing on a failed insert is not modelled.
- A token payload missing `id`, `email` or `role` is not modelled. Payloads always carry all fields.
- KpiRoutes.Top: the order among equal counts is unspecified by the query. `Top` returns one admissible order, and its contract is the `IsTopFive` property that every admissible order satisfies.
- KpiRoutes.DailyDatesInWindow assumes `day` is monotone and that no event lies in the future.
- `/me`, `/health`, CORS, JSON body parsing and the web front end are not part of this model.
- Logging of errors (`console.error`) is not modelled.
