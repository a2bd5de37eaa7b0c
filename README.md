# Tournament ledger

A Dafny model of the tournament ledger of a gaming-tournament web service. Users
hold a platform balance and pay an entry fee to join a tournament that an admin
created. During a live tournament the admin credits per-kill rewards. When the
admin ends the tournament, a kill reward the named winner holds is reclassified
as tournament winnings.

The model is one in-memory store (`Database.Db`). It holds five tables:
- users
- tournaments
- the participant roster
- winnings
- the append-only history ledger

The store carries the invariants that the database's check constraints,
foreign keys and enums give, together with those the helpers keep:
- every balance is non-negative
- `0 <= currentParticipants <= maxParticipants`
- `currentParticipants` equals the tournament's roster count
- one roster row per (tournament, user)
- at most one `kill` reward per (tournament, user)
- every winnings row belongs to a participant
- an ended tournament has a participant
- each balance is its opening balance plus the signed sum of that user's history rows

Every operation is a module-level method or function that takes the store (`db: Db`). The methods that write are proved against these invariants:
- It preserves all of the invariants.
- It reports exactly the error its helper throws first, and changes nothing when it fails. The one exception is `CreateTournament`: an insert the database refuses still consumes the identity value it drew.
- It states the whole new state when it succeeds.

The request schemas are predicates, or parsing functions where the schema
transforms its input. Lemmas connect them to the operations: any input the
schema accepts never trips the helper checks it duplicates, or the database checks.

Modules:
- `Results`: `Option`, `Result`, and one `Error` constructor per thrown error.
- `Schema`: the row types, enums and check constraints.
- `Queries`: the roster, winnings and history queries, and the two in-place UPDATEs run when a tournament ends.
- `Database`: the store and its invariants.
- `Visibility`: hiding room credentials.
- `TournamentValidation` and `ParticipationValidation`: the request schemas.
- `UserTournaments` and `AdminTournaments`: the helpers.
- `Scenarios`: sequences of operations.

Time is an integer `now` supplied by the caller. Each `throw` becomes a `Failure`.

In three places the code does less than its design suggests. The model follows
the code in each:
- `updateTournamentRoomId` does not check `isEnded`, so the room of an ended
  tournament can still be changed. Every other admin write refuses an ended tournament.
- `updateTournamentRoomId` throws "not found" only when the update result is
  falsy. The query builder always returns a result object, so that throw never
  happens. For a tournament that is missing or owned by another admin, the helper
  changes nothing and returns `undefined`, and `UpdateTournamentRoomId` returns
  `Success(None)`.
- `endTournament` pays the winner nothing beyond reclassifying an existing kill
  reward: the prize insert is commented out. The model does the same.

The edit route (`app/api/[...route]/admin/tournaments.ts`, lines 185-192) validates
the request body with the edit schema but hands `editTournament` the body as sent,
not the schema's output. So the schema's `val || "0"` room-id fallback never reaches
the helper. An edit without a room id keeps the stored one, and the empty edit,
which the schema accepts, makes the query builder refuse an update that sets no
column. `EditTournament` takes the raw `EditInput` for this reason. The create route
does pass the parsed data, so `CreateTournament` receives the schema's output.

## Model

| member | source | states |
|---|---|---|
| `Schema.NewTournamentRow` | drizzle/schema.ts:57-94 | a fresh row has `currentParticipants = 0` and `isEnded = false`; it meets the five check constraints exactly when the three amounts and `maxParticipants` are non-negative |
| `Schema.ParseWinningsType` | drizzle/schema.ts:112 | only the two enum labels are accepted, each mapped to the kind it names |
| `Schema.WinningsTypeLabelRoundTrip` | drizzle/schema.ts:112-124 | every winnings kind's label is accepted back as that kind |
| `Schema.ParseTransactionType` | drizzle/schema.ts:155-164 | only the eight transaction-type labels are accepted, each mapped to its kind |
| `Schema.TransactionTypeLabelRoundTrip` | drizzle/schema.ts:155-164 | every transaction type's label is accepted back as that type |
| `Schema.ParseBalanceEffect` | drizzle/schema.ts:166-170 | only `increase`, `decrease` and `none` are accepted |
| `Schema.BalanceEffectLabelRoundTrip` | drizzle/schema.ts:166-180 | every balance effect's label is accepted back as that effect |
| `Schema.SignedAmount` | drizzle/schema.ts:173-185 | a `none` row moves no money; for a non-negative amount, a positive change is an `increase` and a negative one a `decrease` |
| `Database.Db.constructor` | drizzle/schema.ts:16-31 | a store over accounts with non-negative balances starts with empty tables, both identity counters at 1, and every invariant holding |
| `Database.ReplaceTournamentKeepsConsistent` | drizzle/schema.ts:81-93 | rewriting one tournament row keeps every invariant when the row keeps its id and count, meets the check constraints, and is ended only with participants |
| `Queries.RosterCount` | helpers/user/tournaments.ts:213-217 | the roster count of a tournament is at most the roster's size, and is zero exactly when no roster row names the tournament |
| `Queries.RosterCountAppend` | helpers/user/tournaments.ts:259-273 | adding a roster row raises the count of its own tournament by one and leaves every other count alone |
| `Queries.HasRosterRowAppend` | helpers/user/tournaments.ts:198-209 | after adding a row, a pair is on the roster exactly when it was before or is the added row's pair |
| `Queries.RosterRowCounts` | helpers/admin/tournaments.ts:204-226 | a user on a tournament's roster makes its count at least one |
| `Queries.FindKillRow` | helpers/admin/tournaments.ts:242-255 | finds a position exactly when a `kill` row of the pair exists; the position holds such a row and no earlier position does |
| `Queries.WinningsOf` | helpers/user/tournaments.ts:107-111 | the winners list holds exactly the winnings rows of the tournament, each as often as the table holds it (equal multisets restricted to the tournament), and no other row |
| `Queries.SetWinningsTypeById` | helpers/admin/tournaments.ts:257-261 | the rows with the given id take the new type; every other row and the length are unchanged |
| `Queries.PromoteByIdIsPromotedKill` | helpers/admin/tournaments.ts:254-261 | with increasing ids and one kill row for the pair, updating by that row's id turns exactly the pair's kill rows into `winnings` rows |
| `Queries.ReclassifyKillHistory` | helpers/admin/tournaments.ts:264-274 | exactly the pair's `kill_reward` rows that refer to the tournament become `tournament_winnings`; nothing else changes |
| `Queries.NetEffectAppend` | helpers/user/tournaments.ts:241-256 | appending a history row changes only its own user's net balance effect, by its signed amount |
| `Queries.SameEffectsNetEffect` | helpers/admin/tournaments.ts:263-274 | histories that agree on user, amount and effect row by row have the same net effect for every user |
| `Queries.ReclassifyKeepsNetEffect` | helpers/admin/tournaments.ts:263-274 | reclassifying kill rewards as tournament winnings moves no balance |
| `Queries.DecimalString` | helpers/admin/tournaments.ts:474 | a number prints as a non-empty string of decimal digits with no leading zero, whose digit value (`DigitsValue`) is exactly the number |
| `Visibility.Sanitize` | helpers/user/tournaments.ts:11-34 | falsy data, or a viewer who joined or won, sees the data unchanged; otherwise the room keys go, from the nested tournament object if there is one or else from the top level, and every other key and value is kept |
| `Visibility.SanitizeIdempotent` | helpers/user/tournaments.ts:11-34 | sanitizing twice gives the same as sanitizing once |
| `Visibility.RowValue` | helpers/user/tournaments.ts:72-81 | a selected tournament row is an object that carries both room keys and no nested `tournament` key |
| `Visibility.RowVisibility` | helpers/user/tournaments.ts:113-130 | a stored row shown to an outsider has no room keys and keeps every other column with its value; shown to a participant or winner, it is complete |
| `TournamentValidation.TournamentInputValid` | zod/tournaments.ts:10-44 | accepts a creation request exactly when the game is BGMI or FREEFIRE, the name has 1 to 50 characters, the description and password at most 255, the room id (when given) is numeric, the fee, prize and per-kill prize are non-negative, the capacity is positive and the date lies after `now` |
| `TournamentValidation.ParseTournament` | zod/tournaments.ts:10-44 | accepts exactly the valid creation requests; accepted data has non-negative amounts, a positive capacity, a name of 1..50 characters, a future date, and a numeric room id that defaults to "0"; every other field is the request's own value, unchanged |
| `TournamentValidation.RoomUpdateValid` | zod/tournaments.ts:46-51 | accepts a room update exactly when the room id is numeric and the password, when given, has at most 255 characters |
| `TournamentValidation.KillInputValid` | zod/tournaments.ts:54-69 | accepts a kill request exactly when the user id is positive and the kill count lies in 0..100 |
| `TournamentValidation.EditRoomId` | zod/tournaments.ts:77-83 | an absent or empty room id becomes "0"; a given one is kept |
| `TournamentValidation.EditInputValid` | zod/tournaments.ts:72-107 | accepts an edit exactly when each field it has is valid by the creation rules (positive capacity, non-negative amounts, date after `now`), and the room id after its "0" fallback is numeric |
| `TournamentValidation.ParseEdit` | zod/tournaments.ts:72-107 | accepts exactly the valid edits, the empty edit included; the date is checked only when present; the room id falls back to "0", and every other field is the request's own value, unchanged |
| `ParticipationValidation.ParticipationValid` | zod/participation.ts:3-7 | accepts a join request exactly when both player names are non-empty and the player level is at least the schema's minimum |
| `UserTournaments.JoinCheck` | helpers/user/tournaments.ts:182-239 | the error a join throws first, in the helper's order: tournament missing, ended or already started; already joined; full; user missing; balance below the fee; level below 30; none when all pass |
| `UserTournaments.EntryFeeRow` | helpers/user/tournaments.ts:248-256 | the join's history row belongs to the joiner, refers to the tournament, is a `completed` `tournament_entry` `decrease` of amount equal to the entry fee, and removes exactly the entry fee |
| `UserTournaments.ParticipateInTournament` | helpers/user/tournaments.ts:174-289 | errors come in the helper's order (missing, ended or started; already joined; full; unknown user; short balance; level below 30) and change nothing. On success the joiner pays exactly the entry fee and stays non-negative, no other balance moves, and one history row and one roster row are added. The count becomes the roster count, at most `maxParticipants`, and every invariant is kept |
| `UserTournaments.JoinKeepsConsistent` | helpers/user/tournaments.ts:241-273 | the four writes of a join that passed its checks keep every invariant: uniqueness, counts, foreign keys, non-negative balances and the ledger balance |
| `UserTournaments.ValidatedJoinPassesLevelCheck` | zod/participation.ts:3-7 | a join request the schema accepted never fails on the player level |
| `UserTournaments.IsUserParticipatedInTournament` | helpers/user/tournaments.ts:291-311 | the answer is true exactly when the roster holds a row for the (tournament, user) pair; so a participant is a stored user of a stored tournament with at least one participant; no one participates in an empty tournament |
| `UserTournaments.GetTournamentById` | helpers/user/tournaments.ts:67-139 | rejects a non-positive or unknown id; `hasParticipated` is the roster lookup and `isWinner` the winnings lookup; an ended tournament lists its winnings rows and an open one says it is still ongoing; the room credentials reach exactly participants and winners |
| `AdminTournaments.CreatedRow` | helpers/admin/tournaments.ts:53-69 | the inserted row carries the request's fields and the admin id, keeps a non-empty description or password, has no participants and is not ended |
| `AdminTournaments.CreateTournament` | helpers/admin/tournaments.ts:36-76 | stores the new row under the next identity value, which was unused, and returns that id; a row breaking a check constraint is rejected and stores nothing, but the identity value it drew is consumed: the counter still advances |
| `AdminTournaments.CreateKeepsConsistent` | helpers/admin/tournaments.ts:53-71 | inserting a fresh row under the next identity value keeps every invariant |
| `AdminTournaments.ValidatedCreationIsStored` | zod/tournaments.ts:16-27 | a creation request the schema accepted meets every check constraint, with a positive capacity, a future date, and a numeric room id that is "0" when omitted |
| `AdminTournaments.ValidatedRoomUpdateIsStored` | zod/tournaments.ts:46-51 | a room update the request schema accepts stores a numeric room id and a password of at most 255 characters, and keeps the row within its check constraints |
| `AdminTournaments.UpdateTournamentRoomId` | helpers/admin/tournaments.ts:78-118 | rejects a non-positive id; changes nothing for a tournament that is missing or owned by someone else; otherwise sets the room id, replaces the password only when a non-empty one is given, changes no other column, even on an ended tournament, and returns the new row |
| `AdminTournaments.AwardCheck` | helpers/admin/tournaments.ts:370-453 | the error a kill reward throws first: bad tournament id, bad user id, negative kills, tournament not the admin's, tournament ended, user not a participant, kill reward already paid; none when all pass |
| `AdminTournaments.KillRewardEntry` | helpers/admin/tournaments.ts:466-477 | the kill reward's history row is a completed `kill_reward` `increase` of exactly `perKillPrize * kills` for the user, referring to the tournament |
| `AdminTournaments.AwardKillMoney` | helpers/admin/tournaments.ts:363-497 | errors come in the helper's order (bad ids, negative kills, not owned, ended, not a participant, reward exists) and change nothing. On success it adds one `kill` row and one history row of `perKillPrize * kills`, raises only that user's balance by that amount, and keeps every invariant; the pair now has its kill reward |
| `AdminTournaments.AwardKeepsConsistent` | helpers/admin/tournaments.ts:455-485 | the three writes of a kill reward keep every invariant, including at most one kill per pair and the ledger balance |
| `AdminTournaments.ValidatedKillInputPassesInputChecks` | zod/tournaments.ts:54-69 | a kill request the schema accepted never fails on the user id or the kill count |
| `AdminTournaments.OnlyKillRow` | helpers/admin/tournaments.ts:437-453 | since a second kill reward is refused, the pair's kill row is the only one |
| `AdminTournaments.PromotedKillLeavesNoKill` | helpers/admin/tournaments.ts:254-261 | after the promotion the pair has no `kill` row left |
| `AdminTournaments.PromotionKeepsConsistent` | helpers/admin/tournaments.ts:241-275 | reclassifying the pair's kill reward keeps every invariant, and in particular moves no balance |
| `AdminTournaments.EndCheck` | helpers/admin/tournaments.ts:183-226 | the error ending throws first: bad tournament id, bad user id, tournament not the admin's or already ended, winner not a participant; none when all pass |
| `AdminTournaments.KillRowUpdateIsAfterEnd` | helpers/admin/tournaments.ts:242-261 | when ids increase and a pair has at most one `kill` row, updating by the id of the first `kill` row found reclassifies exactly that pair's `kill` rows, as the after-end table defines it |
| `AdminTournaments.WinnerTables` | helpers/admin/tournaments.ts:241-275 | the winnings and history tables the end step writes equal the after-end tables: the winner's `kill` row and `kill_reward` entries of the tournament become winnings, or both tables stay as they are when the winner holds no `kill` row |
| `AdminTournaments.EndKeepsConsistent` | helpers/admin/tournaments.ts:241-285 | ending a tournament whose winner is on the roster keeps every invariant, and leaves the winner no `kill` row |
| `AdminTournaments.EndTournament` | helpers/admin/tournaments.ts:177-300 | errors come in the helper's order (bad ids; missing, not owned or ended; not a participant) and change nothing. On success the tournament is ended and no row is added: a kill reward of the winner becomes tournament winnings in both tables, with no balance, roster or counter change, and every invariant is kept |
| `AdminTournaments.DeleteCheck` | helpers/admin/tournaments.ts:501-527 | the error deletion throws first: bad id, tournament not the admin's, tournament has participants (with their count); none when all pass |
| `AdminTournaments.DeleteTournament` | helpers/admin/tournaments.ts:499-541 | rejects a bad id, a tournament that is not owned, and a tournament with participants, reporting their number, without changing anything; otherwise it removes exactly that tournament and nothing else |
| `AdminTournaments.DeleteKeepsConsistent` | helpers/admin/tournaments.ts:517-534 | removing a tournament nobody joined keeps every invariant, roster foreign keys included |
| `AdminTournaments.EndedTournamentIsNeverDeleted` | helpers/admin/tournaments.ts:517-527 | an ended tournament always has a participant, so deleting it is refused |
| `AdminTournaments.ApplyEdit` | helpers/admin/tournaments.ts:576-597 | an edit of the request body as sent never touches id, owner, count or ended flag; each other column takes the supplied value by the helper's own test (a room id only when non-empty) and otherwise keeps its value; an edit that sets no column leaves the row as it is |
| `AdminTournaments.EditCheck` | helpers/admin/tournaments.ts:549-575 | the error an edit throws first: bad id, tournament not the admin's, tournament ended, a new non-zero capacity below the current count, then an update that sets no column (the query builder's refusal), then a check-constraint violation of the merged row; none when all pass |
| `AdminTournaments.EditTournament` | helpers/admin/tournaments.ts:543-612 | errors come in the helper's order (bad id, not owned, ended, new capacity below the count, no column to set, check constraint) and change nothing; on success only that row changes, to the merged row, and every invariant is kept |
| `AdminTournaments.EditWithoutRoomIdKeepsIt` | helpers/admin/tournaments.ts:581 | an accepted edit that omits the room id, or sends an empty one, keeps the stored room id, although the schema's own output would carry "0" |
| `AdminTournaments.EmptyEditIsRefused` | helpers/admin/tournaments.ts:576-597 | the empty edit passes the schema, yet editing any owned, unended tournament with it fails as an update that sets no column |
| `AdminTournaments.ValidatedEditPassesChecks` | zod/tournaments.ts:84-88 | an accepted edit body of a stored row is never refused by a check constraint |
| `AdminTournaments.MyTournaments` | helpers/admin/tournaments.ts:120-134 | exactly the admin's own tournaments, unchanged |
| `AdminTournaments.MyCurrentTournaments` | helpers/admin/tournaments.ts:302-321 | exactly the admin's tournaments that have not ended |
| `AdminTournaments.MyTournamentHistory` | helpers/admin/tournaments.ts:156-175 | exactly the admin's tournaments that have ended |
| `AdminTournaments.CurrentAndHistoryPartitionMine` | helpers/admin/tournaments.ts:302-311 | the current and ended listings are disjoint and together give all of the admin's tournaments |
| `Scenarios.OneSeatTournament` | helpers/user/tournaments.ts:211-245 | in a one-seat tournament with fee 20, the first joiner pays 20 and fills the seat, and the second is refused as full and keeps their balance |
| `Scenarios.AwardTwice` | helpers/admin/tournaments.ts:437-453 | a second kill reward for the same pair is refused, and the balance reflects one credit |
| `Scenarios.EndTwice` | helpers/admin/tournaments.ts:188-202 | ending twice is refused the second time, whoever is named; the tournament stays ended |
| `Scenarios.EndThenAward` | helpers/admin/tournaments.ts:399-404 | once a tournament is ended, a kill reward for it is refused |
| `Scenarios.EndThenEdit` | helpers/admin/tournaments.ts:564-566 | once a tournament is ended, any edit of it is refused |
| `Scenarios.KillRewardThenWin` | helpers/admin/tournaments.ts:241-275 | a kill reward that becomes the winner's tournament winnings is paid exactly once; the row stays, now of type `winnings`, and its history row is now a `tournament_winnings` entry of the same amount |

## Left out

- The column defaults `winnings.type = 'winnings'` and `history.balance_effect = 'none'` are not modelled: every insert in these helpers supplies both columns, so the defaults never apply.
- `TournamentValidation.TournamentInputValid`, `TournamentValidation.EditInputValid` and `TournamentValidation.AtMost` count a text's length in Unicode scalar values, which is how a Dafny string counts. Zod's `min(1).max(50)` and `max(255)` count UTF-16 code units (JavaScript `length`). So a text with characters outside the Basic Multilingual Plane (for example a name of 26 emoji, 52 units) is accepted by the model and refused by the source.
- Image upload in `createTournament` is a call to an image host. The model has no image column at all, so neither the upload nor the stored URL is modelled.
- The query builder, `.execute()` and logging are replaced by the in-memory tables and `Failure` results.
- Transactions and interleaving: each operation is one sequential method, so a write that fails half-way cannot happen in the model.
- The clock and date parsing: dates are integers and `now` is a parameter. The `Date.parse` validity checks and the 5 MB image size check are not modelled.
- `IsNumericString` reads "numeric string" as decimal digits only. JavaScript's `Number()` also accepts whitespace, signs, decimals and exponents.
- Kill counts are integers. The kill schema does not demand an integer, so a fractional reward is possible in the source; the model has no fractions.
- `AwardKillMoney` writes the balance read earlier plus the reward. Sequentially that equals the current balance plus the reward, which is what the model states.
- Integer width: amounts, balances and counts are unbounded. Postgres `integer` is 32-bit, so overflow and the database error it raises are not modelled.
- Column lengths (`varchar(255)`) and NOT NULL constraints are not enforced by the store. Only the check constraints, foreign keys and enums are invariants.
- Row ids of the roster and history tables are not modelled: no helper in the core reads them.
- Ordering: the listings are maps keyed by id. Their order (`scheduledAt` descending) is not modelled.
- `Visibility.Sanitize` covers objects and primitive values. Destructuring a primitive nested under `tournament` yields an object of its own enumerable properties in JavaScript (`{}` for numbers and booleans, index keys such as `{"0":"a","1":"b"}` for a string); the model keeps the primitive as it is.
- `EditTournament` takes the date when the field is present. The source skips an empty date string, which the model cannot represent.
- The listings not in the core are not modelled: `getAllUserTournaments`, `getUserTournamentsByName`, `getParticipatedTournaments`, `getUserWinnings`, `getTournamentParticipants` and `getMyTournamentById`.
- Deposits, withdrawals and their approval, sign-up, authentication, the mailer and the rate limiter are outside the ledger core. No code shown resolves deposits or withdrawals.
- The admin table is not modelled: the admin id is a plain parameter, and a tournament's owner is its `adminId`.
