# Lineup server: slot claims, in Dafny

The lineup server lets an organiser create a football lineup and share it by link.
- A lineup has two teams, "A" and "B". Each team has eleven numbered slots.
- A usable player count between 7 and 11 limits which slots can be claimed.
- The share link expires 48 hours after creation.
- Anyone with the link sends a participant id and may claim one slot, by team and index, under a display name.
- A participant may later release their own slot.

This project models the server's core. Each request is one sequential step.
- Creation is in `Lineups`: the player-count clamp, the eleven empty slots, the defaults and the timestamps.
- Reading, with its expiry test, is also in `Lineups`.
- `Claims` holds the claim and unclaim decisions. Each returns the first failing check, or the new rosters.
- `Sheets` holds the in-place write of one slot into the loaded rosters.
- `Server` holds the in-memory store and the four routes that use it.

Time is a parameter `now`, in milliseconds. The id of a new lineup is also a parameter.
- Request bodies are given after JavaScript's coercions. An empty string stands for a missing or falsy field.
- An index is either not a number, a whole number, or a number strictly between two whole numbers.
- A team other than "A" or "B" makes the JavaScript throw a TypeError. So does a non-whole index that passes the range check. Both are answered as `db_error`.
- `trim` is modelled with the ECMAScript white-space and line-terminator code points, in `Text`.

Invariants and laws:
- The invariant of a stored lineup is `Lineups.Valid`:
  - slots are numbered 1 to 11;
  - the count is in [7, 11];
  - the deadline is 48 hours after creation;
  - no participant holds two slots;
  - a slot without a holder has an empty name.
- Creation establishes `Valid`, and every route keeps it.
- The claim laws are proved about the pure decisions: check order, the frame of a write, and the claim/unclaim round trip.
- The class methods are proved equal to those decisions.

## Model

| member | source | states |
|---|---|---|
| Lineups.Clamp | server.js:25-27 | the result lies in [lo, hi]; it is `n` inside the range, `lo` below it, `hi` above it |
| Lineups.PlayersCountFrom | server.js:128 | the stored count is always in [7, 11]; an input in range is kept; no number or zero gives 11; below 7 gives 7, above 11 gives 11 |
| Lineups.PlayersCountExamples | server.js:128 | no number and 0 give 11, 3 and -5 give 7, 9 stays 9, 99 gives 11 |
| Lineups.MakePlayers | server.js:28-32 | exactly 11 slots; slot k has number k+1, an empty name and no holder |
| Lineups.NewLineup | server.js:116-131 | the new document is valid; created at `now`, expires 48 h later; count as clamped; every slot open; non-empty payload names and colours are kept (`Lineups.OrDefault`), empty ones replaced by their own defaults "فريق A", "فريق B", "#2563eb", "#dc2626" |
| Lineups.ExpiryIsStrict | server.js:129-130 | a new lineup is live at exactly `createdAt + 48 h` and expired one millisecond later; expired exactly when `now` is past that instant |
| Lineups.ReadLineup | server.js:142-163 | unknown id gives not_found; expired gives link_expired; success exactly for a known live lineup, answering its rosters and count |
| Text.TrimStartSpec | server.js:197 | leading trim keeps a suffix, drops only white space, and stops at a non-space |
| Text.TrimEndSpec | server.js:197 | trailing trim keeps a prefix, drops only white space, and stops at a non-space |
| Text.TrimSpec | server.js:197 | `Text.Trim`: `trim` gives "" exactly for an all-white-space string; otherwise the result starts and ends with a non-space |
| Text.TrimIdempotent | server.js:201 | trimming a trimmed name changes nothing |
| Claims.ParseClaim | server.js:173-176 | the body is rejected exactly when participantId, team or name is empty or index is not a number; otherwise participantId, team, index and name are the body's own, unchanged |
| Claims.ParseUnclaim | server.js:216-219 | the body is rejected exactly when participantId or team is empty or index is not a number; otherwise participantId, team and index are the body's own, unchanged |
| Claims.TeamOf | server.js:197 | only "A" and "B" name a roster |
| Claims.SlotIndex | server.js:197-202 | `roster[index]` is a slot exactly for a whole index in [0, length) |
| Claims.AnyClaimedBySpec | server.js:190-192 | `Claims.AnyClaimedBy`: the `some` scan of one roster is true exactly when some slot is held by the participant |
| Claims.FractionalRangeTest | server.js:186 | for a number strictly between `f` and `f + 1`, "index below 0 or at least count" holds exactly when "f below 0 or f at least count", which is the test `Claims.IndexOutOfRange` makes |
| Claims.TakenIffNotBlank | server.js:197 | `Claims.IsTaken`: a slot counts as taken exactly when its name is not all white space |
| Claims.ClaimedSlotShowsName | server.js:201-202 | `Claims.Claimed`: the written slot keeps its number, is held by the caller, and shows as taken exactly when the name given is not all white space |
| Claims.ReleasedSlotIsOpen | server.js:233-234 | `Claims.Released`: the blanked slot keeps its number, is open, and is not taken |
| Claims.ScanForHolder | server.js:190-195 | the scan over both rosters is true exactly when the participant holds a slot in A or B |
| ClaimLaws.FirstFailure | server.js:173-199 | the answer is none exactly when no check fails, and otherwise the code of a failing check with no failing check before it |
| ClaimLaws.ClaimAnswersFirstFailedCheck | server.js:171-211 | `Claims.ClaimOutcome`: the claim handler answers the first failing check among bad_request, not_found, link_expired, out_of_range, already_used, slot_taken; when all pass it succeeds exactly when the target slot exists, else db_error |
| ClaimLaws.UnclaimAnswersFirstFailedCheck | server.js:214-243 | `Claims.UnclaimOutcome`: the unclaim handler answers the first failing check among bad_request, not_found, link_expired, not_your_slot (the slot is missing or held by someone else); when all pass it succeeds exactly when the team exists, else db_error |
| ClaimLaws.UnknownLineupAnswersNotFound | server.js:146-223 | an unknown id gets not_found from read, claim and unclaim, except a malformed body, which is bad_request first |
| ClaimLaws.RangeCheckOnValidLineup | server.js:185-188 | `Claims.EffectiveCount` and `Claims.IndexOutOfRange`: on a valid lineup the fallback count of 11 never applies, a whole index is out of range exactly when outside [0, playersCount), and an in-range whole index names an existing slot of either team |
| ClaimLaws.HolderIsAnsweredAlreadyUsed | server.js:190-195 | a holder of any slot of either team gets already_used, even for an open target |
| ClaimLaws.ClaimWritesOnlyTarget | server.js:181-202 | `Claims.DecideClaim`, derived from `ClaimLaws.ClaimTarget`: a successful claim had a whole in-range index, a free target and a caller holding nothing; it writes trimmed name and caller into the target, keeps its number, and leaves every other slot of both teams unchanged |
| ClaimLaws.ClaimSucceedsWhenChecksPass | server.js:197-202 | a live, in-range, free target and a caller holding nothing: the claim succeeds with exactly that write |
| ClaimLaws.ClaimTarget | server.js:197-202 | a successful claim names a known team and a whole index into its roster, and its rosters are the rosters with that one slot written |
| ClaimLaws.WriteKeepsOneSlotPerParticipant | server.js:190-202 | writing a slot for a caller who holds nothing keeps one slot per participant |
| ClaimLaws.WriteKeepsUnclaimedSlotsBlank | server.js:201-234 | writing a held slot or a blank one keeps every unheld slot blank |
| ClaimLaws.WriteKeepsNumbering | server.js:201-234 | a write that keeps the slot's number keeps slots numbered 1 to 11 |
| ClaimLaws.ClaimKeepsLineupValid | server.js:171-206 | a successful claim keeps a valid lineup valid; nobody holds two slots after it |
| ClaimLaws.UnclaimSucceedsOnlyForHolder | server.js:224-236 | `Claims.DecideUnclaim`: an unclaim succeeds exactly when the lineup is live and the caller holds `players[team][index]`; it then blanks that slot only; a live request on a known team that fails gets not_your_slot |
| ClaimLaws.UnclaimKeepsLineupValid | server.js:228-236 | a successful unclaim keeps a valid lineup valid |
| ClaimLaws.UnclaimIgnoresPlayersCount | server.js:214-238 | the unclaim answer does not depend on the player count |
| ClaimLaws.ClaimThenUnclaimReopensSlot | server.js:201-234 | claim then unclaim by the same participant blanks the slot again; an open slot, and so the rosters, come back as they were |
| ClaimLaws.ExpiredLineupAnswersLinkExpired | server.js:149-226 | `Lineups.IsExpired`: past the deadline read, claim and unclaim all answer link_expired, except a malformed body, which is bad_request first |
| NameCheck.WhitespaceNameLetsSlotBeTakenOver | server.js:173-202 | as written, from the request bodies on: a non-empty, white-space-only name passes the `bad_request` test and claims an open slot, stored as held with an empty name; a second participant then claims the same slot and the first holds nothing |
| NameCheck.SpacesAreABlankName | server.js:174 | "   " passes `!name` yet trims to nothing |
| NameCheck.ParseClaimIntended | server.js:174 | the intended body test also rejects a name that trims to nothing |
| NameCheck.IntendedClaimKeepsEveryHolder | server.js:173-206 | with the intended test, a successful claim keeps the lineup valid, keeps every held slot named, and never changes a held slot |
| NameCheck.UnclaimKeepsHeldSlotsNamed | server.js:233-234 | an unclaim keeps every held slot named |
| NameCheck.NewLineupHeldSlotsNamed | server.js:126 | a new lineup has no held slot, so every held slot is named |
| Sheets.HeldIn | server.js:190-192 | the loop over one roster array finds the participant exactly when some slot is held by them |
| Sheets.LineupSheet.Load | server.js:178-179 | the sheet holds the loaded document, in two fresh, distinct arrays |
| Sheets.LineupSheet.Claim | server.js:181-202 | the in-place claim answers exactly what the claim decision answers; on success the arrays hold the decision's rosters, on failure they are unchanged |
| Sheets.LineupSheet.Unclaim | server.js:224-234 | the in-place unclaim answers exactly what the unclaim decision answers, and the arrays change only on success |
| Server.MemoryStore.constructor | server.js:23 | the store starts empty |
| Server.MemoryStore.Find | server.js:70-73 | a document exactly for a stored id, and it is the stored one |
| Server.MemoryStore.SaveLineup | server.js:59-63 | the document is stored under the id; every other id is unchanged |
| Server.MemoryStore.LoadLineup | server.js:70-73 | answers the stored document, or none for an unknown id |
| Server.MemoryStore.UpdatePlayers | server.js:86-92 | false exactly for an unknown id; otherwise only that lineup's rosters are replaced |
| Server.CreateLineup | server.js:116-135 | stores the new lineup under the given id; a store of valid lineups stays valid |
| Server.GetLineup | server.js:142-168 | answers the read decision on the stored document without writing; success exactly for a stored, live lineup |
| Server.ClaimSlot | server.js:171-211 | answers the claim outcome; the store changes exactly on success, and only in that lineup's rosters; every stored lineup stays valid |
| Server.UnclaimSlot | server.js:214-243 | answers the unclaim outcome; the store changes exactly on success, and only in that lineup's rosters; every stored lineup stays valid |

## Left out

- The MongoDB branch of the store is left out: `initDb`, the TTL index, `ObjectId` parsing, `insertOne`, `findOne` and `updateOne`. These are foreign library calls. Only the in-memory branch is modelled.
- Id generation from `Date.now()` and `Math.random()` is left out. The id is a parameter of `Server.CreateLineup`.
- HTTP is left out: status codes, CORS, static files, body parsing, the health route and the Arabic messages. Answers are `Lineups.ErrorCode` values.
- `positions` and a caller-supplied `payload.players` are left out. A new lineup always gets `makePlayers` rosters, and the read answer has no `positions`.
- Concurrent requests and their read-decide-write race are left out. Every route is one atomic step.
- Floating-point numbers are not modelled. A `NaN` or infinite index is left out. `Number(payload.playersCount)` is an optional whole number, with `None` for `NaN`.
- Non-string participant ids, names and teams are left out. So are team names such as "constructor" that reach inherited object properties. Every other team name is treated as a thrown TypeError.
- `doc.expiresAt &&` is not modelled. Every stored lineup has a deadline, so that guard is always true.
- Sheets.LineupSheet.Load: it copies the rosters into fresh arrays. The in-memory store hands the handler its own object, which the handler then changes in place. The model writes the result back through `UpdatePlayers`, which gives the same stored state for one sequential request. It does not capture the aliasing itself.
- Server.ClaimSlot: it keeps the `bad_request` test as written, so `Valid` is the invariant it preserves. The stronger "held slots are named" invariant holds only for the intended test (see Findings).

## Findings

| source | as written | input that shows it | evidently intended | confidence | as-written member | corrected member |
|---|---|---|---|---|---|---|
| server.js:174 | `!name` tests the untrimmed name, but the slot stores `name.trim()` and `slot_taken` tests the trimmed name | on a new lineup, "p" claims A/0 with name "   " and succeeds, and the slot is stored as held with name ""; then "q" claims A/0 with "Bob" and also succeeds, so "p" silently loses the slot | a name that trims to nothing is `bad_request`, so a held slot always shows a name and cannot be claimed again | high, not executed | NameCheck.WhitespaceNameLetsSlotBeTakenOver | NameCheck.IntendedClaimKeepsEveryHolder |
