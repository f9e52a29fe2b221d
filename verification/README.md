# Reputation ledger of the Discord reputation bot

This project models the ledger at the heart of `reputation_bot.py`. The bot
posts a voting message for a member whenever a trusted bot announces a token
call. Other members react with a green circle (good) or a red circle (bad), and
each reaction is tallied twice: on the member's overall counts and on the
member's per-token tally. Every vote is written to an audit log under a vote
ID. The active subset of that log is indexed separately. Administrators can:

- add synthetic votes (`repadd`);
- reverse votes by ID (`repremove`);
- bar a member from voting (`repdisable`).

On startup, token tallies saved without a symbol get a placeholder symbol. The
leaderboard ranks members by score.

The model is functional. The five pieces of state are an immutable `State`:

- aggregates;
- log;
- active index;
- disabled set;
- tracked messages.

Every handler is a pure transition `State -> (State, outcome)`. UUID
generation and the clock are replaced by a caller-supplied `Stamp(id, time)`.
Voter lists are sequences, and the list `remove` deletes the first
occurrence.

Modules, one per file:

- `Voters` (voters.dfy): voter lists, duplicate-freedom, removal of the first occurrence.
- `Model` (model.dfy): the state, the vote record, the floored decrement, stamps.
- `Ledger` (ledger.dfy): the invariants.
  - `InSync`: the active index is exactly the unreversed log records.
  - `VotersWellFormed`: no voter is listed twice or in both stances.
  - `NonNegative`.
  - `LogAdvances`: the log only grows, and `reversed` only goes from false to true.
- `Reactions` (reactions.dfy): the reaction-added and reaction-removed handlers.
- `Admin` (admin.dfy): `repadd`, `repremove` on a list of IDs, and `repdisable`.
- `IdList` (idlist.dfy): the comma splitting and whitespace stripping of the `repremove` argument.
- `Symbols` (symbols.dfy): the default symbol, tracking a new voting message, the load-time backfill.
- `Board` (board.dfy): leaderboard filtering and ordering.
- `Scenarios` (scenarios.dfy): whole-ledger runs across several events.

### Behaviours of the code that are easy to get wrong

- **A stance switch does not reverse the old record.** The code only adjusts the counts and appends a new active record (reputation_bot.py:570-597). The earlier record stays active in the log and the index. `Reactions.AddReactionRecords` states that every earlier record is kept as it was.
- **Counts can go negative.** Two paths decrement without checking:
  - The add path decrements without a floor (reputation_bot.py:576-577).
  - Admin removal of a stale record decrements the token count even when the voter is no longer listed (reputation_bot.py:429-431).
  
  `Scenarios.NegativeCountTrace` exhibits a valid state, reached this way, in which both the token's and the author's good count are -1. Non-negativity is therefore proved only for the transitions that keep it.
- **Reaction removal is decided by the voter list, not by the log.**
  - Whether anything happens depends only on the voter's presence in the stance's voter list (reputation_bot.py:664).
  - When it acts, it reverses every active log record matching voter, author, token, stance and message, not just one (reputation_bot.py:671-681).
- **Voter collections are lists, not sets.** Removal takes out the first occurrence (reputation_bot.py:575, 666). Mutual exclusion and duplicate-freedom are invariants the handlers preserve (`Ledger.VotersWellFormed`). A list's length and its count can drift apart. `Scenarios.StaleRemovalRun` reaches a good count of 0 with one good voter listed. `Scenarios.NegativeSwitch` reaches a good count of -1 with no good voter listed.
- **Guard order.** The self-vote check comes before the glyph check in both reaction handlers (reputation_bot.py:513-537, 641-646). The ledger state is the same either way, because every guard leaves it unchanged. What differs is outside the ledger: the add handler's self-vote branch removes the author's reaction for any glyph (reputation_bot.py:513-534). The model's ignored reason also names whichever guard fires first.

## Model

| member | source | states |
|---|---|---|
| Voters.RemoveFirst | reputation_bot.py:575 | Removing an absent voter changes nothing. Removing a listed voter cuts out its first occurrence and keeps the other voters in order, so the list loses exactly one copy of that voter |
| Voters.RemoveFirstNoDup | reputation_bot.py:575 | Removing from a duplicate-free list keeps it duplicate-free and leaves the voter absent |
| Voters.DropAtNoDup | reputation_bot.py:575 | Cutting one position out of a duplicate-free list leaves a duplicate-free list that no longer holds the element that was cut |
| Model.FlooredDec | reputation_bot.py:424 | The removal decrement `max(0, n - 1)` is never negative, and is exactly `n - 1` when `n >= 1` |
| Ledger.RetractTally | reputation_bot.py:429-431 | A floored retraction sets the count to `max(0, n - 1)` and removes one copy of the voter from the list. On a well-formed tally the voter ends unlisted and the tally stays well formed. The other stance and the symbol are untouched |
| Ledger.DropKeepsWellFormed | reputation_bot.py:575 | Dropping a voter from one stance keeps a tally well formed, and the voter is no longer listed there |
| Reactions.GlyphVote | reputation_bot.py:537-545 | Green maps to good and red to bad; any other glyph is not a vote |
| Reactions.AddReaction | reputation_bot.py:500-597 | The reaction is ignored, with the state unchanged, exactly when the event fails a guard: a bot or disabled voter, an untracked message, the author's own message, or a non-vote glyph. Otherwise a record is stored under the stamp's ID |
| Reactions.CastTallyEffect | reputation_bot.py:570-582 | On a well-formed tally the voter ends in exactly the new stance, and each count moves by the stance the voter held before. Every other voter keeps the stance it had, in both lists |
| Reactions.AddReactionStance | reputation_bot.py:562-582 | After an admissible reaction the voter is in the new stance's list and absent from the other. Every other voter keeps the stance it had on the tally the vote lands on. The token's symbol is the tracked message's symbol |
| Reactions.AddReactionCounts | reputation_bot.py:570-582 | Re-casting a held stance leaves token and user counts unchanged. A switch moves one vote between the stances. A first vote adds one. The switched flag is set exactly when a stance was held before |
| Reactions.AddReactionRecords | reputation_bot.py:548-597 | One new active record describes the vote. Earlier records are unchanged, and the index gains only the new ID with its other entries kept. The only user that may be added is the author, and the only token that may be added to the author is the message's. No other user, token tally, disabled voter or tracked message changes |
| Reactions.AddReactionPreservesValid | reputation_bot.py:500-597 | Adding a reaction keeps the active index in sync and the voter lists well formed, and only extends the log |
| Reactions.RemoveReaction | reputation_bot.py:624-681 | A reaction removal acts exactly when it passes the guards and the voter is listed under that stance on the message's token; otherwise the state is unchanged. The log's IDs never change |
| Reactions.RemoveReactionEffect | reputation_bot.py:664-667 | On an effective removal the token tally no longer lists the voter under that stance, and exactly one copy of the voter leaves that list, so the other voters stay. The count is decremented with a floor at zero. The other stance's voters and count and the token symbol are kept |
| Reactions.RemoveReactionUserCounts | reputation_bot.py:667-668 | On an effective removal the author's aggregate count for that stance is decremented with a floor at zero, and the other stance's aggregate is kept |
| Reactions.RemoveReactionLog | reputation_bot.py:670-681 | After an effective removal no active record matches the voter, author, token, stance and message. Every record that matched is marked reversed and is out of the active index |
| Reactions.RemoveReactionKeepsOthers | reputation_bot.py:670-681 | An effective removal keeps the log's IDs, leaves every non-matching record unchanged, and only advances the log |
| Reactions.RemoveReactionFrame | reputation_bot.py:657-668 | Removing a reaction keeps the set of users with an aggregate. It leaves every user other than the message's author unchanged, and it never changes the disabled voters or the tracked messages |
| Reactions.RemoveReactionAuthorFrame | reputation_bot.py:660-668 | Removing a reaction keeps the author's set of tokens and leaves every token tally other than the message's own unchanged |
| Reactions.RemoveReactionPreservesValid | reputation_bot.py:624-681 | Removing a reaction keeps the active index in sync and the voter lists well formed, and only advances the log |
| Reactions.RemoveReactionInSync | reputation_bot.py:670-681 | Reversing the matching records and dropping them from the index keeps the index equal to the set of active records, and only advances the log |
| Reactions.RemoveReactionWellFormed | reputation_bot.py:664-667 | Taking the voter out of one list keeps every voter list free of repeats and keeps the two stances of a tally disjoint |
| Reactions.RemoveReactionPreservesNonNegative | reputation_bot.py:664-668 | Removing a reaction never makes a count negative |
| Admin.AppendAdminVote | reputation_bot.py:326-339 | One admin vote raises the target's overall count of that type by one, leaves its token tallies alone, and enters the record in both the log and the index |
| Admin.AddAdminVotes | reputation_bot.py:325-339 | A run of admin votes raises the target's count by the number of stamps. No other user or token tally changes. The log grows by that many entries |
| Admin.AddAdminVotesLogged | reputation_bot.py:326-338 | The log gains exactly one admin record per stamp and keeps every earlier entry |
| Admin.AddAdminVotesIndexKeys | reputation_bot.py:339 | The active index gains exactly the stamps' IDs and keeps every earlier entry whose ID the log already held |
| Admin.AddAdminVotesIndexed | reputation_bot.py:339 | Each stamp's ID is indexed with its own admin record |
| Admin.AdminAdd | reputation_bot.py:310-339 | A non-positive amount is rejected. Otherwise:<br>- the target's count of the type rises by exactly the amount, and the other count and the token tallies are unchanged;<br>- the only user that may be added is the target, and other users are unchanged;<br>- exactly the amount of records are added, each `admin_added`, message 0, unreversed and indexed;<br>- earlier records, the disabled voters and the tracked messages are unchanged |
| Admin.AdminAddIndex | reputation_bot.py:339 | `repadd` only adds to the active index: it gains exactly the new IDs, and every earlier entry whose ID the log holds is kept |
| Admin.Enrol | reputation_bot.py:320-321 | A user without an aggregate gets an empty one, and an existing aggregate is kept. Nothing else changes |
| Admin.EnrolPreserves | reputation_bot.py:320-321 | Creating an empty aggregate keeps the ledger valid and non-negative |
| Admin.AddAdminVotesInSync | reputation_bot.py:325-339 | Admin votes keep the log and the active index in sync |
| Admin.AdminAddPreserves | reputation_bot.py:310-339 | `repadd` keeps the ledger valid, keeps counts non-negative, and only extends the log |
| Admin.RemoveOne | reputation_bot.py:409-436 | An unknown ID is invalid and an already reversed one is reported as such, both changing nothing. An active one is marked reversed and leaves the index, with every other record kept. Only the author's aggregate can change, and nothing does when the author has none |
| Admin.RemoveVotes | reputation_bot.py:405-436 | Every named logged vote ends reversed, unnamed records are unchanged, and the log only advances |
| Admin.RemoveVotesPartition | reputation_bot.py:409-436 | Each input ID lands in exactly one of success, already reversed and invalid |
| Admin.RemoveVotesInvalid | reputation_bot.py:410-416 | An ID is invalid exactly when the log lacks it; an already reversed ID is always logged |
| Admin.RemoveVotesSuccess | reputation_bot.py:414-436 | An ID is reported removed exactly when it named an active vote at the start of the batch |
| Admin.RemoveVotesSuccessOnce | reputation_bot.py:414-436 | No ID is reported removed twice, even when the input repeats it |
| Admin.RemoveVotesNoActive | reputation_bot.py:410-416 | A batch naming no active vote changes no counter and removes nothing |
| Admin.RemoveSameIdTwice | reputation_bot.py:409-436 | Naming the same active ID twice gives removed, then already reversed, and the state of a single removal |
| Admin.RemoveVotesIdempotent | reputation_bot.py:409-436 | Repeating a batch changes nothing and removes nothing |
| Admin.RemoveOneCounts | reputation_bot.py:423-431 | A removal decrements the type's overall count with a floor at zero. For a token vote it also floors the token count and drops exactly one copy of the voter from the list, so the other voters stay. That tally's other stance and symbol are kept. The author's other token tallies are unchanged. Admin votes, and votes whose token has no tally, leave the token tallies alone |
| Admin.RemoveOnePreservesValid | reputation_bot.py:423-435 | Removing one vote keeps the ledger valid |
| Admin.RemoveOnePreservesNonNegative | reputation_bot.py:424-429 | Removing one vote never makes a count negative |
| Admin.RemoveVotesPreserves | reputation_bot.py:409-436 | A batch removal keeps the ledger valid and counts non-negative |
| Admin.ToggleDisabled | reputation_bot.py:386-392 | The user's disabled flag flips, the reported flag says whether the user is now disabled, and nothing else changes |
| Admin.ToggleTwice | reputation_bot.py:386-392 | Toggling twice restores the state |
| Admin.TogglePreservesValid | reputation_bot.py:386-392 | Toggling keeps the ledger valid and counts non-negative |
| IdList.Split | reputation_bot.py:405 | Splitting on commas gives at least one piece, and no piece contains a comma |
| IdList.JoinSplit | reputation_bot.py:405 | Joining the pieces with the separator restores the input |
| IdList.SplitJoin | reputation_bot.py:405 | Splitting a join of separator-free pieces returns the pieces |
| IdList.SplitCount | reputation_bot.py:405 | There is one piece more than there are separators |
| IdList.Strip | reputation_bot.py:405 | The stripped piece is an infix of the input that starts and ends with a non-space, and everything cut away is whitespace |
| IdList.StripIdempotent | reputation_bot.py:405 | Stripping twice is stripping once |
| IdList.ParseIds | reputation_bot.py:405 | The IDs are the stripped comma-separated pieces, in order, one per piece |
| IdList.RepRemove | reputation_bot.py:405-436 | The report of `repremove` lists as many IDs as the argument has commas plus one |
| IdList.ParseJoined | reputation_bot.py:405 | A list of stripped, comma-free IDs joined by bare commas parses back to exactly those IDs |
| Symbols.Prefix6 | reputation_bot.py:224 | The prefix is the first six characters, or the whole address when shorter |
| Symbols.DefaultSymbol | reputation_bot.py:224 | The placeholder is never empty: `unknown` for the unknown sentinel, otherwise the six-character prefix followed by `...` |
| Symbols.TrackedSymbol | reputation_bot.py:727-729 | A new voting message keeps the extracted symbol, unless the address is unknown or nothing was extracted, in which case it gets the placeholder |
| Symbols.TrackMessage | reputation_bot.py:738-742 | The posted message is tracked with its author, address and symbol; other tracked messages and all other state are unchanged |
| Symbols.TrackMessagePreservesValid | reputation_bot.py:738-742 | Tracking a message keeps the ledger valid |
| Symbols.Backfill | reputation_bot.py:219-224 | Every token tally ends with a symbol. Tallies without one get the placeholder; the others, and every count and key, are unchanged |
| Symbols.BackfillIdempotent | reputation_bot.py:219-224 | Backfilling twice is backfilling once |
| Symbols.Load | reputation_bot.py:203-224 | Loading replaces the aggregates, with legacy symbols backfilled, and replaces the log, index and disabled set with the saved ones. The tracked messages in memory are kept |
| Symbols.Start | reputation_bot.py:32-37 | A process start begins with no tracked voting message. It then holds the saved aggregates with the placeholder symbol backfilled, and the saved log, index and disabled voters |
| Symbols.LoadPreserves | reputation_bot.py:219-224 | Loading a valid, non-negative saved state gives a valid, non-negative running state |
| Symbols.TrackedSymbolMatchesBackfill | reputation_bot.py:728-729 | For an unknown address or an empty extraction, the symbol of a new voting message equals the placeholder the load-time backfill gives |
| Board.Rows | reputation_bot.py:245-265 | The rows are exactly the members with a non-zero count, each with its own score, good and bad |
| Board.InsertRanked | reputation_bot.py:267 | Inserting into a ranked list keeps it ranked |
| Board.Rank | reputation_bot.py:267 | Ranking permutes the rows into order by score descending, then good descending, then bad ascending |
| Board.Leaderboard | reputation_bot.py:245-267 | Visiting every aggregate once, the board is ranked and is a permutation of the listed rows |
| Board.LeaderboardMembers | reputation_bot.py:245-267 | Every user with an aggregate is on the board exactly when a guild member with some vote, and then with their own counts |
| Board.RowsDistinct | reputation_bot.py:245 | Visiting each aggregate once gives each user at most one row |
| Scenarios.Posted | reputation_bot.py:738-742 | A freshly posted voting message on an empty ledger gives a valid, non-negative state |
| Scenarios.DisabledVoterIgnored | reputation_bot.py:502 | After `repdisable`, the user's reactions are ignored, whether added or removed |
| Scenarios.NegativeCountTrace | reputation_bot.py:571-582 | From a message with no votes: a switch, a second good vote, an admin reversal of the stale record, and a second switch. The result is a valid state whose token and author good counts are -1 |
| Scenarios.VoteRetractRemoveRun | reputation_bot.py:664-681 | Two good votes give a score of 2. Taking one back gives 1 and reverses that record. Removing the other by ID gives 0 with no active vote. Repeating the removal reports it already reversed and changes nothing |

## Left out

- Discord I/O: embeds, private messages, removing the author's own reaction, audit-channel posts, command registration and permission checks. These are external calls.
- The reaction-removal handler's guild lookup and member fetch. They are external calls; a missing guild or member is an ignored event like the others.
- Persistence: the JSON save and load themselves, and the `str()` keying of aggregates by user ID. The model keys aggregates by the integer ID directly, which is a bijection.
- Saved aggregates or token tallies that lack a count or a voter list cannot be represented. Every tally here carries both counts and both lists, and only a missing symbol is modelled. In the source such entries behave differently in each handler:
  - `repremove` reads them with defaults (reputation_bot.py:424-430).
  - `repadd` raises on a missing user count after the log entry is written (reputation_bot.py:328-338).
  - The reaction handlers raise into their catch-all part-way through. By then the symbol has been overwritten (reputation_bot.py:566) or the voter removed from the list (reputation_bot.py:575-576, 666-667).
- Symbols.Load: all five saved files are taken to be present. In the source a missing file ends the load at that file (reputation_bot.py:225), and the pieces after it keep their in-memory values.
- The token-address and symbol extractors. The extracted address and symbol are inputs.
- The reputation percentage (floating point), the `replogs` channel setting, and `repmanager`.
- UUIDs and timestamps. They are caller-supplied stamps.
- Concurrency. The model is sequential.
- Board.Leaderboard: the top-ten cut and the rendering are not modelled. Stability of the sort among equal keys is not stated, only the order and the permutation.
- Reactions.AddReaction: an ID already in the log would overwrite its record, as the dictionary store does. The log lemmas take each stamp's ID to be fresh, which UUID generation gives in practice.
- Voters.RemoveFirst: the list remove raises when the element is absent. Every call site tests membership first, and the model makes the absent case the identity.
