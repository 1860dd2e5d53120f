# Verified model of the Aiko chat gateway

The gateway is one island's chat server: it stores messages, retractions, reports, blocks, memberships and
communities, talks to an MQTT bus, wakes phones through FCM, admits signed commands for robots and signs its own
manifest. This project models the parts of it that are small state machines over a store and proves what they keep
over whole runs.

| files | what they model |
|---|---|
| `Text`, `Positional`, `Ordering`, `Ulid` | text order, positional digits, ORDER BY and LIMIT, ULID minting |
| `Store`, `History`, `Paging` | the tables, the two-stream history pages, the fence, catch-up and scroll-back |
| `Services`, `Session`, `Gateway`, `Acceptance`, `Runs`, `Cascades`, `Effects` | the mutating service calls as functions of the store, the statements that run them, their invariants, exactly which calls are accepted, theorems over runs, what the two deletions take and leave, and what calls do to what viewers see |
| `Convergence`, `Stranded` | takedown propagation to a viewer who pages while the store changes, and when it fails |
| `Memberships`, `Communities`, `DmKey`, `DmRuns` | calls whose reads and writes interleave with others |
| `Directory` | the cursor codec and the directory walk |
| `Echo` | echo suppression as a matching problem |
| `Json`, `Fcm`, `FcmRuns` | the FCM auth machine and its orchestrator |
| `Bytes`, `Multikey`, `SignedBytes`, `Wire`, `Manifest`, `Actuation`, `ActuationRuns` | the signed encodings, the two verifiers, and the durable high-water mark |
| `WorkerGuard` | the single-worker lock over processes, forks and crashes |

Conventions. Message, retraction and report ids are ranks on the ULID axis, which `Ulid.UlidOrder` justifies; 0 is the
empty string. A service call that runs inside one SQLite write transaction is one step; reads before that transaction
are separate steps wherever the code is written to survive what happens in between (`Memberships`, `Communities`,
`DmRuns`). Clocks, randomness, minted ids, kernel answers, HTTP responses and disk failures are parameters of the
steps. Ed25519 (RFC 8032) and base64url are function parameters with the laws in `Wire.Lawful`; Python strings at the
signing boundary are code point sequences, so that lone surrogates exist.

What turned out not to hold, with the exact condition and a concrete witness each time:

- A takedown's own guard (retraction id above its target) does not make the retraction reach a synced viewer; an id
  above the viewer's fence does (`Stranded.TakedownReachesIff`).
- A channel can lose its last admin to a removal or an account deletion acting on a stale read
  (`Memberships.OrphansIff`).
- Account deletion leaves the user's id in the wire name of every direct message they had
  (`Cascades.ErasedUnlessDm`).
- The directory's cursor gate lets keys through that `int` does not read or the database does not bind
  (`Directory.UncaughtIff`).
- `classify_mint`, documented as total, raises on some lifetimes (`Fcm.MintRaisesIff`).
- A manifest with a lone surrogate raises UnicodeEncodeError, although the documentation of `verify_manifest` names
  IslandIdentityError for every malformation (`Manifest.EscapesIff`).
- The high-water primitive, called directly, accepts ids its own loader refuses or reads back as others
  (`Actuation.DirectAdvanceReloads`).

Where code and documentation differ the code is followed. The moderation service speaks of messages already
soft-deleted by an account deletion; account deletion tombstones a message's content and never soft-deletes it. The
channel service says that tearing down direct messages belongs to account deletion, which does not do it. A message
hidden by a block shows again, as a tombstone, once its author's account is deleted (`Effects.DeletionHidesNothing`).
The FCM machine discards a denial only when its send began strictly before the current phase.

## Model

| member | source | states |
|---|---|---|
| `Ulid.Encode` | src/aiko_gateway/domain/ids.py:18-23 | the shift-and-reverse loop spells exactly the low base-32 digits of the value, for every integer and length |
| `Ulid.EncodeOrder` | src/aiko_gateway/domain/ids.py:18-23 | encoded texts are equal, or lexicographically ordered, exactly as the values modulo 32^length, for all integers; so the encoding is injective and order-preserving precisely on values that fit |
| `Ulid.EncodeFits` | src/aiko_gateway/domain/ids.py:18-23 | below 32^length text order is numeric order and equal texts mean equal values |
| `Ulid.UlidOrder` | src/aiko_gateway/domain/ids.py:26-32 | ids compare exactly as (millisecond, randomness) pairs: a later millisecond always sorts later |
| `Ulid.UlidWraps` | src/aiko_gateway/domain/ids.py:26-32 | a concrete millisecond outside ten characters for which the order is lost |
| `History.TimelineHolds` | src/aiko_gateway/domain/messages_service.py:541-565 | on every store the reference timeline is sorted and holds exactly the channel's retractions and those of its undeleted messages that have no sender or one in no block, either way, with the viewer; each id once where no message shares an id with a retraction |
| `History.ForwardPage` | src/aiko_gateway/domain/messages_service.py:547-553 | on every store and for every cursor a forward page (two streams each cut to the limit, merged, cut again) is the first `limit` entries of the timeline above the cursor, ties included |
| `History.BackwardPage` | src/aiko_gateway/domain/messages_service.py:554-565 | on every store a backward page is the last `limit` entries of the backward timeline below the cursor, oldest first; at a shared id the flipped stable sort puts the retraction first |
| `History.TimelinesAgreeIff` | src/aiko_gateway/domain/messages_service.py:541-565 | the backward pages tile the same history as the forward ones if and only if no visible message shares its id with a retraction of the channel |
| `Ordering.CutSortCut` | src/aiko_gateway/domain/messages_service.py:535-553 | cutting two sorted runs, sorting their union and cutting again is cutting the fully sorted union, for any total preorder |
| `Paging.FenceIsLast` | src/aiko_gateway/domain/messages_service.py:469-494 | the fence is the id of the last entry a pager can return, and empty exactly when there is none |
| `Paging.FencesAgree` | src/aiko_gateway/domain/messages_service.py:417-494 | the batched fence agrees with the single-channel fence on every requested channel |
| `Paging.AheadOfFence` | src/aiko_gateway/domain/messages_service.py:469-553 | something is left above a cursor exactly when the cursor is below the fence |
| `Paging.ForwardStep` | src/aiko_gateway/domain/messages_service.py:497-553 | a forward page below the fence is non-empty and moves the cursor past exactly what it delivers |
| `Paging.CatchUp` | src/aiko_gateway/domain/messages_service.py:469-553 | repeated forward paging from any watermark terminates at the fence and delivers each visible entry above the watermark exactly once, ascending |
| `Paging.ScrollBack` | src/aiko_gateway/domain/messages_service.py:554-565 | repeated backward paging terminates and rebuilds the whole timeline |
| `Paging.BothWaysAgree` | src/aiko_gateway/domain/messages_service.py:497-565 | forward tiling from the empty watermark and backward tiling yield the same history |
| `Paging.PreviewsAgree` | src/aiko_gateway/domain/messages_service.py:357-414 | the batched preview agrees with the single preview on every requested channel and holds no other |
| `Paging.PreviewIsNewest` | src/aiko_gateway/domain/messages_service.py:357-414 | the preview is the newest message of the viewer's timeline, and none exactly when that timeline has no message |
| `Convergence.TakedownsConverge` | src/aiko_gateway/domain/moderation_service.py:375-471 | TAKEDOWN CONVERGENCE: in every run of service calls and page reads in both directions whose inserted ids each exceed the earlier ones, once the forward watermark has reached the fence the viewer has received a retraction for every taken-down message it ever received, whatever was blocked or unblocked meanwhile |
| `Convergence.GuardedTakedownsConverge` | src/aiko_gateway/domain/moderation_service.py:443-471 | the same without a clock, under what the writers could check: a retraction's id exceeds every id stored in its channel, no message takes a stored retraction's id, channel ids are not reused |
| `Convergence.EventKeeps` | src/aiko_gateway/domain/messages_service.py:497-565 | every page read, and every service call that inserts retractions ahead of the watermark, keeps the invariant that a retraction of a held message was received or is still ahead |
| `Convergence.PageSkipsNothing` | src/aiko_gateway/domain/messages_service.py:546-553 | a forward page carries every retraction of the channel between its cursor and its end |
| `Stranded.TakedownReachesIff` | src/aiko_gateway/domain/moderation_service.py:443-471 | after a takedown that emits a retraction, a viewer level with the fence is delivered exactly that retraction if its id is above the fence, and nothing otherwise |
| `Stranded.StrandedTakedown` | src/aiko_gateway/domain/moderation_service.py:443-471 | a seven-event run from the empty store on which the code's own ordering guard passes and a viewer level with the fence holds a taken-down message it got no retraction for |
| `Gateway.StepSound` | src/aiko_gateway/domain/moderation_service.py:375-492 | every service call keeps all table invariants: unique wire names, the reserved namespace, no dangling reference, one higher-id retraction per soft-deleted message in that message's channel, one row per client message id |
| `Runs.RunSound` | src/aiko_gateway/domain/moderation_service.py:289-562 | the same invariants hold in every store reachable from the empty one |
| `Runs.ResolvesOnce` | src/aiko_gateway/domain/moderation_service.py:375-492 | a resolved report keeps its outcome to the end of every run |
| `Runs.TakenDownIsAnnounced` | src/aiko_gateway/domain/moderation_service.py:412-471 | in every reachable store a taken-down report has a soft-deleted message and exactly one retraction, with a higher id, in the same channel |
| `Runs.DmInsertGuarded` | src/aiko_gateway/domain/messages_service.py:140-197 | a step that adds a row to a direct message is a send while no block stands, in either direction, between the sender and any other id of the key |
| `Runs.DmRunGuarded` | src/aiko_gateway/domain/messages_service.py:140-197 | the same over whole runs, whoever left or re-opened in between |
| `Runs.ResendReturnsOriginal` | src/aiko_gateway/domain/messages_service.py:140-147 | a resend returns the first row and changes nothing, whatever was blocked since |
| `Runs.BusAvoidsDms` | src/aiko_gateway/domain/messages_service.py:288-296 | no bus message lands in a direct message |
| `Runs.FederatesOnlyStandard` | src/aiko_gateway/domain/messages_service.py:90-99 | under the channel invariants exactly the standard channels federate |
| `Runs.EitherMarkKeepsPrivate` | src/aiko_gateway/domain/messages_service.py:90-99 | either mark of a direct message alone, its kind or its wire name, keeps a channel off the bus, on every channel row |
| `Cascades.OnlyChannelsName` | src/aiko_gateway/domain/accounts_service.py:138-272 | after an accepted account deletion some row still names the user if and only if the wire name of some direct message does |
| `Cascades.ErasedUnlessDm` | src/aiko_gateway/domain/accounts_service.py:138-272 | WHAT ERASURE MISSES: in every reachable store, after an accepted deletion some row still names the user if and only if the user had a direct message, whose channel row outlives the account |
| `Cascades.DmOutlivesAccount` | src/aiko_gateway/domain/accounts_service.py:138-272 | a four-step run after which the deleted user's id is still in a channel row |
| `Cascades.OthersUntouched` | src/aiko_gateway/domain/accounts_service.py:183-271 | users, channels, retractions, blocks, memberships, read positions and community memberships: exactly the user's rows go, and every other row keeps its value |
| `Cascades.MessagesKeepTheirSlot` | src/aiko_gateway/domain/accounts_service.py:183-187 | authored messages become tombstones in their slot; all other messages are unchanged |
| `Cascades.ReportsKeepTheirOutcome` | src/aiko_gateway/domain/moderation_service.py:546-562 | every report stays with its subject, outcome and every link to someone else |
| `Cascades.CommunitiesStay` | src/aiko_gateway/domain/accounts_service.py:239-249 | every community stays; exactly those that had the user count one member less, exactly those the user owned lose their owner |
| `Cascades.RefusedDeletionIsInert` | src/aiko_gateway/domain/accounts_service.py:100-154 | a deletion is refused exactly when the user is some channel's only admin, names exactly those channels, and changes nothing |
| `Cascades.ChannelGone` | src/aiko_gateway/domain/channels_service.py:84-123 | hard deletion finds exactly a standard channel of that name and removes exactly it, its rows and the reports on its messages; every other row of every table keeps its value and every reference stays whole |
| `Effects.SendIsSeen` | src/aiko_gateway/domain/messages_service.py:102-197 | a send adds its row to the history of exactly the viewers with no block between them and the sender and takes nothing from anyone; refused sends and resends leave no trace |
| `Effects.BlockHides` | src/aiko_gateway/domain/moderation_service.py:119-205 | a block hides each party's messages from the other in every channel, hides nothing else from anyone, and no retraction |
| `Effects.UnblockUndoes` | src/aiko_gateway/domain/moderation_service.py:119-158 | a block is accepted exactly for another existing user; unblocking undoes it and touches no other pair |
| `Effects.TakeDownIsSeen` | src/aiko_gateway/domain/moderation_service.py:412-471 | a takedown removes exactly its message from everyone's history and adds exactly its one retraction, under the minted id, to the channel's; a repeated one does nothing more |
| `Effects.DismissIsUnseen` | src/aiko_gateway/domain/moderation_service.py:474-492 | dismissal is idempotent, changes no history, and is refused exactly for unknown or taken-down reports |
| `Effects.BusLands` | src/aiko_gateway/domain/messages_service.py:288-320 | a bus message lands in the standard channel of its name, existing or new, under the account that alone has that non-empty username and under no other, and changes no other channel |
| `Effects.BusIsSeen` | src/aiko_gateway/domain/messages_service.py:288-320 | a stored bus message joins the history of exactly the viewers with no block against its sender, of every viewer when it has none, in its own channel, and changes no other entry of any history |
| `Effects.DeletionHidesNothing` | src/aiko_gateway/domain/accounts_service.py:183-190 | an accepted account deletion takes nothing out of any other viewer's history; all the user's undeleted messages are then in it, those a block had hidden now as tombstones, and nothing else is new |
| `Effects.RunFilesOnce` | src/aiko_gateway/domain/moderation_service.py:304-328 | in every reachable store a user has at most one report on a message |
| `Acceptance.TakeDownAccepted` | src/aiko_gateway/domain/moderation_service.py:412-471 | TAKEDOWNS, EXACTLY: accepted if and only if the report exists, was not dismissed, and its message either has a retraction or can get one under a higher unused id; it emits exactly when there was none; each refusal has its exact cause and leaves the store as it was |
| `Acceptance.TakeDownLeaves` | src/aiko_gateway/domain/moderation_service.py:412-471 | an accepted takedown resolves its report, soft-deletes the message, adds its retraction in the message's channel when it emits, and leaves every other row of every table as it was |
| `Acceptance.SecondReportResolves` | src/aiko_gateway/domain/moderation_service.py:432-471 | a second pending report on a message already taken down is resolved too and announces nothing twice |
| `Acceptance.DismissAccepted` | src/aiko_gateway/domain/moderation_service.py:474-492 | a pending report is stamped and nothing else changes; dismissed ones stay, taken-down ones are refused |
| `Acceptance.SendAccepted` | src/aiko_gateway/domain/messages_service.py:133-197 | SENDS, EXACTLY: the earlier row answers if and only if there is one; otherwise a row is stored if and only if the channel is standard or a direct message whose pair is free of blocks with the sender and the minted id is unused; refusals leave no trace |
| `Acceptance.GateExact` | src/aiko_gateway/domain/messages_service.py:157-168 | the direct-message gate lets a sender through if and only if the key spells two ids none of which, but the sender itself, is in a block with the sender either way |
| `Acceptance.BusAccepted` | src/aiko_gateway/domain/messages_service.py:288-320 | a bus message is stored if and only if its channel name is non-empty, outside the reserved namespace, taken or free to make, and the minted id unused; a dropped one leaves the store as it was |
| `Acceptance.ReportAccepted` | src/aiko_gateway/domain/moderation_service.py:304-328 | a report is accepted on any stored message: the reporter's earlier one is answered if there is one, else one pending row is added |
| `Acceptance.NewChannelRows` | src/aiko_gateway/domain/memberships_service.py:445-503 | in every sound store a new channel starts with its creator alone, as admin, and a new direct message with exactly its pair |
| `Acceptance.JoinThenLeave` | src/aiko_gateway/domain/memberships_service.py:163-407 | a join keeps the role of whoever was a member, and is undone by leaving for whoever was not |
| `Session.Session.SendMessage` | src/aiko_gateway/domain/messages_service.py:102-197 | the statement sequence of a send computes the specified result and store |
| `Session.Session.ReceiveFromBus` | src/aiko_gateway/domain/messages_service.py:288-320 | channel upsert and message insert land together or not at all |
| `Session.Session.UpsertBusChannel` | src/aiko_gateway/domain/channels_service.py:56-81 | the reserved prefix is refused before any lookup; an existing row is returned untouched |
| `Session.Session.TakeDownMessage` | src/aiko_gateway/domain/moderation_service.py:412-471 | the takedown's checks and writes compute the specified store and keep every table invariant |
| `Session.Session.DismissReport` | src/aiko_gateway/domain/moderation_service.py:474-492 | dismissal computes the specified store |
| `Session.Session.FileReport` | src/aiko_gateway/domain/moderation_service.py:304-328 | a report is recorded once per reporter and message |
| `Session.Session.HardDeleteChannel` | src/aiko_gateway/domain/channels_service.py:98-123 | the ordered deletes compute the specified store and keep every table invariant |
| `Session.Session.PurgeModerationRows` | src/aiko_gateway/domain/moderation_service.py:546-562 | blocks of either direction go, both links of a report to the user are cut |
| `Session.Session.DeleteUserAccount` | src/aiko_gateway/domain/accounts_service.py:138-272 | over a list of admin channels read earlier: the loop of guarded deletes with its rollback, then the updates and deletes, leave exactly the specified store and keep every table invariant; with a current list this is the specified deletion |
| `Memberships.OrphansIff` | src/aiko_gateway/domain/memberships_service.py:104-160 | a step takes a channel from some admin to none if and only if it executes a removal that read the row before it became the sole admin's, or an account deletion whose channel list predates it |
| `Memberships.AdminsNeverRunOut` | src/aiko_gateway/domain/memberships_service.py:358-407 | over every interleaving of creates, joins, leaves, removals and account deletions in which no admin row appears under a pending call that read its absence, a channel that has had an admin has one for ever |
| `Memberships.StaleReadOrphans` | src/aiko_gateway/domain/memberships_service.py:370-380 | a named nine-step run whose last step, a pending removal that had read a member's row, deletes the last admin |
| `Memberships.StaleListOrphans` | src/aiko_gateway/domain/accounts_service.py:100-104 | a three-step run in which an account deletion leaves a just-created channel without members |
| `Memberships.LastAdminIsPresent` | src/aiko_gateway/domain/memberships_service.py:145-160 | a LastAdmin answer means the row is still there and nothing changed; it is the only admin exactly when it is an admin row |
| `Memberships.FreshListIsExact` | src/aiko_gateway/domain/accounts_service.py:100-135 | with a current list the refusal names exactly the channels only the user administers |
| `Memberships.RemovalExact` | src/aiko_gateway/domain/memberships_service.py:104-160 | a removal takes exactly its row, if another admin is left or the row was read as no admin, and reports it gone exactly when it is |
| `Memberships.AccountRemovalExact` | src/aiko_gateway/domain/accounts_service.py:69-135 | for any list, current or not: refused exactly if the user is the only admin of a listed channel, naming exactly those and changing nothing; otherwise exactly the user's rows go |
| `Memberships.Roster.DeleteUnlessLastAdmin` | src/aiko_gateway/domain/memberships_service.py:104-160 | the conditional delete and the second look compute the specified outcome and rows |
| `Memberships.Roster.RemoveAdminMemberships` | src/aiko_gateway/domain/accounts_service.py:104-135 | the loop drops exactly the admin rows with another admin left and collects, in list order, exactly the channels it may not leave |
| `Memberships.Roster.DeleteAccountRows` | src/aiko_gateway/domain/accounts_service.py:69-154 | a refusal rolls every membership back; otherwise no membership of the user is left |
| `Communities.CountsHold` | src/aiko_gateway/domain/communities_service.py:306-394 | in every run of staged, racing joins, takedowns, visibility flips and account deletions every member_count equals the number of membership rows |
| `Communities.InsertKeepsCount` | src/aiko_gateway/domain/communities_service.py:255-283 | the guarded insert with its bump keeps every count |
| `Communities.DeletionKeepsCount` | src/aiko_gateway/domain/accounts_service.py:239-249 | account deletion counts down exactly the communities it leaves |
| `Communities.RowsChangeOnlySo` | src/aiko_gateway/domain/communities_service.py:255-394 | a membership row appears exactly by a join's own insert while the community is public and live at that moment, and disappears exactly with its account |
| `Communities.StagedIsJoin` | src/aiko_gateway/domain/communities_service.py:286-394 | the statements of a join, uninterrupted, report and leave what the one-step join does |
| `Communities.JoinedIffAdded` | src/aiko_gateway/domain/communities_service.py:364-394 | a call reports a new membership exactly at the step that adds its row |
| `Communities.JoinExact` | src/aiko_gateway/domain/communities_service.py:286-394 | both joining answers have their exact condition in the columns; a row and one count are added for a new membership and nothing otherwise |
| `Communities.Registry.JoinCommunity` | src/aiko_gateway/domain/communities_service.py:306-394 | a join reports a new membership exactly when it adds one, and keeps every count |
| `Communities.Registry.ForgetUser` | src/aiko_gateway/domain/accounts_service.py:239-249 | count down, drop rows, anonymize the owner |
| `Directory.Walk` | src/aiko_gateway/domain/communities_service.py:168-215 | following next_cursor from the top terminates, never fails, uses full pages of twenty but for the last, and visits every matching community that is public and not taken down, and nothing else, exactly once in sort order, for both sorts |
| `Directory.PageIs` | src/aiko_gateway/domain/communities_service.py:181-215 | the page after the i-th entry is the next twenty of the listing, with a cursor exactly when more follow |
| `Directory.CursorRoundTrip` | src/aiko_gateway/domain/communities_service.py:113-135 | decoding undoes encoding for every sort key, separators included, and refuses the other sort mode |
| `Directory.OnlyEncodingsDecode` | src/aiko_gateway/domain/communities_service.py:121-135 | every accepted cursor text is an encoding |
| `Directory.ParseOfPrint` | src/aiko_gateway/domain/communities_service.py:184-187 | the printed count of every database integer parses back to it |
| `Directory.UncaughtIff` | src/aiko_gateway/domain/communities_service.py:184-195 | a cursor fails with something other than InvalidCursor if and only if the digit gate passes a key that is not the text of a database integer: two or more leading dashes, a digit that is no decimal, more than 4300 digits, or a number outside 64 bits |
| `Directory.AnsweredIff` | src/aiko_gateway/domain/communities_service.py:168-215 | a page is answered if and only if there is no cursor or it encodes a key of this sort order and an id; no other text falls back to the first page |
| `Directory.TwoDashesUncaught` | src/aiko_gateway/domain/communities_service.py:184-187 | such a cursor, with the key `--5` |
| `Directory.LargeCountUncaught` | src/aiko_gateway/domain/communities_service.py:184-195 | such a cursor, with the key 2^63 |
| `Directory.LongTextUncaught` | src/aiko_gateway/domain/communities_service.py:184-187 | such cursors, with any key of more than 4300 digits |
| `DmKey.KeySymmetric` | src/aiko_gateway/domain/dm_service.py:104-110 | the key does not depend on the order of the pair |
| `DmKey.KeySpelled` | src/aiko_gateway/domain/dm_service.py:104-110 | the key is `dm:` and the two ids in text order, colon between |
| `DmKey.KeyInjective` | src/aiko_gateway/domain/dm_service.py:104-110 | keys are equal exactly for equal unordered pairs of 26-character colon-free ids |
| `DmKey.PeerRoundTrip` | src/aiko_gateway/domain/dm_service.py:74-101 | parsing a key gives back exactly the other party, and nobody for notes-to-self |
| `DmKey.ParserAccepts` | src/aiko_gateway/domain/dm_service.py:74-101 | the parser accepts exactly two colon-free 26-character ids after the prefix |
| `DmRuns.OneChannelPerPair` | src/aiko_gateway/domain/dm_service.py:177-283 | over every interleaving of find-or-create calls, joins, removals, leaves and deletions, two answers name one channel exactly when they were given for one unordered pair |
| `DmRuns.MembersWithinPair` | src/aiko_gateway/domain/memberships_service.py:258-263 | the members of an answered channel are for ever a subset of its pair |
| `DmRuns.AnswerAdmitsCaller` | src/aiko_gateway/domain/dm_service.py:199-283 | an answered caller is a member of the answered channel, a channel made for the answer starts with the whole pair, and nobody is removed |
| `DmRuns.NoReinjection` | src/aiko_gateway/domain/dm_service.py:199-219 | a membership in an existing direct message comes back only by that user's own call |
| `DmRuns.FoundIsAnswered` | src/aiko_gateway/domain/dm_service.py:203-215 | a caller whose pair has a channel finds that very channel, and goes on to adopt it |
| `DmRuns.AdoptingAnswers` | src/aiko_gateway/domain/dm_service.py:209-228 | adopting answers with the found channel and adds the caller, and nobody else, to its members |
| `DmRuns.NotFoundIsCreated` | src/aiko_gateway/domain/dm_service.py:230-258 | with no channel for the pair the call goes on to create one, which answers it and starts with exactly the pair |
| `DmRuns.LostRaceLooksAgain` | src/aiko_gateway/domain/dm_service.py:259-282 | a create that lost the race changes nothing and looks again |
| `DmRuns.CollisionRefused` | src/aiko_gateway/domain/dm_service.py:206-214 | a pair's key held by a channel that is no direct message is never adopted: the call ends without an answer and changes nothing |
| `DmRuns.DmDoorsShut` | src/aiko_gateway/domain/memberships_service.py:358-407 | member management cannot add to or remove from a direct message; leaving takes exactly the own row |
| `Echo.EchoSuppressor.Evict` | src/aiko_gateway/domain/echo.py:36-42 | the loop over the keys keeps exactly the unexpired entries and drops empty keys |
| `Echo.EchoSuppressor.MarkSent` | src/aiko_gateway/domain/echo.py:45-53 | a publish appends one expiry to its key after eviction |
| `Echo.EchoSuppressor.IsOwnEcho` | src/aiko_gateway/domain/echo.py:56-72 | an inbound is an echo exactly when an unexpired publish of its key is pending, and consumes the oldest |
| `Echo.StepPending` | src/aiko_gateway/domain/echo.py:36-72 | events of other keys only evict a key's list |
| `Echo.PendingSorted` | src/aiko_gateway/domain/echo.py:45-72 | under a clock that never steps back each pending list is sorted |
| `Echo.FifoIsMatching` | src/aiko_gateway/domain/echo.py:56-72 | FIFO pairs the suppressed inbounds with distinct earlier unexpired publishes |
| `Echo.StaysAhead` | src/aiko_gateway/domain/echo.py:36-72 | the exchange invariant: at every threshold FIFO's suppressions plus remaining publishes are at least any rival's |
| `Echo.FifoIsOptimal` | src/aiko_gateway/domain/echo.py:36-72 | FIFO suppresses at least as many inbounds of each key as any assignment to unexpired publishes |
| `Echo.HitsBoundedByMarks` | src/aiko_gateway/domain/echo.py:56-72 | suppressions never exceed publishes |
| `Echo.EchoWindow` | src/aiko_gateway/domain/echo.py:36-72 | a publish suppresses its echo for thirty seconds, the thirtieth excluded |
| `Fcm.CodeReadByType` | src/aiko_gateway/domain/fcm.py:789-820 | the code is the errorCode of the first FcmError detail, wherever it stands among the details |
| `Fcm.MintRaisesIff` | src/aiko_gateway/domain/fcm.py:493-521 | `classify_mint` raises instead of classifying if and only if a 200 with a usable token claims an infinite lifetime or one too large to add to the clock |
| `Fcm.InfiniteLifetimeRaises` | src/aiko_gateway/domain/fcm.py:509-515 | such a response, with `1e999` |
| `Fcm.OnlyBareDenialIsIslandWide` | src/aiko_gateway/domain/fcm.py:530-552 | a response becomes an island-wide denial exactly on status 403 with PERMISSION_DENIED and no FcmError code |
| `Fcm.GrowClosedForm` | src/aiko_gateway/domain/fcm.py:239-242 | the capped exponent never shows: the window is min(base * 2^(strikes-1), 900) for every strike count |
| `Fcm.GrowMonotone` | src/aiko_gateway/domain/fcm.py:239-242 | windows grow with strikes and stay within their bounds |
| `Fcm.DenialEndsByTimeOnly` | src/aiko_gateway/domain/fcm.py:258-270 | a denial phase is left only by a Tick at or after its deadline |
| `Fcm.StaleRefusalIsInert` | src/aiko_gateway/domain/fcm.py:287-290 | a refused bearer that is not the cached one never clears the cache |
| `Fcm.StrikesMove` | src/aiko_gateway/domain/fcm.py:272-297 | strikes move by counted failures and resetting deliveries and by nothing else |
| `Fcm.MintFailureWindow` | src/aiko_gateway/domain/fcm.py:274-280 | outside a denial a failed mint goes silent until now + min(10 * 2^(strikes-1), 900) for a refused grant, with the strikes after it, and until now + 60 for any other failure |
| `Fcm.DenialWindow` | src/aiko_gateway/domain/fcm.py:281-286 | a counted denial goes silent until now + min(60 * 2^(strikes-1), 900) |
| `Fcm.PhaseMoves` | src/aiko_gateway/domain/fcm.py:245-297 | every phase and event: which moves the phase, to what, and that nothing else moves it or its entry time; a bearer or a mint is refused exactly in the two silent phases |
| `Fcm.SendClassified` | src/aiko_gateway/domain/fcm.py:530-552 | the classification of a send by status and FcmError code: 200 delivers, 401 refuses the bearer used, 429 and 5xx are a blink, three codes are the device alone |
| `Fcm.MintClassified` | src/aiko_gateway/domain/fcm.py:493-521 | the classification of a mint; a cached expiry is the claimed lifetime less 300 seconds, 3300 without a claim, and never before now |
| `Fcm.LifetimeReads` | src/aiko_gateway/domain/fcm.py:509-515 | how a claimed lifetime of each JSON kind is read as an integer: truncation toward zero, booleans as 0 and 1, the kinds that are caught and the one that is not |
| `Fcm.NoDetailNoCode` | src/aiko_gateway/domain/fcm.py:789-820 | without an FcmError detail there is no code |
| `FcmRuns.Orchestrator.AccessToken` | src/aiko_gateway/domain/fcm.py:597-618 | the entry of a send ticks, reads the state once and starts a mint only when none is in flight |
| `FcmRuns.Orchestrator.MintLands` | src/aiko_gateway/domain/fcm.py:555-594 | a finished mint feeds exactly its classified event to the one writer, and none when classifying raised; then every waiter goes without |
| `FcmRuns.Orchestrator.ResumeAfterMint` | src/aiko_gateway/domain/fcm.py:619-630 | a waiter reads the state, not the mint's return value |
| `FcmRuns.Orchestrator.SendLands` | src/aiko_gateway/domain/fcm.py:886-951 | a finished send feeds exactly its classified event to the one writer |
| `FcmRuns.SingleFlight` | src/aiko_gateway/domain/fcm.py:597-618 | at most one mint is in flight in every run |
| `FcmRuns.SilentUntilDeadline` | src/aiko_gateway/domain/fcm.py:245-326 | until its deadline a counted denial hands out no bearer whatever arrives, a landing mint included |
| `FcmRuns.OneStrikePerRing` | src/aiko_gateway/domain/fcm.py:281-286 | a later denial counts only if its send began at or after the earlier deadline, so one ring's concurrent refusals cost one strike |
| `FcmRuns.StrikesAreSpaced` | src/aiko_gateway/domain/fcm.py:239-286 | counted denials are at least a minute apart: a span of T seconds holds at most T/60 + 1 |
| `FcmRuns.StrikesCountFailures` | src/aiko_gateway/domain/fcm.py:272-294 | strikes equal the failures counted since the last resetting delivery, in every run |
| `FcmRuns.WindowsNeverShrink` | src/aiko_gateway/domain/fcm.py:239-286 | without a resetting delivery later denial windows are never shorter, and each is min(60 * 2^(strikes-1), 900) |
| `FcmRuns.BearersAreMinted` | src/aiko_gateway/domain/fcm.py:245-326 | in every run a cached bearer is the token of an earlier mint and has since been neither refused nor replaced |
| `FcmRuns.CallUsesTheCache` | src/aiko_gateway/domain/fcm.py:597-610 | a send that enters with a token cached is given it exactly while it is unexpired, and otherwise waits for a mint |
| `FcmRuns.MintServesWaiters` | src/aiko_gateway/domain/fcm.py:555-630 | a mint that lands outside a denial window serves every waiter with its token |
| `FcmRuns.NoMintUntilDeadline` | src/aiko_gateway/domain/fcm.py:245-326 | over every run: from a counted mint failure to its deadline no mint starts and no bearer is handed out, whatever arrives; a denial counted meanwhile stays silent at least as long |
| `FcmRuns.BackoffEndsBy` | src/aiko_gateway/domain/fcm.py:258-286 | a backoff phase ends only by a call at or after its deadline or by a counted denial |
| `FcmRuns.CallAfterDeadlineMints` | src/aiko_gateway/domain/fcm.py:597-618 | a call once the deadline or expiry has passed does mint, joining the mint in flight if there is one |
| `FcmRuns.SendsMove` | src/aiko_gateway/domain/fcm.py:597-630 | sends are started only with the cached bearer, stamped now, and each answer takes exactly its own send |
| `FcmRuns.MintWakes` | src/aiko_gateway/domain/fcm.py:555-630 | a landed mint wakes every waiter, and none when classifying raised; a transport failure leaves the state, a credential that does not sign is a failed mint |
| `FcmRuns.SendFeeds` | src/aiko_gateway/domain/fcm.py:886-951 | a send's answer is classified with the bearer and start time of that very send; a transport failure leaves the state |
| `Bytes.Utf8Injective` | src/aiko_gateway/domain/actuation.py:166-173 | UTF-8 encoding (RFC 3629) is injective on all code point strings |
| `Bytes.Utf8Bits` | src/aiko_gateway/domain/actuation.py:166-173 | the length, lead and continuation bytes of a code point are those of RFC 3629, and its bits read back |
| `Bytes.BigEndianRoundTrip` | src/aiko_gateway/domain/actuation.py:163-173 | reading back a fixed-width big-endian field gives the number |
| `Bytes.PackPrefixFree` | src/aiko_gateway/domain/actuation.py:163-164 | a length-prefixed or fixed-width part can be read off the front of a byte string in one way only |
| `SignedBytes.BytesDetermine` | src/aiko_gateway/domain/actuation.py:153-173 | CANONICAL BYTES: two signable messages, reactions, actuations or manifests have equal signing bytes if and only if they are the same value, up to an absent `reply_to` and an empty one |
| `SignedBytes.ActuationLayout` | src/aiko_gateway/domain/actuation.py:153-173 | the signed bytes of a command, field by field, with the literal domain tag |
| `SignedBytes.ManifestLayout` | src/aiko_gateway/domain/island_identity.py:135-161 | the signed bytes of a manifest, field by field, with the literal domain tag |
| `SignedBytes.MessageLayout` | src/aiko_gateway/domain/signing.py:196-217 | the signed bytes of a message, field by field, with the literal domain tag and an absent `reply_to` as empty |
| `SignedBytes.ReactionLayout` | src/aiko_gateway/domain/signing.py:220-250 | the signed bytes of a reaction, field by field, with the literal domain tag |
| `SignedBytes.SignableIff` | src/aiko_gateway/domain/signing.py:196-250 | the bytes exist if and only if every text encodes and every field fits its width |
| `SignedBytes.DomainsDisjoint` | src/aiko_gateway/domain/island_identity.py:135-161 | signing bytes of different domains never coincide |
| `Multikey.AlphabetSpelled` | src/aiko_gateway/domain/signing.py:84-85 | the arithmetic form of the alphabet is the literal one, character by character |
| `Multikey.EncodeBase58` | src/aiko_gateway/domain/signing.py:108-119 | the base58 encoding loop, and that decoding its result gives the bytes back |
| `Multikey.DecodeBase58` | src/aiko_gateway/domain/signing.py:93-105 | the base58 decoding loop, and that encoding its result gives the text back |
| `Multikey.ConvertBack` | src/aiko_gateway/domain/signing.py:93-119 | base conversion with leading zeros kept one for one is undone by the converse conversion, for all digit lists and bases |
| `Multikey.KeyRoundTrip` | src/aiko_gateway/domain/signing.py:122-150 | every 32-byte key survives the Multikey text form |
| `Multikey.OneSpelling` | src/aiko_gateway/domain/signing.py:133-150 | a key has exactly one accepted spelling |
| `Multikey.KeyTextExact` | src/aiko_gateway/domain/signing.py:122-150 | a text is accepted as a key, and is what encoding that key gives, if and only if the key has 32 bytes and the text is `z` and the base58 of 0xed01 and the key |
| `Wire.LawfulSchemeExists` | src/aiko_gateway/domain/signing.py:153-193 | the laws assumed of the signature scheme and the strict decoder are consistent |
| `Manifest.VerifyExact` | src/aiko_gateway/domain/island_identity.py:240-317 | verification answers True on exactly the envelopes of bounded, encodable tuples, in canonical spelling, whose signature fits their canonical bytes |
| `Manifest.VerifyAnswersFalse` | src/aiko_gateway/domain/island_identity.py:240-317 | verification answers False on exactly the well-formed envelopes whose signature does not fit, and so raises on all others |
| `Manifest.BuiltVerifies` | src/aiko_gateway/domain/island_identity.py:208-237 | building succeeds exactly on a valid tuple without lone surrogates and a 32-byte seed, and what it builds verifies (what it holds: `Manifest.BuiltCarries`) |
| `Manifest.BuiltCarries` | src/aiko_gateway/domain/island_identity.py:208-237 | a built manifest holds exactly the six arguments in their fields, the text of the public key of the seed, and the signature of that very tuple |
| `Manifest.BuiltIsAdmitted` | src/aiko_gateway/domain/island_identity.py:208-434 | END TO END: a built manifest is admitted under exactly the mode it was built with if and only if its stamp is in the window |
| `Manifest.TamperEvident` | src/aiko_gateway/domain/island_identity.py:240-317 | two different manifests under one key and one signature both verify only if that signature fits two different byte strings under that key |
| `Manifest.EscapesIff` | src/aiko_gateway/domain/island_identity.py:294-317 | a manifest is reported otherwise than by IslandIdentityError if and only if it is well-formed but for a lone surrogate in a signed text |
| `Manifest.SurrogateEscapes` | src/aiko_gateway/domain/island_identity.py:294-317 | such manifests exist under every lawful signature scheme |
| `Manifest.AdmitExact` | src/aiko_gateway/domain/island_identity.py:375-434 | a mode is admitted exactly for a genuine manifest whose stamp lies in the window, and no knob widens the window past five minutes old and one minute ahead |
| `Manifest.AdmitFails` | src/aiko_gateway/domain/island_identity.py:375-434 | knobs past the bounds are refused before the manifest is looked at; malformed manifests raise, forged ones are answered None, and unusable clocks or knobs raise |
| `Manifest.ReplayWindow` | src/aiko_gateway/domain/island_identity.py:320-434 | two admissions of one manifest are at most six minutes apart |
| `Actuation.VerifyExact` | src/aiko_gateway/domain/actuation.py:176-329 | an envelope is accepted as a command exactly when it is the canonical spelling of that bounded, encodable command, signed over its canonical bytes by an allowlisted key, and addressed, commanded and timed as the policy allows |
| `Actuation.TamperEvident` | src/aiko_gateway/domain/actuation.py:153-329 | one key and signature accepted for two different commands: that signature fits two different byte strings under that key |
| `Bytes.JoinedIsSameIff` | src/aiko_gateway/domain/actuation.py:434-438 | a string comes back from a JSON file unchanged exactly when it holds no surrogate pair, and shorter otherwise |
| `Bytes.JoinedPair` | src/aiko_gateway/domain/actuation.py:434-438 | a surrogate pair is read back as the one code point it stands for, any other two as they are |
| `Actuation.LoadsIff` | src/aiko_gateway/domain/actuation.py:353-389 | dumped marks are accepted on reload exactly when every id, as read back, is within the cap |
| `Actuation.LoadOfDump` | src/aiko_gateway/domain/actuation.py:353-389 | dumped marks come back unchanged exactly when they are within the loader's bounds and no id holds a surrogate pair |
| `Actuation.LoadExact` | src/aiko_gateway/domain/actuation.py:353-389 | FAIL CLOSED: a start succeeds with given marks if and only if the store is missing and they are empty, or it holds exactly them, ids of 1 to 128 characters and integers in [0, 2^53 - 1]; every other disk, an unparsable one included, refuses the start |
| `Actuation.LoadMarks` | src/aiko_gateway/domain/actuation.py:366-389 | the loading loop takes the whole store or refuses to start |
| `Actuation.AdvanceExact` | src/aiko_gateway/domain/actuation.py:391-421 | a number is admitted if and only if it is in range, above the mark and committed; then the mark and the disk are it, and otherwise both are as they were |
| `Actuation.SeqHighWater.CheckAndAdvance` | src/aiko_gateway/domain/actuation.py:391-421 | memory first, then disk, with rollback: the marks and the file end as specified |
| `Actuation.DoorExact` | src/aiko_gateway/domain/actuation.py:457-530 | the sealed door opens exactly for a verified command above the mark whose commit succeeded; a closed door changes nothing, an open one leaves a store that reloads as is |
| `Actuation.DirectAdvanceReloads` | src/aiko_gateway/domain/actuation.py:391-421 | called directly, the primitive commits a store that is accepted on reload if and only if the id as read back is within 128 characters, and that reads as written if and only if moreover it holds no surrogate pair |
| `Actuation.PairedIdLosesItsMark` | src/aiko_gateway/domain/actuation.py:391-421 | an id made of a surrogate pair, advanced directly, is admitted again with the same number after a restart |
| `Actuation.OverlongIdBlocksRestart` | src/aiko_gateway/domain/actuation.py:399-421 | a 129-character id advanced directly makes the next start refuse |
| `ActuationRuns.AtMostOnce` | src/aiko_gateway/domain/actuation.py:391-455 | over every run of concurrent calls, failed writes, crashes on either side of the replace, and restarts, the numbers admitted for a robot strictly increase and no command is actuated twice or unadmitted |
| `ActuationRuns.RestartRejectsReplays` | src/aiko_gateway/domain/actuation.py:353-389 | whatever crashed where, the store loads and covers everything ever admitted |
| `ActuationRuns.MemoryIsDisk` | src/aiko_gateway/domain/actuation.py:404-421 | outside the critical section the marks are what a restart would load |
| `ActuationRuns.RefusalIsInert` | src/aiko_gateway/domain/actuation.py:404-421 | a refusal or failed write gives memory and disk back as they were |
| `ActuationRuns.PassIsAdvance` | src/aiko_gateway/domain/actuation.py:391-421 | one caller's uninterrupted pass through the critical section is the one-step advance |
| `ActuationRuns.CallRuns` | src/aiko_gateway/domain/actuation.py:391-455 | a whole uninterrupted call: carried out, recorded and on disk when its number is above the mark, and otherwise as if never made |
| `ActuationRuns.NothingLost` | src/aiko_gateway/domain/actuation.py:404-455 | over every run, from its admission to the next crash a command is carried out or on its way to the bridge |
| `ActuationRuns.StepKeepsStore` | src/aiko_gateway/domain/actuation.py:404-455 | every step keeps the store readable and memory in step with it |
| `ActuationRuns.StepKeepsRecord` | src/aiko_gateway/domain/actuation.py:404-455 | every step keeps admissions increasing and below the stored marks |
| `WorkerGuard.AtMostOneWorker` | src/aiko_gateway/worker_guard.py:142-223 | in every run of spawns, forks, acquires, releases and crashes at most one live process counts itself as holder |
| `WorkerGuard.OwnAcquireNeeded` | src/aiko_gateway/worker_guard.py:153-160 | no process, a forked child included, is ever holder without an earlier successful acquire of its own |
| `WorkerGuard.NoStaleLock` | src/aiko_gateway/worker_guard.py:210-223 | the lock is owned only while some live process has its description open |
| `WorkerGuard.InheritedDescriptorKeepsLock` | src/aiko_gateway/worker_guard.py:155-161 | a run in which the parent's release leaves the lock owned through a forked child's inherited descriptor |
| `WorkerGuard.ReleaseFrees` | src/aiko_gateway/worker_guard.py:210-223 | over every run: a release by the holder frees the lock unless some process still has the description open, and leaves no holder |
| `WorkerGuard.AcquireTakes` | src/aiko_gateway/worker_guard.py:142-207 | a process holds after an acquire exactly if it did before or open and lock both succeeded; then it owns the lock through the new descriptor, and a failed one leaks none |
| `WorkerGuard.ActionKeeps` | src/aiko_gateway/worker_guard.py:142-223 | every action keeps the invariant, and only a process's own successful acquire makes it a holder |
| `WorkerGuard.Worker.Acquire` | src/aiko_gateway/worker_guard.py:142-207 | acquire updates the two globals and the descriptor table as specified and returns exactly when the process then holds |
| `WorkerGuard.Worker.Release` | src/aiko_gateway/worker_guard.py:210-223 | release closes the descriptor only in the process that took the lock and forgets both globals |

## Left out

- REST and WebSocket routes, live fan-out, sockets, rate limits, sessions, OAuth, passkeys, handoff and nonces: plumbing and single guarded updates.
- The readability check on channels (`acl.py`), bans, report reasons, `can_post`, mention spans, reactions, device tokens, signing-key bindings and recovery rows: other tables handled by one statement each.
- Postgres row locks: only the single-writer SQLite reading is modelled.
- `Session.Session.ReceiveFromBus`: a username shared by several accounts, which the unique column excludes, is read as no account; an IntegrityError on this path is answered like a dropped message.
- base64: cursors, seeds and signatures are modelled as the text or bytes they carry; the strict decoder is a parameter whose law is that it accepts exactly canonical texts.
- `Directory.Walk`: works on a fixed store; the code documents that the members sort is a live feed. The name search and the category are an arbitrary filter, and an unknown sort name is taken as members beforehand.
- `Multikey.EncodeBase58`: takes `int.from_bytes` and `int.to_bytes` as given functions; the OriginError paths are in `Multikey.EncodeKey` and `Multikey.DecodeKey`.
- `ActuationRuns.AtMostOnce`: treats `os.replace` as durable and models OSError as the only failure of a write. Commands of different threads may be carried out in another order than they were admitted.
- `Actuation.Dump`: when two ids in memory are read back as one, which of their marks wins depends on an order the model does not record and is left open.
- `WorkerGuard.AtMostOneWorker`: assumes that pids are not reused and that all processes share one lock path without the multi-worker override; the choice of the path is not modelled.
- `FcmRuns.SilentUntilDeadline`: clock readings never step back, and the deadlines and expiries are exact reals.
- `Convergence.TakedownsConverge`: one viewer and one channel at a time.
- `apns.py`, LiveKit, the OAuth broker, building FCM messages and the per-device verdicts: network clients.
- `config.py`, `main.py`, `migrate.py`, `db.py`, alembic and the scripts: settings and database tooling.
