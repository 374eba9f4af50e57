# OxPulse Chat, modelled and proved in Dafny

OxPulse Chat is a two-party video call service. This project models the parts of it that decide
something: how two browsers negotiate a call, how the signalling server keeps rooms and relays
messages, how migrations are cut into statements, how callers are limited, which TURN servers a
client is given, and how partner nodes are registered. Verify it with `dafny verify dfyconfig.toml`.

| part | files |
|---|---|
| negotiation between two peers | `Negotiation`, `OfferFlags`, `CallHistories`, `CallAgreement`, `CrossedOffers`, `PolitePeers`, `MixUps`, `VerificationEmoji` |
| signalling rooms, sessions, cleanup, relay | `RoomCounter`, `Rooms`, `Sessions`, `SessionProofs`, `SessionLaws`, `SessionHistory`, `RoomRoles`, `CallReports`, `CallEnds`, `CallSafety`, `Relay` |
| SQL statement splitter | `Strings`, `SqlLexer`, `SqlGrammar`, `SqlSplitter`, `SqlLaws`, `SqlFixpoints` |
| sliding-window limiters | `HitLog`, `JoinLimiter`, `PartnerLimiter` |
| TURN configuration, pool, probing, credentials | `Options`, `TurnConfig`, `StableSort`, `TurnPool`, `TurnProbe`, `TurnHistories`, `TurnCredentials`, `TurnResponse` |
| partner registration | `PartnerTables`, `PartnerHistory`, `PartnerLaws`, `PartnerStories`, `PartnerExact` |

Code that changes state is a class or a method with loops, proved equal to a specification
function; the laws are then lemmas about those functions over every input or every run. Concurrent
code is a state machine over its steps: a *run* is a sequence of states and the actions between
them, and the laws hold of every state of every run.

Where the code does something other than a reader would expect, the code is kept and the difference
is proved:

- `makeOffer` may run at any time, and then two peers need not agree. For an impolite and a polite peer
  they do if and only if nobody replaced, by sending or by accepting another, an offer that was answered
  (`AgreementIsExact`). If no earlier call has left `isSettingRemoteAnswerPending` raised on the impolite
  side, sending every offer from the stable state is enough (`PeersAgree`). `ReofferMixesUp`,
  `OverlappingOffersMixUp` and `PoliteOffersMixUp` are runs that go wrong, on either side; in them a
  stale answer makes `setRemoteDescription` throw past web/src/lib/webrtc.ts:216, so that flag stays
  raised. A peer keeps its flags when the other leaves and a new one comes; with the flag raised, the
  impolite side gives way to a crossed offer, and two offers sent from the stable state part the peers
  (`RaisedFlagPartsPeers`).
- The first peer of a room makes its first offer when nobody is there to hear it, and `PeerJoined`
  (web/src/lib/useCall.svelte.ts:175-178) makes it offer again. All results about negotiation hold from
  there (`Start`, `LonelyPeersStart`), and for a peer that stayed behind from an earlier call, whatever
  that left of its flags (`PeersLeftBehindStart`); two newly created peers are a special case
  (`FreshPeersStart`).
- The first participant is documented to be impolite (crates/signaling/src/rooms.rs:65). A peer is
  impolite if and only if it found the room empty (`RoleIsFixedOnJoining`); so when a room's first
  visitor leaves and a third comes, both peers are polite (`TwoPolitePeers`, `OneImpoliteExactly`). Each
  then gives way to the other, so crossed offers part them for good (`PolitePeersPartWays`); they agree
  if and only if neither sends or accepts an offer while awaiting an answer
  (`PoliteAgreementIsExact`).
- The end of a call is reported after the session has left, and looked up by the room's name. It is
  charged to the session's own incarnation of the room if and only if the room has stood all the while
  (`ChargedExactly`, `ReportedExactly`, `LateReportEndsTheNextCall`).
- The 8-bit room counter is right if and only if the peers inside and the rejected joins in progress are
  together fewer than 256 (`SafeExactlyWithin`). With two peers inside, 254 rejections wrap it and let a
  third one in (`OneMoreRejectionWraps`).
- The second look of the room cleanup asks only whether the room is empty, not how long it has been.
  What it removes had been empty for more than 600 seconds if and only if nobody joined after the
  cleanup collected it (`EvictionExact`, `InterruptedCleanupIsEarly`).
- Comments are deleted with nothing in their place, so their neighbours can join up to a new comment
  (`CommentsCanJoinNeighbours`). A statement splits to itself if and only if the piece it comes from, without its
  comments, reads as having none and no terminator (`FixedExactly`, `AllFixedExactly`).
- The sweep of the partner limiter is documented to remove addresses whose times have all expired
  (crates/server/src/partner_registry/rate_limit.rs:7-8). It looks for empty lists, and no list is
  ever empty, so it removes nothing; the size cap therefore counts every address since the last
  clear (`JanitorRemovesNothing`, `AddressesAreNeverForgotten`).
- A probe threshold of 0 acts like 1, and a wrap of the 32-bit failure counter never changes a flag
  (`HealthFollowsHistory`).
- A URL that is listed twice makes the counts of a reload meaningless (`RepeatedUrlsMiscount`);
  `CountsOfAnyReload` says exactly when each reading of them is right.

## Model

| member | source | states |
|---|---|---|
| `Negotiation.Call.BeginOffer` | web/src/lib/webrtc.ts:157-159 | starting makeOffer raises the flag and does nothing else |
| `Negotiation.Call.CommitOffer` | web/src/lib/webrtc.ts:160-166 | the local description becomes a new offer, it is sent, and the flag is lowered even if another call is under way |
| `Negotiation.Call.SetRemoteDescription` | web/src/lib/webrtc.ts:215 | an answer needs an outstanding local offer, else it throws; an offer rolls an outstanding local offer back |
| `Negotiation.Call.HandleSignal` | web/src/lib/webrtc.ts:204-223 | the collision rule: which descriptions are dropped, applied, answered, and what the three flags are afterwards |
| `OfferFlags.MakingIsLastBegin` | web/src/lib/webrtc.ts:157-166 | at every point of every run a side's `makingOffer` is raised if and only if the last thing it did about offers was to begin one; before it did any, as it was at the start |
| `OfferFlags.OffersAnsweredExactly` | web/src/lib/webrtc.ts:204-223 | a delivered offer is answered in that step if and only if the peer is polite, or its last begin or send was a send and it is stable or has its stale-answer flag raised |
| `OfferFlags.SettingIsStaleAnswer` | web/src/lib/webrtc.ts:213-216 | `isSettingRemoteAnswerPending` is raised if and only if the last message that was not dropped was an answer nobody waited for |
| `OfferFlags.IgnoreIsLastDropped` | web/src/lib/webrtc.ts:211-212 | `ignoreOffer` is raised if and only if the last delivered message was dropped |
| `OfferFlags.WaitingIsLastCommit` | web/src/lib/webrtc.ts:160-215 | a peer waits with an offer if and only if it has sent one since it last took a message |
| `OfferFlags.PendingIsLastSent` | web/src/lib/webrtc.ts:160-162 | and that offer is the last one it sent |
| `OfferFlags.AgreedGrowsExactly` | web/src/lib/webrtc.ts:204-223 | a side settles on something in exactly two ways: by answering an offer, or when an answer reaches it while it waits |
| `Negotiation.StepKeepsNoGlare` | web/src/lib/webrtc.ts:157-223 | every begin, commit and delivery keeps: an outstanding offer is still under way, or a message is that will release it, or the impolite side is about to send its own |
| `Negotiation.StepKeepsOpening` | web/src/lib/useCall.svelte.ts:175-178 | while the first peer waits with an offer nobody heard, every step keeps it about to make another, until it sends one or accepts one |
| `Negotiation.LonelyPeersStart` | web/src/lib/webrtc.ts:157-169 | whatever offers a peer made alone in a room, answering `PeerJoined` brings it to a state from which the results below hold |
| `Negotiation.PeersLeftBehindStart` | web/src/lib/useCall.svelte.ts:175-178 | so does a peer that stays behind when the other leaves, in whatever state their call has left it |
| `Negotiation.QuiescentIsStable` | web/src/lib/webrtc.ts:157-223 | at most one impolite peer: from every start of a call, lost first offers and flags left raised by earlier calls included, under every interleaving, with offers begun at any moment, whenever nothing is under way both peers are in the stable state |
| `Negotiation.StepsUseUpWork` | web/src/lib/webrtc.ts:157-223 | negotiation terminates: every step but starting an offer uses up a measure of remaining work, and a step is possible until the system is quiescent |
| `Negotiation.ImpolitePeersDeadlock` | web/src/lib/webrtc.ts:208-212 | a run of two impolite peers that waits for ever with both offers outstanding |
| `CallHistories.StepKeepsParted` | web/src/lib/webrtc.ts:204-223 | once the two sides are bound to record different offers under one number, every further step keeps them so |
| `CallHistories.PartedDiffers` | web/src/lib/webrtc.ts:204-223 | and in a quiescent state their histories then differ |
| `CallAgreement.StepKeepsSound` | web/src/lib/webrtc.ts:157-223 | steps that replace no answered offer keep: both sides have the same agreements, or one is exactly one ahead and the matching answer is under way |
| `CallAgreement.UncleanParts` | web/src/lib/webrtc.ts:157-223 | any other step binds the two sides to different agreements and an answer to the wrong offer |
| `CallAgreement.AgreementIsExact` | web/src/lib/webrtc.ts:157-223 | one impolite, one polite, every run from every start: in a quiescent state both have settled the same offer and answer pairs in the same order if and only if nobody replaced an offer that was answered; and, with no flag left raised by an earlier call, that if and only if no answer was applied to another offer than its own |
| `CallAgreement.LoweredFlagNeverYields` | web/src/lib/webrtc.ts:206-216 | with no flag left raised by an earlier call, while nobody replaces an answered offer the impolite side accepts nothing as long as it awaits an answer |
| `CallAgreement.ImpoliteOffersDecide` | web/src/lib/webrtc.ts:157-223 | if the polite side offers only from stable: both agree if and only if the impolite side neither sent nor accepted an offer while awaiting an answer; with no flag left raised, if and only if it sent none then, which is exactly when its answers all matched |
| `CallAgreement.PeersAgree` | web/src/lib/webrtc.ts:157-223 | with every offer sent from stable and no flag left raised by an earlier call, both hold the same pairs in every quiescent state, and no answer to a rolled-back offer is ever applied |
| `CrossedOffers.CrossedOffersResolve` | web/src/lib/webrtc.ts:208-223 | after a crossing, while nobody replaces an answered offer, in every later quiescent state the next agreement of both sides is the impolite peer's offer, and the polite peer's offer is never agreed on by anyone |
| `PolitePeers.AnyStep` | web/src/lib/webrtc.ts:204-223 | two polite peers: a step is orderly and keeps their agreements level, or it parts them for good |
| `PolitePeers.PoliteAgreementIsExact` | web/src/lib/webrtc.ts:204-223 | two polite peers, every run from every start: in a quiescent state they agree if and only if neither ever sent or accepted an offer while awaiting the answer to its own |
| `MixUps.ReofferMixesUp` | web/src/lib/webrtc.ts:157-190 | a run in which a second offer before the first answer ends quiescent with different agreements, whoever is polite |
| `MixUps.OverlappingOffersMixUp` | web/src/lib/webrtc.ts:157-190 | a run in which two offers begun from stable overlap, with the same result |
| `MixUps.PoliteOffersMixUp` | web/src/lib/webrtc.ts:157-190 | runs in which only the polite side offers, again or overlapping, with the same result |
| `MixUps.RaisedFlagPartsPeers` | web/src/lib/webrtc.ts:206-216 | a call that leaves the flag raised, and then a run with a new polite peer in which each side sends one offer, from stable, and they end up with different agreements |
| `MixUps.PolitePeersPartWays` | web/src/lib/webrtc.ts:204-223 | a run of two polite peers whose offers, each begun from stable and alone, cross: it ends quiescent and stable with each settled on the other's offer |
| `VerificationEmoji.GetVerificationEmoji` | web/src/lib/webrtc.ts:295-307 | the loop in wrapping 32-bit arithmetic gives the four base-16 digits of the polynomial sum modulo 65536, every table index in bounds, and the empty code for a missing fingerprint |
| `VerificationEmoji.PolynomialSnoc` | web/src/lib/webrtc.ts:300-302 | the sum of c_i * 31^(n-1-i) obeys Horner's rule |
| `VerificationEmoji.RoundIsHorner` | web/src/lib/webrtc.ts:301 | one round with shift, subtraction and truncation is one Horner step modulo 2^32 |
| `VerificationEmoji.NibbleIsDigit` | web/src/lib/webrtc.ts:304-306 | shifting and masking the signed hash reads the digits of the sum modulo 65536 |
| `VerificationEmoji.DigitsMakeTheNumber` | web/src/lib/webrtc.ts:304-306 | the four digits determine the number they came from |
| `VerificationEmoji.BothSidesSeeTheSameCode` | web/src/lib/webrtc.ts:296-297 | swapping the local and the remote fingerprint gives the same code |
| `VerificationEmoji.CodeIsTheSum` | web/src/lib/webrtc.ts:295-307 | on both sides the code is that of P(a) * 31^(n+1) + 58 * 31^n + P(b) modulo 65536, with a the lesser fingerprint (one of them always is, `EitherIsLesser`) and n the length of b |
| `VerificationEmoji.BeforeIsLesser` | web/src/lib/webrtc.ts:297 | the lesser fingerprint has the smaller code unit at the first difference, or ends first |
| `VerificationEmoji.CodeNeedsBoth` | web/src/lib/webrtc.ts:293-295 | the code is empty if and only if a fingerprint is missing |
| `VerificationEmoji.CodesDiffer` | web/src/lib/webrtc.ts:289-306 | the four emoji tell all numbers below 65536 apart, so each digit counts at its place |
| `RoomCounter.StepKeepsInv` | crates/signaling/src/rooms.rs:85-107 | each single atomic operation keeps the counter equal to admitted peers plus rejections in progress |
| `RoomCounter.SafeExactlyWithin` | crates/signaling/src/rooms.rs:85-107 | all along a run the counter equals admitted peers plus rejections in progress without wrapping, with at most two peers inside, at most one impolite, and distinct ids, if and only if all along the run those peers and rejections are fewer than 256 |
| `RoomCounter.BoundedRunsAreSafe` | crates/signaling/src/rooms.rs:85-107 | with at most 253 rejections in progress: the counter never wraps, at most two peers are inside, at most one is impolite, all peer ids are distinct |
| `RoomCounter.OneMoreRejectionWraps` | crates/signaling/src/rooms.rs:85-89 | a run with two peers inside and 254 rejections in progress that admits a third peer as a second impolite one |
| `Rooms.RoomRegistry.Join` | crates/signaling/src/rooms.rs:66-101 | a full room refuses and is left as it was; else the room is opened if need be, its emptiness ends, and role and peer id are handed out |
| `Rooms.RoomRegistry.Leave` | crates/signaling/src/rooms.rs:105-113 | one off the count, and the time recorded when that empties the room |
| `Rooms.RoomRegistry.MarkConnected` | crates/signaling/src/rooms.rs:115-122 | only the first call records a time |
| `Rooms.RoomRegistry.TryMarkEnded` | crates/signaling/src/rooms.rs:133-138 | true for the first call on a room that exists |
| `Rooms.RoomRegistry.Collect` | crates/signaling/src/room_cleanup.rs:39-46 | lists exactly the rooms empty for more than 600 seconds, each once |
| `Rooms.RoomRegistry.RemoveStillEmpty` | crates/signaling/src/room_cleanup.rs:47-58 | removes those of the listed rooms whose count is zero, and lowers the gauge for each |
| `Rooms.RoomRegistry.CleanupExpired` | crates/signaling/src/room_cleanup.rs:38-59 | undisturbed, it removes exactly the overdue rooms |
| `SessionProofs.RunsAreGood` | crates/signaling/src/handler.rs:90-230 | in every reachable state: a room's count is its sessions inside, at most two, at most one impolite; `empty_since` is zero exactly when it is occupied; the gauge is the number of rooms; connects equal disconnects plus live sessions; no session reports both outcomes; a room is marked as ended exactly when the end of its call was reported, once for an incarnation |
| `SessionProofs.StepKeepsOccupancy` | crates/signaling/src/rooms.rs:66-113 | every step of a session or of the cleanup keeps counts, roles, dates and the gauge right |
| `SessionProofs.LeaveNeverUnderflows` | crates/signaling/src/rooms.rs:105-113 | a leaving session's room is there with a count of at least one |
| `SessionLaws.EveryLeaveFindsItsRoom` | crates/signaling/src/handler.rs:141-196 | in every run, on both exit paths, a leaving session finds the very incarnation it joined, takes one off its count, and has then left exactly once |
| `SessionLaws.GoneSessionsAreSettled` | crates/signaling/src/handler.rs:90-230 | in every run a session that is gone has left as often as it was admitted and reported at most one of join-ok and join-err |
| `SessionHistory.CountedExactly` | crates/signaling/src/handler.rs:118-196 | in every run a session is counted as let in, gone out, joined or failed if and only if that has happened to it, and once; a join fails exactly when two sessions are inside |
| `SessionHistory.GoneSessionsWereAnswered` | crates/signaling/src/handler.rs:90-151 | of a session that is gone exactly one outcome was reported if it was accepted, and none if it was refused |
| `SessionHistory.SessionsGoOn` | crates/signaling/src/handler.rs:90-230 | a session that is not gone always has a next step |
| `SessionHistory.PeerIdsDiffer` | crates/signaling/src/rooms.rs:91-101 | of two sessions let into one incarnation of a room the later one gets the greater peer id |
| `SessionLaws.EmptinessIsDated` | crates/signaling/src/rooms.rs:91-112 | after every step of every run `empty_since` is zero while somebody is inside, the time of the step that emptied the room, and unchanged while it stays empty |
| `SessionLaws.EvictionExact` | crates/signaling/src/room_cleanup.rs:47-58 | in every run no occupied room is removed; a removed room had been empty for more than 600 seconds if and only if nobody joined it after it was collected |
| `SessionHistory.EarlyExactly` | crates/signaling/src/room_cleanup.rs:38-59 | the same told from the events: a removed room had been empty for more than 600 seconds at the collection if and only if the events since show nobody let into it |
| `SessionLaws.UninterruptedCleanupIsExact` | crates/signaling/src/room_cleanup.rs:38-59 | in every reachable state an uninterrupted cleanup removes exactly the rooms that are empty for more than 600 seconds, so the first such cleanup removes a room and no earlier one does |
| `SessionLaws.InterruptedCleanupIsEarly` | crates/signaling/src/room_cleanup.rs:41-56 | a run in which a room that has just become empty is removed |
| `RoomRoles.SecondIsPolite` | crates/signaling/src/rooms.rs:85-100 | in every run, of two sessions in one room the one that came second is polite |
| `RoomRoles.OneCameFirst` | crates/signaling/src/rooms.rs:66-113 | and of any two sessions in one room one came first |
| `RoomRoles.RoleIsFixedOnJoining` | crates/signaling/src/rooms.rs:85-100 | in every run whoever a room lets in is impolite if and only if it finds nobody there, and stays so |
| `RoomRoles.OneImpoliteExactly` | crates/signaling/src/rooms.rs:64-100 | of two sessions in one room exactly one is impolite if and only if the one that came first had found the room empty; else both are polite |
| `RoomRoles.TwoWereLetIn` | crates/signaling/src/rooms.rs:66-113 | any two sessions in one room came so, in one order or the other |
| `RoomRoles.TwoPolitePeers` | crates/signaling/src/rooms.rs:85-100 | a reachable state with two polite sessions in one room |
| `CallReports.ChargedExactly` | crates/signaling/src/handler.rs:195-213 | in every run the end of a call is charged to the incarnation the session was in if and only if the room has stood all the while since the session left it |
| `CallEnds.DatedExactly` | crates/signaling/src/rooms.rs:115-131 | in every run a room's call is dated if and only if a polite session has begun to relay in this very incarnation of the room |
| `CallEnds.DatedByTheFirst` | crates/signaling/src/rooms.rs:115-122 | and its date is the time at which the first one did |
| `CallEnds.ReportedExactly` | crates/signaling/src/handler.rs:182-214 | a session that has stopped ends a call by its report if and only if a polite session had begun to relay in its incarnation before it stopped, and the room that stands under the name at the report was not reported before |
| `CallEnds.OnlyCallsAreReported` | crates/signaling/src/handler.rs:195-214 | the end of a call is reported at no other step of any run |
| `CallReports.LateReportEndsTheNextCall` | crates/signaling/src/handler.rs:195-213 | a reachable state in which a late report ends the call of the next incarnation |
| `CallSafety.PeersInARoomSettle` | crates/signaling/src/handler.rs:128-193 | any two peers that meet in a room hold roles with which every run of their negotiation is free of glare deadlock, and comes to rest once no more offers are started, lost first offers and flags from earlier calls included |
| `CallSafety.PeersInARoomAgreeExactly` | crates/signaling/src/handler.rs:128-193 | and they agree in a quiescent state exactly under the condition for an impolite and a polite peer if the room was empty when it let the first of them in, else under the condition for two polite peers |
| `Relay.SendHolds` | crates/signaling/src/rooms.rs:73 | a send keeps the ring equal to the last 64 messages of the log |
| `Relay.ReceiveExact` | crates/signaling/src/handler.rs:168 | a receiver gets exactly its next message when at most 64 behind, and a lag error otherwise |
| `Relay.ForwardsAGapFreePrefix` | crates/signaling/src/handler.rs:155-180 | what is forwarded to a peer is a gap-free prefix of the others' messages since its subscription, in order, without repeats, never its own; all of it once it has caught up |
| `Relay.ForwardsWhatWasBroadcast` | crates/signaling/src/handler.rs:154-176 | told from the events: what is forwarded to a peer is a prefix of the payloads that others broadcast after it subscribed, in order, and all of them once it has caught up |
| `Relay.LoopEndsOnlyOnLag` | crates/signaling/src/handler.rs:168-180 | taking a message ends the loop if and only if more than 64 are waiting |
| `Relay.RunningExactly` | crates/signaling/src/handler.rs:165-178 | in every run a loop that was started is running if and only if no hand-over failed, nobody ended it, and it never wanted a message more than 64 behind |
| `Relay.EndedIsSilent` | crates/signaling/src/handler.rs:165-178 | a loop that has ended never forwards anything again |
| `SqlGrammar.GrammarIsExact` | crates/server/src/migrate.rs:47-185 | a token is the one the lexer reads if and only if it stands at the head of the text with a shape of the declarative grammar: both comments, dollar quotes, doubled quotes, unterminated forms |
| `SqlGrammar.LexHasShape` | crates/server/src/migrate.rs:47-185 | what the lexer reads always has such a shape |
| `SqlSplitter.SkipLineComment` | crates/server/src/migrate.rs:47-58 | the loop reads exactly the line comment token |
| `SqlSplitter.SkipBlockComment` | crates/server/src/migrate.rs:60-72 | the loop reads exactly the block comment token |
| `SqlSplitter.ScanTag` | crates/server/src/migrate.rs:74-92 | the loop finds the end of the tag |
| `SqlSplitter.FindClosing` | crates/server/src/migrate.rs:93-120 | the loop finds the first closing delimiter or none |
| `SqlSplitter.ReadDollar` | crates/server/src/migrate.rs:74-120 | decides whether a dollar quote opens here and reads exactly its token, or only the opening one when it is never closed |
| `SqlSplitter.ReadQuote` | crates/server/src/migrate.rs:122-169 | reads exactly the quoted token, doubled quotes and unterminated ends included |
| `SqlSplitter.SplitStatements` | crates/server/src/migrate.rs:36-194 | the whole index loop, with `len - i` decreasing on every branch, returns the statements of the token specification |
| `SqlLaws.SplitDeletesExactlyComments` | crates/server/src/migrate.rs:36-194 | the tokens tile the input; the untrimmed pieces joined by `;` are the input with exactly its comments deleted; the statements are the trims of the pieces that are not blank, in order |
| `SqlLaws.LexCut` | crates/server/src/migrate.rs:74-169 | cutting the text anywhere behind the first token does not change that token |
| `SqlLaws.LexAppend` | crates/server/src/migrate.rs:74-169 | appending `;` or white space, and anything, does not change a closed token; in particular the first closing tag stays the first |
| `SqlLaws.SplitUndoesJoin` | crates/server/src/migrate.rs:36-194 | for every list of trimmed, non-empty, comment-free, closed statements without top-level `;`, splitting the join returns the list |
| `SqlLaws.StatementsAreFixed` | crates/server/src/migrate.rs:36-194 | on every comment-free input, unterminated quotes and tags included, each statement splits to exactly itself |
| `SqlLaws.FixedExactly` | crates/server/src/migrate.rs:36-194 | for every trimmed text: it splits to exactly itself if and only if it has no comment and no terminator of its own |
| `SqlFixpoints.PieceIsFixedExactly` | crates/server/src/migrate.rs:36-194 | a piece of any input gives a statement that splits to itself if and only if the piece, which has lost its comments, reads without any and without terminator |
| `SqlFixpoints.AllFixedExactly` | crates/server/src/migrate.rs:36-194 | for every input: all its statements split to themselves if and only if that is so of all its pieces that are not blank |
| `SqlLaws.CommentsCanJoinNeighbours` | crates/server/src/migrate.rs:47-72 | an input with a comment whose only statement splits to nothing |
| `HitLog.LoggingKeepsQuota` | crates/signaling/src/rate_limit.rs:68-72 | the naive limiter, which counts the whole log, never lets more than its maximum into any closed window |
| `HitLog.PruneForgetful` | crates/signaling/src/rate_limit.rs:60-66 | pruning leaves as many times as the naive count, whatever expired times were forgotten before |
| `HitLog.TakingAgrees` | crates/signaling/src/rate_limit.rs:55-73 | one call on pruned lists decides what counting the log decides and stays in step with it |
| `HitLog.LogKeepsQuota` | crates/signaling/src/rate_limit.rs:55-73 | whatever decides like the naive limiter keeps the quota of the admissions since its last clear |
| `JoinLimiter.IpBuckets.CheckAt` | crates/signaling/src/rate_limit.rs:55-73 | decision and new state of one call, with the head of the deque popped and the janitor run first |
| `JoinLimiter.IpBuckets.MaybeRunJanitor` | crates/signaling/src/rate_limit.rs:75-95 | every 256 calls: clear at 50 000 addresses, else prune all lists and drop the empty ones |
| `JoinLimiter.RunsAgreeWithTheLog` | crates/signaling/src/rate_limit.rs:55-95 | for every sequence of calls in order of time, every decision is the one that counting all admissions since the last clear gives, of which no closed 60 seconds hold more than 30 for one address |
| `JoinLimiter.RunsAreNaive` | crates/signaling/src/rate_limit.rs:55-95 | for every sequence of calls in order of time it clears and admits exactly as a limiter that keeps the whole log: cleared at every 256th call with 50 000 addresses held, less than 30 admissions in the last 60 seconds to admit, addresses without one let go every 256 calls |
| `JoinLimiter.QuotaOfJoins` | crates/signaling/src/rate_limit.rs:22-25 | of the joins admitted since the last clear no address has more than 30 in any 60 seconds, both ends included |
| `JoinLimiter.UnclearedRunsKeepTheQuota` | crates/signaling/src/rate_limit.rs:55-95 | until the first clear that bound holds of all admissions there ever were |
| `PartnerLimiter.RateLimiter.Check` | crates/server/src/partner_registry/rate_limit.rs:40-73 | decision and new state of one call; within a minute of the least instant it panics and changes nothing; with a poisoned lock it lets everybody proceed |
| `PartnerLimiter.JanitorRemovesNothing` | crates/server/src/partner_registry/rate_limit.rs:51-55 | since no list is empty the sweep removes nothing |
| `PartnerLimiter.CheckLeavesNoneEmpty` | crates/server/src/partner_registry/rate_limit.rs:66-72 | every call leaves no list empty, and only the clear ever forgets an address |
| `PartnerLimiter.RunsAgreeWithTheLog` | crates/server/src/partner_registry/rate_limit.rs:40-73 | for every sequence of calls in order of time, every decision is the one that counting all admissions since the last clear gives, of which no closed 60 seconds hold more than 10 for one address |
| `PartnerLimiter.RunsAreNaive` | crates/server/src/partner_registry/rate_limit.rs:40-73 | for every sequence of calls in order of time it clears and admits exactly as a limiter that keeps the whole log and every address: cleared at 10 000 addresses, less than 10 admissions in the last 60 seconds to admit |
| `PartnerLimiter.AddressesAreNeverForgotten` | crates/server/src/partner_registry/rate_limit.rs:51-64 | the map holds exactly the addresses that ever called since the start, and the next call clears it if and only if they are 10 000 or more |
| `TurnConfig.EntryIsExact` | crates/server/src/config.rs:99-138 | a trimmed text parses to a configuration if and only if it is region, priority and url with colons between, region without colon, neither empty, priority an i32 |
| `TurnConfig.NumbersAreExact` | crates/server/src/config.rs:114 | a priority is read if and only if it is an optional sign and digits and its value, place by place, is a 32-bit number; and as that number |
| `TurnConfig.OneEntryOrNothing` | crates/server/src/config.rs:95-139 | a text without a comma gives the one configuration that it spells, white space around it aside, or nothing |
| `TurnConfig.NonNumbersAreSkipped` | crates/server/src/config.rs:114-124 | an entry whose priority spells no 32-bit number is skipped, such as `eu:abc:url` (`LettersAreSkipped`) |
| `TurnConfig.ParseConcat` | crates/server/src/config.rs:95-139 | for all texts, two lists joined by a comma parse to the two results one after the other |
| `TurnConfig.MalformedEntriesAreSkipped` | crates/server/src/config.rs:92-139 | an entry that parses to nothing leaves its neighbours as they are |
| `TurnConfig.ParsedAreWellFormed` | crates/server/src/config.rs:95-139 | whatever the text, every configuration read from it can be printed |
| `TurnConfig.PrintParseRoundTrip` | crates/server/src/config.rs:95-139 | for every list, parsing its printed form returns it if and only if every entry is well formed |
| `TurnConfig.ParsePrintParse` | crates/server/src/config.rs:95-139 | what was parsed once survives every further round trip |
| `TurnPool.Pool.constructor` | crates/server/src/turn_pool.rs:69-74 | a new pool is optimistically healthy, one object for each configuration |
| `TurnPool.Pool.Healthy` | crates/server/src/turn_pool.rs:77-84 | the healthy servers in the order of the pool |
| `TurnPool.Pool.ByUrl` | crates/server/src/turn_pool.rs:107-109 | the lookup table: for each old URL its last server |
| `TurnPool.Pool.Reload` | crates/server/src/turn_pool.rs:106-142 | fresh objects with the state carried over by URL, and the three counts |
| `TurnPool.StateFollowsUrl` | crates/server/src/turn_pool.rs:115-137 | with distinct old URLs, exactly the shared URLs keep their state and all others start fresh |
| `TurnPool.LastOfIsThere` | crates/server/src/turn_pool.rs:108-109 | a URL listed twice carries the state of its last server |
| `TurnPool.CountsOfDistinctUrls` | crates/server/src/turn_pool.rs:106-142 | with distinct URLs on both sides, `removed` is the number of old URLs absent from the new list, `preserved` of shared ones, `added` of new ones, and new size = old size - removed + added |
| `TurnPool.CountsOfAnyReload` | crates/server/src/turn_pool.rs:139 | for all lists, the size identity holds exactly when no more new entries have an old URL than there are old entries, and `removed` counts what is gone exactly when shared URLs are repeated equally often in both lists, or nothing is gone and the subtraction saturates |
| `TurnPool.RepeatedUrlsMiscount` | crates/server/src/turn_pool.rs:106-142 | a reload that grows the pool while counting nothing added or removed |
| `TurnProbe.Update` | crates/server/src/turn_probe_loop.rs:58-107 | the three outcomes of a probe on counter, time and flag, and a report exactly when the flag changes |
| `TurnProbe.Tick` | crates/server/src/turn_probe_loop.rs:56-119 | every server of the snapshot is updated once and the gauge is the number then healthy |
| `TurnProbe.UpdateFollowsHistory` | crates/server/src/turn_probe_loop.rs:58-107 | one update turns the fields that fit a history into those that fit the longer one, also when the counter wraps |
| `TurnProbe.TrailingIsLongest` | crates/server/src/turn_probe_loop.rs:64-70 | the number of consecutive failures is the longest run of failures at the end of the history |
| `TurnProbe.CarryingKeepsSound` | crates/server/src/turn_pool.rs:115-137 | a reload hands every continued server a state that fits its inherited history |
| `TurnProbe.HealthFollowsHistory` | crates/server/src/turn_probe_loop.rs:40-124 | over every run of probes and reloads, for every object there ever was: healthy if and only if its inherited history ends in fewer failures than the threshold; downs and ups alternate |
| `TurnProbe.LastRttIsLast` | crates/server/src/turn_probe_loop.rs:80-91 | the recorded round-trip time is that of the last answer, 0 before there was one |
| `TurnHistories.HistoriesAreHeard` | crates/server/src/turn_pool.rs:106-142 | over every run the history of an object is the probes of it since it was made, after all that the last object with its URL in the pool before had heard by then |
| `StableSort.StableSortIsUnique` | crates/server/src/router.rs:277 | order and the sequence of ties determine the result: there is only one stable sort |
| `TurnCredentials.GeoOrderIsOneStableSort` | crates/server/src/router.rs:271-285 | sorting by priority and then partitioning is one stable sort by (matches the hint, priority), hence a permutation that keeps ties in order |
| `TurnCredentials.RelayOnlyWithARelay` | crates/server/src/router.rs:196-264 | "relay" if and only if something to relay through is there and the hint is in a forced region; an entry with the credentials is present exactly when something is there; unavailable exactly without a secret |
| `TurnCredentials.EntriesHoldTheCredentials` | crates/turn/src/lib.rs:43-88 | an entry with the response's own username and credential is present if and only if there are TURN URLs |
| `TurnCredentials.UrlsWhenReachable` | crates/server/src/router.rs:205-216 | some URL is offered if and only if a server of the pool is healthy or the static list is not empty |
| `TurnCredentials.OffersFollowHistories` | crates/server/src/router.rs:205-216 | after any run of probes and reloads the URLs offered are those of exactly the servers whose history does not end in too many failures, in the one stable order; the static list only when there are none |
| `TurnResponse.ResponseFollowsHistories` | crates/server/src/router.rs:196-234 | after any run of probes and reloads: one entry with the credentials and the URLs of exactly the servers that are alive, in their order, or of the static list when none is, and none if there are no URLs; one without, with exactly the STUN URLs; the username is the decimal of now + 86400 and ":chat-user", the credential its keyed hash |
| `TurnResponse.GeoOrderIsOrdered` | crates/server/src/router.rs:271-285 | the order said on characters: servers whose region begins with the hint come before all others, priorities ascend on either side, and equals keep their order |
| `TurnResponse.PolicyOnCharacters` | crates/server/src/router.rs:249-264 | "relay" if and only if something to relay through is there and the hint, its capitals made small, begins with a forced region |
| `TurnResponse.AliveExactly` | crates/server/src/turn_probe_loop.rs:64-70 | a server is alive unless its history ends in as many failures as the threshold, or in one if that is 0 |
| `PartnerTables.Tables.IssueToken` | crates/partner-cli/src/commands.rs:74-103 | partner id, duration, uniqueness of hash and id, and the row inserted |
| `PartnerTables.Tables.UpsertNode` | crates/server/src/partner_registry/register.rs:117-140 | an existing row for partner and domain is refreshed and returned; a taken node id fails; else a new row |
| `PartnerTables.Tables.RegisterNode` | crates/server/src/partner_registry/register.rs:64-156 | the checks in their order, the upsert, and the token marked used with the node it got |
| `PartnerTables.Tables.RevokeToken` | crates/partner-cli/src/commands.rs:162-177 | marks a token that was not revoked yet, else an error |
| `PartnerTables.Tables.DeactivateNode` | crates/partner-cli/src/commands.rs:222-236 | deletes the row with that node id, else an error |
| `PartnerHistory.RunsAreGood` | crates/server/src/partner_registry/register.rs:64-156 | in every reachable state the two tables are what the log of successes says, with unique keys |
| `PartnerHistory.UpsertAnswers` | crates/server/src/partner_registry/register.rs:121-140 | an upsert returns the identity the row had, if there was one, and leaves it in the row |
| `PartnerLaws.TokensAreSingleUse` | crates/server/src/partner_registry/register.rs:92-156 | in every run: as many successes as used tokens, no token succeeds twice or after its revocation, each success was before the expiry and for the token's partner |
| `PartnerLaws.IdentityIsStable` | crates/server/src/partner_registry/register.rs:117-140 | between deactivations every success for one partner and domain returns the same node id and subdomain |
| `PartnerLaws.NodeTableFollowsLog` | crates/server/migrations/20260418_partner_nodes.sql:11-20 | one row for each partner and domain that is active, saying what was last handed out; no two rows of a partner share node id or subdomain |
| `PartnerLaws.RegistrationIsExact` | crates/server/src/partner_registry/register.rs:64-156 | in every reachable state a registration succeeds if and only if the server is configured, the log leaves the token valid, and the random digits are not another domain's of the partner; otherwise nothing changes |
| `PartnerLaws.RefusalsChangeNothing` | crates/partner-cli/src/commands.rs:74-236 | whatever operation is refused changes neither table |
| `PartnerLaws.UpsertFailsOnTakenDigits` | crates/server/src/partner_registry/register.rs:113-140 | the database refuses a node if and only if its digits are taken by another domain of the same partner |
| `PartnerStories.TablesTell` | crates/server/src/partner_registry/register.rs:144-156 | in every reachable state each token row was issued as it stands by a successful step, is revoked or used if and only if a successful step did so, with that step's time, address and node; and nothing that was issued is missing |
| `PartnerExact.IssueIsExact` | crates/partner-cli/src/commands.rs:74-103 | in every reachable state a token is issued if and only if the partner id has its form, the validity is 86400 to 7776000 seconds, and id and hash are new; which error otherwise; and it expires that long after its issue |
| `PartnerExact.PartnerIdForm` | crates/partner-cli/src/commands.rs:21-22 | a partner id is 3 to 32 small letters, digits and hyphens with no hyphen at either end |
| `PartnerExact.RevocationIsExact` | crates/partner-cli/src/commands.rs:162-177 | in every reachable state a revocation succeeds if and only if the id parses and is that of a token that was issued and not yet revoked, used or not; which error otherwise |
| `PartnerExact.RevokedTokensAreRefused` | crates/server/src/partner_registry/register.rs:104-110 | after its revocation every registration with a token's hash is refused |
| `PartnerExact.RegistrationOfToken` | crates/server/src/partner_registry/register.rs:104-142 | in every reachable state: how a registration with an issued token is answered, the errors in their order, told from the steps |
| `PartnerExact.RegistrationWithoutToken` | crates/server/src/partner_registry/register.rs:73-106 | without a configuration or a token that was issued it is refused, and with which error |
| `PartnerExact.RegistrationAnswers` | crates/server/src/partner_registry/register.rs:121-158 | a success answers with the identity of the node that then lives |
| `PartnerExact.NodesLive` | crates/server/src/partner_registry/register.rs:121-142 | in every reachable state the row of a partner and domain is what the successful steps made of it: `partner-digits`, `api-digits` and the time of registration from the one that created it, address and time last seen from the latest |
| `PartnerExact.DeactivationIsExact` | crates/partner-cli/src/commands.rs:222-236 | in every reachable state a deactivation succeeds if and only if the id is not empty and is that of a node that lives; which error otherwise, and which node is gone |

## Left out

- `Negotiation.Call.CommitOffer`: `setLocalDescription` succeeds; a failure inside the connection, after which the flag is lowered and nothing is sent, is not modelled, and the results about negotiation are about runs without one.
- `Negotiation.Call.HandleSignal`: one delivery is one step, so what can happen at the `await`s inside is not modelled, nor is the branch for ICE candidates, a closed connection, or a peer that is replaced during a call.
- `CallSafety.PeersInARoomAgreeExactly`: speaks of the agreements since the two peers met, from the moment the one that was there first handles `PeerJoined`.
- `SessionHistory.PeerIdsDiffer`: is about runs of less than 2^64 - 2 events, after which the 64-bit counter of a room could have wrapped.
- `SessionLaws.UninterruptedCleanupIsExact`: is about a cleanup whose two loops are not interleaved with joins and leaves; `EvictionExact` covers the interleaved case, with both loops' steps apart.
- `PartnerLimiter.RunsAgreeWithTheLog`: starts one minute after the least instant the clock can represent, because before that a call panics, and is about an unpoisoned lock.
- `HitLog.LoggingKeepsQuota`: times are given in order; two threads that read the clock before taking the lock may deliver them slightly out of order, which is not modelled.
- `TurnProbe.UpdateFollowsHistory`: the increment after the atomic addition wraps, as in a release build; a debug build would panic after 2^32 failures in a row.
- Extracting the fingerprints from the session descriptions; fingerprints are sequences of characters, which for their hexadecimal alphabet are JavaScript's code units.
- At the level of single atomic operations only the counter is modelled. The windows between counting and clearing `empty_since` (crates/signaling/src/rooms.rs:85-92) and between the second look and the removal (crates/signaling/src/room_cleanup.rs:49-52) are one step of the registry, and the first loop of the cleanup is one step.
- A rejected join that opens a room cannot happen at the granularity of the registry, and a rejected join in progress cannot keep a leave from recording the time.
- The clock of the sessions never steps back, while the source reads the system time, which can.
- Aborted session tasks and panics inside a session; the text of the messages; room id validation, address extraction and the five-second timer, which only decide which way a session goes.
- `cookies`, mirrors, the `governor` limiter, static pages, metrics endpoints and analytics: easy or in libraries that are not shown.
- Nested block comments and other PostgreSQL syntax that the splitter does not implement, and any claim that deleting comments preserves meaning.
- Running the migrations against a database.
- The std library's stable sort is modelled by an insertion sort; `StableSortIsUnique` makes the choice immaterial. Its `i32` parser is modelled from its documentation.
- The interleaving of a reload's three atomic loads with a probe update; DNS resolution and the STUN exchange, of which only the outcome is kept.
- HMAC, SHA-256 and random generation: an uninterpreted function, or values given by the caller. Header parsing for the geo hint.
- PostgreSQL transactions are serial, connection failures are not modelled, and the columns `created_at` and `token_id` defaults are parameters. The listing commands and the Reality credentials in the response are left out, of which only "configured or not" is kept.
