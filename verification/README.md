# Proofs about the settlement and attestation oracle

A Dafny model of the trade oracle: it notarizes a Steam session over MPC-TLS, decides from the transcript whether an
escrowed item was delivered, and signs the decision for the JJSKIN contract; it also attests what an inventory item is.
The modules follow the source files, and the theorems are about every input, every catalog and every interleaving.

| modules | models |
|---|---|
| `Sessions`, `SessionHistory`, `SessionEvidence`, `SessionCauses`, `SessionDelivery`, `SessionProgress` | the one-time session protocol of `main.rs` as a transition system: every lock section, compare-exchange, `take`, counter update and permit move is one step, and a run is any sequence of steps of any handlers and timers |
| `Server` | the shared objects themselves, updated in place; each method is one atomic action and is proved to be the protocol's step |
| `TimeBudget` | timeouts and the session's life |
| `Search`, `Decimal`, `Gzip`, `Http`, `Community` | the byte parsers of `parsing.rs`, loops against position-by-position specifications |
| `Oracle`, `Signer`, `Pipeline` | the decision, the EIP-712 preimages, and both composed into one notarization |
| `Bits`, `ItemDetail` | the 64-bit item word and a decoder for its two layouts |
| `Names`, `Catalog`, `Tiers`, `Resolver` | item names, the three indexes built in one loop, pattern tiers, resolution, and why a resolved word is unambiguous |
| `Inventory` | the paginated search, its joins, and the retry loop over proxies |
| `Cache`, `Handler`, `Attestation` | the LRU cache with a time to live, over whole logs of operations; `attest_handler`, for any way to attest an item; and one attestation from request to signature |

## How to read it

* Foreign code is a parameter: inflate, UTF-8 validation and the JSON deserialisers (`Oracle.Env`), hashing and ECDSA
  (`Signer.Signing`), Steam's answers (`Inventory.Fetch`, `Inventory.Network`), float reading, clocks. All theorems
  hold for every such parameter.
* Machine integers are ranges of `int`. Where the source adds without a check (`Oracle.Steam64`,
  `Oracle.AbandonmentDeadline`) the sum wraps modulo 2^64, as in a release build of this crate.
* The words of `item_detail.rs` are built with the source's shifts, masks and `|`, defined bitwise in `Bits`;
  `ItemDetail.WordIsSum` proves them equal to sums, on which the decoder's lemmas rest.
* The contracts' state (`SettlementTypes.ChainState`) is their mappings, with the widths of their ABI; reading an escrow
  cuts 256-bit numbers to 64 bits as the source does.
* Floats are exact reals, rounded half away from zero.
* `Gzip.Payload` has one outcome that the source does not return: `SliceOutOfRange` marks inputs on which the Rust slice
  expression panics because its start lies inside the eight trailer bytes.
* The `lru` crate is its contract: a hit promotes, a new key at capacity evicts the least recently used.
* Loops that the source repeats for each use (the digit accumulators, the two text fields of a gzip header) are written
  once.

## What turned out false of the code, and when it holds

* The bounds test before inflate does not cover the trailer: the slice is out of range exactly if a header ends one to
  seven bytes before the end of the body (`Gzip.SliceOutOfRangeIff`; `Gzip.BoundsTestMissesTrailer` is an input). The
  panic unwinds the handler. `Pipeline.UnwindsIff` says exactly on what evidence, `SessionHistory.PermitAccounting` what
  it does: permits stay accounted for, but the gauge counts such a notarization for good. Over the actions of any run,
  the gauge is the number of notarizations under way exactly if none ended over such evidence
  (`SessionCauses.GaugeIffNoneCut`); `Pipeline.CutResponseExists` is such a response, `SessionCauses.CutResponseLeaksGauge`
  what it leads to.
* The walk does not look at the reserved bits of the gzip flags, which RFC 1952 wants zero: `Gzip.ConformsIff`.
* An abandonment refund can come too early: the sum of purchase time and window wraps (`Oracle.WaitingPeriodLost`), and
  of the contract's 256-bit window only the low 64 bits are read, so that a window of 2^64 seconds is none
  (`Pipeline.LongWindowLost`, where no sum overflows). `Pipeline.ContractPeriodKeptIff` says exactly when the contract's
  own period is kept; since purchase times have 40 bits on chain, it is for every window the contract's owner may set,
  which src/settlement/oracle.rs:392 gives as 12 to 72 hours (`Pipeline.ContractPeriodKept`).
* A view of an offer without `is_our_offer` can be blamed on the wrong party; `Oracle.OmittedFlagHarmlessIff` says
  exactly when it is not, `Oracle.OmittedFlagBlamesSeller` shows one.
* The collision counter goes by the quality of catalog entries, the attested word by the flags of the inventory item,
  and the counter by any tint, the word by that of graffiti only. Where they differ two entries can share a word:
  `Resolver.MismatchedFlagsCollide` and `Resolver.StrayTintCollides` are instances, `Resolver.SameEntryIff` the exact
  condition. It needs one of the two entries to be visible to the counter; if both have stray tints they can agree in
  everything (`Resolver.StrayPairCollides`). `Resolver.CollisionFreeIff` is the check on a whole catalog.
* Variants of an item share a catalog key, but not with the bare name if that itself ends in parentheses:
  `Names.VariantsShareKeyIff`.
* A scaled float that does not fit 20 bits is cut: `ItemDetail.FloatAccuracyIff`.
* A published settlement can be lost: a client that goes away while it waits takes the only receiver with it
  (`SessionDelivery.LeavingEndsReplies`). `SessionDelivery.DeliverableIff` says exactly when it can still be delivered.
* Two branches are dead: the `!trade_not_found` test of `decide_community` (`Oracle.AbandonmentExact`) and the "channel
  closed" reply of the result handler (`SessionCauses.ChannelNeverCloses`), because a waiting handler keeps the session
  and its sender alive.

The source notes that it signs 64-bit trade offer ids where the contract has 48 bits. `Pipeline.SignedForContract` proves
this harmless: ids are read from a 48-bit field, so whatever is signed is what the contract hashes.

## Model

| member | source | states |
|---|---|---|
| SessionHistory.AtMostOnce | src/main.rs:664-693 | In no run is a session inserted, claimed, notarized, answered, ended (by publishing and unwinding together), or removed (by timer and reply together) twice |
| SessionHistory.Conservation | src/main.rs:579-655 | At every moment of every run: sessions inserted = live + expired + consumed, live at most the configured maximum, and every counter equals the events it counts, plus the handlers that have acted but not yet counted |
| SessionHistory.AllTimersFired | src/main.rs:628-655 | When every timer has fired and none is still to be spawned, the session map is empty |
| SessionHistory.PermitAccounting | src/main.rs:720-768 | Available permits and handlers holding one always add up to the maximum; the gauge is the notarizations under way plus those that ever unwound, and the former alone exactly if none did |
| SessionHistory.GaugeLeaks | src/main.rs:819-981 | A run after which every permit is back and no handler is left, but the gauge counts one |
| SessionHistory.ClaimantHoldsSender | src/main.rs:1015-1022 | Until it publishes, the claimant of a session finds the sender in place and no outcome sent, even if the session has left the map |
| SessionHistory.EveryHandlerFinishes | src/main.rs:713-811 | From any reachable state a handler left to itself makes at most eight moves, and one that is done has given its permit back |
| SessionHistory.MovesDescend | src/main.rs:811-1013 | Every real move of a handler brings it nearer its end, whatever the others did |
| SessionHistory.CanAlwaysMove | src/main.rs:664-811 | No handler in a consistent state is stuck |
| SessionHistory.SpentStable | src/main.rs:757-768 | What can no longer happen to a session in one state cannot happen after any step either |
| SessionHistory.EventsSpend | src/main.rs:679-693 | A step produces an event only if it could still happen, and after it that event is used up |
| SessionCauses.CausalOrder | src/main.rs:757-768 | In every run claims follow insertions, notarizations follow their handler's own claim, publications what their handler met, deliveries publications |
| SessionCauses.Delivery | src/main.rs:691-709 | A delivered outcome was published earlier by the session's claimant, after it claimed and met some evidence, and is what that evidence leads to for the session's asset |
| SessionCauses.ChannelNeverCloses | src/main.rs:698-701 | No run ever answers that the result channel closed |
| SessionCauses.OneAssetPerSession | src/main.rs:571-578 | A session is inserted for one asset only, in any run |
| SessionCauses.AssetBinding | src/main.rs:896-935 | A session with a delivered settlement was notarized once, over one transcript and one state of the contracts; the settlement is about the asset the session was created for, was decided on that transcript and on the escrow that the contracts' tables then hold for that asset (the listing's seller, the purchase's buyer, offer and time), and its signature is over what the contract hashes for that asset and the trade offer committed in that purchase; if it releases, that transcript is a release proof for that escrow |
| SessionCauses.UnwindingNeedsCutResponse | src/settlement/parsing.rs:204-209 | The very evidence over which a handler unwinds is for an asset in escrow, with an accepted route and a response cut in the trailer |
| SessionCauses.GaugeIffNoneCut | src/main.rs:819-981 | The gauge is the number of notarizations under way exactly if no action of the run ended one over such evidence |
| SessionEvidence.MetIffEnded | src/main.rs:845-957 | What a run's events say was met, and unwound over, is exactly what its actions ended notarizations with |
| SessionEvidence.GaugeIff | src/main.rs:819-981 | The gauge is the number of notarizations under way exactly if no action ended one over evidence that makes its handler panic |
| SessionEvidence.OneNotarization | src/main.rs:758-768 | A session meets evidence once in any run, by one handler |
| SessionDelivery.SpentForGood | src/main.rs:664-693 | However a run goes on, an event that is used up for a session does not happen again |
| SessionDelivery.LeavingEndsReplies | src/main.rs:679-692 | A client that goes away while it waits takes the receiver with it: no continuation sends a reply for its session |
| SessionDelivery.DeliverableIff | src/main.rs:664-709 | A published outcome can still be delivered by some continuation exactly if the receiver is in place and the session in the map or found, or a handler waits on it or is about to answer with it |
| SessionProgress.WaitingIsAnswered | src/main.rs:691-709 | However a run goes on, a handler that waits and is not cancelled either still owes its client the answer or has sent it |
| SessionProgress.TimeOutAnswers | src/main.rs:692-708 | A handler whose wait has run out, left to itself, removes the session and answers that it timed out |
| SessionProgress.ReceiveAnswers | src/main.rs:692-697 | One that finds an outcome removes the session and answers with it |
| SessionProgress.AnsweredLeavesMap | src/main.rs:693-693 | A session that has been answered for is out of the map, in every run and for good |
| SessionProgress.ClaimIsConcluded | src/main.rs:787-1013 | However a run goes on, a claimant that gets its WebSocket either is still at it, has published an outcome, or has unwound |
| SessionProgress.ClaimantPublishes | src/main.rs:770-1022 | A claimant's own moves end with the outcome of its evidence sent and published |
| SessionProgress.LostClientReturnsPermit | src/main.rs:720-804 | A client lost before its WebSocket is up costs nothing: its handler ends, the permit is back, and nothing else has changed |
| SessionProgress.LostClientLeavesSession | src/main.rs:664-709 | A result handler whose client is lost ends without answering and leaves the session to the timer |
| SessionProgress.FreedIffUnheld | src/main.rs:751-755 | A session is freed exactly when neither the map nor any handler holds it |
| SessionProgress.TimerFires | src/main.rs:632-641 | A timer fires once and leaves no session of its own behind |
| SessionCauses.CutResponseLeaksGauge | src/settlement/parsing.rs:204-209 | Any such response leads to the run that leaves the gauge at one |
| Sessions.Reachable | src/main.rs:570-810 | The invariant (exclusive claimant and receiver, sender kept until published, timers, permits, capacity) holds in every reachable state |
| Sessions.StepKeepsInv | src/main.rs:570-810 | Every atomic action of every handler and timer keeps the invariant |
| Sessions.PermitsConserved | src/main.rs:720-747 | Every action of a handler moves permits exactly as the handler's own holding changes |
| SessionHistory.GaugeMoves | src/observability.rs:13-19 | Every action of a handler moves the gauge exactly as the handler enters or leaves its notarization, except that unwinding leaves it behind |
| Server.SessionData.constructor | src/main.rs:573-578 | A new session is unclaimed, with both channel ends in place |
| Server.AppState.constructor | src/main.rs:440-455 | A new server is in the protocol's initial state, after no action |
| Server.ObjectsKeepHistory | src/main.rs:579-693 | Of the objects, whenever between actions: no event twice, sessions, counters, permits and gauge balanced against the run that led to them |
| Server.AppState.Pass | src/main.rs:628-633 | Spawning a timer, waiting, going away and the notarization itself leave the objects as they are |
| Server.AppState.InsertSession | src/main.rs:579-609 | The lock section is the protocol's creation step: refused and counted exactly at capacity, else inserted |
| Server.AppState.CountCreated | src/main.rs:610-614 | The counter update is the protocol's step, after the insertion and outside the lock |
| Server.AppState.ExpireSession | src/main.rs:632-641 | The timer removes and counts exactly if the session is still in the map |
| Server.AppState.TryAcquirePermit | src/main.rs:720-747 | A permit is taken exactly if one is left |
| Server.AppState.LookUp | src/main.rs:751-755 | The handler gets the shared session object itself, or is on its way out |
| Server.AppState.ClaimVerifier | src/main.rs:758-768 | Exactly one caller wins the flag; every other is on its way out |
| Server.AppState.CountUpgraded | src/main.rs:770-774 | The counter update is the protocol's step |
| Server.AppState.IncrementActive | src/main.rs:819-820 | The gauge goes up when the socket handler starts |
| Server.AppState.DecrementActive | src/main.rs:959-981 | The gauge comes down on success and failure, before publishing |
| Server.AppState.PublishOutcome | src/main.rs:1015-1022 | The sender is taken; an outcome is sent exactly if it was still there |
| Server.AppState.ReleasePermit | src/main.rs:811-819 | Dropping the permit is the protocol's step |
| Server.AppState.LocateSession | src/main.rs:668-677 | The result handler gets the shared session object itself, or is done |
| Server.AppState.TakeResultReceiver | src/main.rs:679-689 | Exactly one caller gets the receiver |
| Server.AppState.RemoveSession | src/main.rs:691-693 | The result handler removes its session, if still there, and answers |
| TimeBudget.SessionTokenTtl | src/main.rs:70-72 | The life of a session is at least 30 seconds and at least the timeout, and 30 seconds more than the timeout unless the sum saturates |
| TimeBudget.Timeout | src/main.rs:896-900 | Waiting under a limit ends by the limit, with the value exactly if it came in time |
| TimeBudget.RunMpcTls | src/verifier.rs:236-290 | On every exit the driver gets its grace; success exactly if the protocol succeeds in time and the driver then stops cleanly in two seconds |
| TimeBudget.HandleNotarize | src/main.rs:845-957 | Duration, outcome and timeout count are those of the specification: a settlement exactly if every stage succeeds within what is left of one deadline |
| TimeBudget.EndsInTime | src/main.rs:845-946 | No notarization outlasts its timeout by more than the grace; a settlement never outlasts the timeout |
| TimeBudget.EndsBeforeExpiryIff | src/main.rs:70-72 | All courses end within the session's life exactly if the notarization starts at most 28 seconds in (fewer where the seconds saturate) |
| Search.Find | src/settlement/parsing.rs:498-503 | The least index at which a nonempty pattern occurs, None exactly if there is none |
| Search.FindShift | src/settlement/parsing.rs:498-503 | A prefix in which no occurrence starts only shifts the result |
| Decimal.ScanDigits | src/settlement/parsing.rs:519-527 | The checked accumulation equals judging the maximal digit run at once: at most 20 digits and at most 2^64 - 1 |
| Decimal.LongRunRefused | src/settlement/parsing.rs:466-478 | A run of more than 20 digits is refused, whatever its value |
| Decimal.ScanPrinted | src/settlement/parsing.rs:519-533 | Any u64 printed before a non-digit scans back |
| Decimal.PrintValue | src/inventory_attestation/mod.rs:275-276 | Printing loses nothing |
| Decimal.ParsePrinted | src/steam_inventory.rs:522-524 | A printed number parses back |
| Decimal.ParseExact | src/settlement/parsing.rs:280-281 | Exactly the texts that parse to a number: a plus sign or none, zeros, and the printed number |
| Gzip.DecompressGzip | src/settlement/parsing.rs:166-219 | The walk hands to inflate the slice the specification names, with the source's errors otherwise |
| Gzip.SkipHeader | src/settlement/parsing.rs:175-202 | The offset after the optional fields |
| Gzip.SkipText | src/settlement/parsing.rs:187-190 | The offset after the first zero byte |
| Gzip.FlagBits | src/settlement/parsing.rs:175-202 | The four flags, FTEXT and the reserved bits together are the flags byte |
| Gzip.WalkInvertsLayout | src/settlement/parsing.rs:166-209 | Every member laid out as section 2.3 of RFC 1952 says, any reserved flag bits, is walked to exactly its payload |
| Gzip.WalkAcceptsOnlyMembers | src/settlement/parsing.rs:166-209 | What the walk accepts is a member so laid out, and well-formed exactly if its reserved bits are zero |
| Gzip.WalkExact | src/settlement/parsing.rs:166-209 | A payload reaches inflate if and only if the bytes are a member with that payload, reserved flag bits aside |
| Gzip.ConformsIff | src/settlement/parsing.rs:175-202 | The bytes are a well-formed member of RFC 1952 with that payload exactly if the walk gives it and no reserved flag bit is set |
| Gzip.BoundsTestMissesTrailer | src/settlement/parsing.rs:204-209 | A concrete input whose header ends inside the trailer |
| Gzip.SliceOutOfRangeIff | src/settlement/parsing.rs:204-209 | The slice is out of range exactly if a header ends one to seven bytes before the end |
| Http.FindJsonStart | src/settlement/parsing.rs:134-141 | The loop finds the first blank line |
| Http.PlainBodyExact | src/settlement/parsing.rs:144-160 | A plain body within the size limit is handed over whole, exactly if it is UTF-8 |
| Http.GzipBodyExact | src/settlement/parsing.rs:144-160 | A gzip body is handed over as its payload inflates, with an error if it does not, is too large or not UTF-8 |
| Http.BadGzipRefused | src/settlement/parsing.rs:152-153 | What starts like gzip and is no member is refused as the walk refuses it |
| Http.SizeAndHeadErrors | src/settlement/parsing.rs:145-149 | A response is too large exactly above 50 MB, and without a body exactly if it has no blank line |
| Http.SplitsAtBlankLine | src/settlement/parsing.rs:134-150 | Every other response is a head and a body |
| Http.GzipTransparent | src/settlement/parsing.rs:144-160 | A body sent plain and sent as any gzip member of it are read alike |
| Http.ExtractNumberAfterPattern | src/settlement/parsing.rs:506-534 | A number exactly if the padding after the first occurrence is followed by a nonempty digit run in range |
| Http.NumberRoundTrip | src/settlement/parsing.rs:506-534 | Any u64 printed after the pattern, with any padding, is extracted again |
| Http.NothingElsePadded | src/settlement/parsing.rs:510-513 | Anything but spaces and quotes between pattern and digits, and no number is found |
| Http.RequestedOfferRead | src/settlement/parsing.rs:488-492 | A request that names an offer in any of the three spellings is read as naming it |
| Http.ExtractTradeOfferIdFromUrl | src/settlement/parsing.rs:462-485 | The same for the URL path, without padding |
| Http.OfferUrlRead | src/settlement/parsing.rs:462-485 | A number printed right after the first "/tradeoffer/" is the offer the URL names |
| Http.OfferUrlRefused | src/settlement/parsing.rs:462-485 | Without a digit right after it none is named |
| Http.ExtractSteamIdFromCookie | src/settlement/parsing.rs:416-459 | The id of the first Cookie header line, with the source's errors in its order |
| Http.SteamIdRoundTrip | src/settlement/parsing.rs:426-458 | An id of 15 to 18 digits followed by either spelling of the delimiter reads back |
| Http.SteamIdExact | src/settlement/parsing.rs:426-458 | An id is read exactly if 15 to 18 digits follow the cookie's first name and then "%7C%7C" or two bars |
| Http.CookieRoundTrip | src/settlement/parsing.rs:416-458 | From a whole request: the id depends on nothing before the Cookie line or after it |
| Http.RequestLineIgnored | src/settlement/parsing.rs:413-424 | The request line cannot influence which id the cookie gives |
| Community.ScanPage | src/settlement/parsing.rs:340-391 | The one-pass scanner's flags equal five independent substring searches, in spite of its guards and `else if` |
| Community.ParseCommunityHtml | src/settlement/parsing.rs:329-411 | The parser equals its specification by independent searches |
| Community.ProofExact | src/settlement/parsing.rs:329-411 | Ok exactly if body, cookie and URL id parse, the page is not sign-in only, and the error title and a not-found phrase occur |
| Community.ProofRefused | src/settlement/parsing.rs:333-411 | Once there is a body, when each error is returned: cookie first, then URL, then sign-in, then the page itself |
| Http.DetectExact | src/settlement/parsing.rs:231-249 | The letter after the first "GetTrade" decides between offer and status; community exactly if there is none and the domain occurs |
| Oracle.FirstCs2Exact | src/settlement/parsing.rs:252-271 | The first item of application 730 whose id parses, exactly |
| Oracle.FirstCs2AssetExact | src/settlement/parsing.rs:252-271 | The same for a list that may be absent |
| Oracle.RouteExact | src/settlement/oracle.rs:97-119 | A proof source is accepted exactly from its own host |
| Oracle.RouteRefused | src/settlement/oracle.rs:97-119 | A request of no known kind is reported as such if its host is one of the two; every other refusal blames the host |
| Oracle.ReleaseExact | src/settlement/oracle.rs:90-130 | `decide` releases if and only if API host, trade status 3, first CS2 asset given is the escrow's, partner is the buyer, and the settlement time is present and past |
| Oracle.OnlyStatusReleases | src/settlement/oracle.rs:254-304 | No other source or branch releases |
| Oracle.StatusRefundExact | src/settlement/oracle.rs:278-340 | A trade status refunds for a reason on exactly the records that call for it: complete but to someone else, or rolled back and about the escrow's asset |
| Oracle.VerdictBinding | src/settlement/oracle.rs:138-408 | Every verdict carries the escrow's asset and offer ids, with a reason exactly when it refunds |
| Oracle.TimeMonotone | src/settlement/oracle.rs:254-408 | An Ok verdict is the same at every later time |
| Oracle.AbandonmentExact | src/settlement/oracle.rs:358-408 | Exactly when an abandonment is refunded; the test of `trade_not_found` never fails |
| Oracle.WaitingPeriodKeptIff | src/settlement/oracle.rs:393-400 | The waiting period of an escrow is kept at all times exactly if the deadline does not overflow |
| Oracle.WaitingPeriodLost | src/settlement/oracle.rs:393-400 | An escrow whose period is lost by overflow |
| Oracle.AbandonedIff | src/settlement/oracle.rs:393-400 | A refund is due exactly from purchase time plus window on, where that fits 64 bits |
| Oracle.PanicIsBody | src/settlement/oracle.rs:121-129 | A decision panics exactly if its route is accepted and extracting the body does |
| Pipeline.ContractPeriodKeptIff | src/settlement/chain_reader.rs:110-133 | The contract's own waiting period is kept at all times exactly if it ends within 64 bits |
| Pipeline.ContractPeriodKept | src/settlement/oracle.rs:390-400 | It is for every window of at most 72 hours |
| Pipeline.LongWindowLost | src/settlement/chain_reader.rs:110-110 | A window of 2^64 seconds is read as none |
| Oracle.CapturerIndependence | src/settlement/oracle.rs:138-235 | The seller's view and the buyer's view of an offer both get the verdict the offer deserves, fault included |
| Oracle.OfferDecided | src/settlement/oracle.rs:90-235 | The whole decision on a captured view of an offer is what the offer deserves |
| Oracle.TradeRefunded | src/settlement/oracle.rs:90-346 | The whole decision on a captured trade refunds for a reason exactly if the trade calls for it |
| Oracle.TradeUndecided | src/settlement/oracle.rs:254-346 | Each error on a captured trade, exactly when |
| Oracle.AbandonmentDecided | src/settlement/oracle.rs:90-408 | The whole decision on a page that proves the offer missing refunds exactly if a party shows it for this offer, from the deadline on |
| Oracle.AbandonmentUndecided | src/settlement/oracle.rs:367-400 | Exactly when such a page is for another offer, shown by a stranger, or too early, with the ids and the deadline reported |
| Oracle.RecordErrors | src/settlement/parsing.rs:274-306 | Missing records and other JSON are told apart |
| Oracle.OmittedFlagHarmlessIff | src/settlement/parsing.rs:288-288 | Exactly when a view without `is_our_offer` still does |
| Oracle.OmittedFlagBlamesSeller | src/settlement/parsing.rs:288-288 | A concrete view without the flag for which the seller is blamed for the buyer's letting the offer expire |
| Signer.EncodeSettlement | src/settlement/signer.rs:181-201 | The buffer is 160 bytes that read, word by word, as type hash, asset id, trade offer id, decision and reason, and decodes to the settlement |
| Signer.AbiUnique | src/settlement/signer.rs:173-180 | Values have one `abi.encode` only, so reading back determines a buffer |
| Signer.SettlementIsAbi | src/settlement/signer.rs:173-203 | The bytes that are hashed for a settlement are the `abi.encode` of its type and fields |
| Signer.EncodeItemAttestation | src/settlement/signer.rs:212-218 | The buffer is 96 bytes that read, word by word, as type hash, asset id and item word |
| Signer.EncodeDomain | src/settlement/signer.rs:157-168 | The buffer is 160 bytes that read, word by word, as type, name and version hash, chain id and contract address |
| Signer.EncodeDigest | src/settlement/signer.rs:261-265 | The buffer starts with 19 01 and is the digest preimage of this domain and struct hash, and of no other |
| Signer.SettlementDecodes | src/settlement/signer.rs:181-204 | A settlement can be read back from its preimage |
| Signer.SettlementInjective | src/settlement/signer.rs:181-204 | Equal preimages mean equal settlements |
| Signer.AttestationInjective | src/settlement/signer.rs:212-221 | Equal attestation preimages mean equal asset and word |
| Signer.KindsDisjoint | src/settlement/signer.rs:181-221 | A settlement and an attestation never have the same preimage |
| Signer.DomainInjective | src/settlement/signer.rs:157-171 | The domain preimage determines chain id and contract |
| Signer.DigestInjective | src/settlement/signer.rs:261-267 | The digest preimage determines domain and struct hash |
| Signer.ContractAgreesIff | src/settlement/signer.rs:187-194 | The contract hashes the same bytes exactly for trade offer ids below 2^48 |
| Pipeline.SignedForContract | src/settlement/chain_reader.rs:128-133 | Whatever is decided on an escrow read from the chain is hashed by the contract as by the oracle |
| Pipeline.ReadEscrowExact | src/settlement/chain_reader.rs:113-191 | What is read is what the tables hold: the listing's seller and the purchase's buyer with their registered Steam ids, offer, time and window; nothing exactly if the asset is not in escrow |
| Pipeline.SettledIsJustified | src/verifier.rs:411-445 | A settled outcome follows from the very evidence given: it is about the asset asked for, was decided on that transcript and the escrow the tables hold, signs what the contract hashes for the trade offer committed there, and reports the codes that were signed |
| Pipeline.SettledIff | src/verifier.rs:411-445 | And exactly such evidence leads to that result |
| Pipeline.ServerNamed | src/verifier.rs:397-422 | A settlement comes only of a session whose server is one of the two Steam hosts |
| Pipeline.UnwindsIff | src/verifier.rs:420-422 | A notarization panics exactly if the asset is in escrow, the route is accepted and the response is a gzip body cut in the trailer |
| Pipeline.CutResponseExists | src/settlement/parsing.rs:204-209 | A concrete response that is cut in the trailer |
| Bits.OrLow | src/item_detail.rs:74-95 | Writing a field into zero bits by `or` is addition |
| Bits.ShiftAndMask | src/item_detail.rs:69-71 | Shifting right is division, masking low bits the remainder |
| ItemDetail.WordIsSum | src/item_detail.rs:64-97 | For all inputs, the words built with `<<`, `>>`, `&` and `or` are the sums that the decoder's lemmas read |
| ItemDetail.StandardDecodes | src/item_detail.rs:80-96 | In standard mode every field decodes to what was put in, as clamped and masked |
| ItemDetail.ExtendedDecodes | src/item_detail.rs:67-79 | In extended mode 28 bits of defindex, the clamped tint, slab and quality class decode |
| ItemDetail.SentinelExact | src/item_detail.rs:64-79 | For all inputs the seed field is 1023 exactly if defindex is above 8191 or there is a tint |
| ItemDetail.LimitsAsDocumented | src/item_detail.rs:15-28 | Seeds are cut at 1000, tiers at 7, tints at 31, and qualities 9 and 12 are the classes 1 and 2 |
| ItemDetail.FloatAccuracyIff | src/item_detail.rs:82-84 | The decoded float is within half a millionth exactly for floats that round into the 20 bits |
| Names.VariantsShareKey | src/inventory_attestation/catalog.rs:466-507 | All variants and exteriors of an item have one catalog key |
| Names.VariantsShareKeyIff | src/inventory_attestation/catalog.rs:466-507 | It is the bare name's own key exactly if that does not itself end in parentheses |
| Names.NormalNameIsKey | src/inventory_attestation/catalog.rs:466-507 | If the bare name is words apart by single spaces, that key is the name itself |
| Names.CollapsedIsNormal | src/inventory_attestation/catalog.rs:505-507 | Every key is such a name, or empty |
| Names.ExteriorStripped | src/inventory_attestation/catalog.rs:483-491 | The last parenthesis, and no more, is stripped |
| Names.FamilyRoundTrip | src/inventory_attestation/catalog.rs:470-507 | Weapon and pattern are read back from the market name they make, for any variant, exterior and star |
| Catalog.FamilyKeyReadBack | src/inventory_attestation/catalog.rs:518-543 | An item named after an entry, with its exterior and flags, has the entry's family key |
| Catalog.Load | src/inventory_attestation/catalog.rs:122-163 | After the loop all three indexes agree with scanning the whole catalog |
| Catalog.PositionsExact | src/inventory_attestation/catalog.rs:126-145 | An index list holds exactly the positions of its key, ascending |
| Catalog.ResolveExact | src/inventory_attestation/catalog.rs:235-304 | Resolution through the indexes gives an outcome if and only if sets of positions call for it: the one entry of that name; with a finish the first of that name that has it, else the one of the family; each error in its own case |
| Tiers.FindFirst | src/inventory_attestation/catalog.rs:382-418 | Each rule search gives the first match, None exactly if there is none |
| Tiers.VariantsShareTier | src/inventory_attestation/catalog.rs:374-419 | StatTrak, Souvenir and exterior do not change the pattern tier |
| Tiers.TierExact | src/inventory_attestation/catalog.rs:374-464 | The tier is that of the first bucket named by the first matching family's classifier, by paint index or by name, defindex, paint index and seed with ranges inclusive; and no other tier is above zero |
| Resolver.CountIsMultiplicity | src/inventory_attestation/catalog.rs:140-145 | The counter of a word is the number of unpainted entries with that word |
| Resolver.RepresentableIff | src/inventory_attestation/catalog.rs:346-372 | An unpainted standard entry passes exactly if no other entry has its word |
| Resolver.ResolvesIff | src/inventory_attestation/catalog.rs:165-233 | An item resolves to an entry if and only if the sets call for it, its evidence is complete, and its word is its own |
| Resolver.ResolvedFields | src/inventory_attestation/catalog.rs:214-232 | Every attested field comes from the entry or from the item, as stated field by field |
| Resolver.CountedAsAttested | src/inventory_attestation/catalog.rs:327-344 | The collision counter counts an unpainted item under the very word that is attested for it, if item and entry agree in their flags, no stray tint and no tier intervenes |
| Resolver.RefusalsExact | src/inventory_attestation/catalog.rs:174-212 | Each reason for not attesting an entry, exactly when, and how many entries share an unrepresentable word |
| Resolver.UnresolvedExact | src/inventory_attestation/catalog.rs:169-173 | An item without an entry is refused as its resolution is |
| Resolver.StandardWordDescribes | src/inventory_attestation/mod.rs:294-305 | A standard word decodes to the entry's defindex and paint index, the item's quality and the clamped seed of the evidence |
| Resolver.ExtendedWordDescribes | src/inventory_attestation/mod.rs:294-305 | An extended word decodes to defindex, graffiti tint, slab flag and quality |
| Resolver.UnambiguousAttestation | src/item_detail.rs:80-96 | Equal standard words mean equal defindex, quality class, clamped seed and tier, equal paint index up to 65535, and floats within a millionth |
| Resolver.ExtendedAttestation | src/item_detail.rs:67-79 | Equal extended words mean equal 28-bit defindex, clamped tint, slab and quality class |
| Resolver.StaticKeysEqualIff | src/inventory_attestation/catalog.rs:327-344 | Two unpainted entries of one small defindex are counted as the same word exactly if quality class and tint agree |
| Resolver.SameEntryIff | src/inventory_attestation/catalog.rs:327-372 | Two unpainted items with one standard word come from one entry exactly if their entries agree in quality class and tint, provided one entry has no stray tint or is alone with its key |
| Resolver.MatchingFlagsSameEntry | src/inventory_attestation/catalog.rs:165-233 | In particular if both items carry their entries' flags |
| Resolver.StrayTintCollides | src/inventory_attestation/catalog.rs:181-189 | A catalog in which two entries share a word because one has a tint without being graffiti |
| Resolver.StrayPairCollides | src/inventory_attestation/catalog.rs:354-358 | A catalog in which two entries with equal stray tints share a word and agree in everything |
| Resolver.MismatchedFlagsCollide | src/inventory_attestation/catalog.rs:220-220 | A catalog in which two entries share a word because an item is flagged otherwise than its entry |
| Resolver.CollisionFreeIff | src/inventory_attestation/catalog.rs:165-233 | A check on the catalog alone: items found by name, unpainted and flagged like their entries, never share a standard word across entries exactly if no two entries clash in defindex, quality class and tier while both are let through |
| Resolver.ClashIsStray | src/inventory_attestation/catalog.rs:346-372 | Of two entries that clash one has a stray tint |
| Inventory.BuildAssetPropertyMap | src/steam_inventory.rs:470-492 | The loop builds the specified map |
| Inventory.FindOnPage | src/steam_inventory.rs:185-197 | The loop over a page answers with the join of the first matching asset, or goes on |
| Inventory.FindAsset | src/steam_inventory.rs:156-210 | The page loop answers what a flat search of the whole cursor chain would, with at most 50 requests, none after the page that holds the asset |
| Inventory.FollowIsLinked | src/steam_inventory.rs:162-208 | The chain searched is the one its links define: each page answers the cursor before it, and the end says why there are no more |
| Inventory.FirstMatchAnswers | src/steam_inventory.rs:185-197 | The answer is the join of the first match in page order |
| Inventory.NotFoundIff | src/steam_inventory.rs:199-208 | AssetNotFound exactly after a terminal page with no match on any page |
| Inventory.BuildItemDescribes | src/steam_inventory.rs:494-560 | An item is what its description and properties say: name, first exterior tag, StatTrak and Souvenir by prefix or tag, seed from property 1, float from 2, certificate from 6, finish from 7, the last of each id, and no evidence exactly if all are absent |
| Inventory.DescribedOnce | src/steam_inventory.rs:494-560 | And that determines the item |
| Inventory.JoinExact | src/steam_inventory.rs:185-195 | The join is what the last matching description and the last nonempty property entry say |
| Inventory.NoDescriptionIff | src/steam_inventory.rs:187-193 | The join fails exactly if the page has no description of the asset's class |
| Inventory.ProxyPool.Next | src/steam_inventory.rs:333-341 | Hands out the current proxy and advances |
| Inventory.RoundRobin | src/steam_inventory.rs:333-341 | In one turn no proxy comes twice, and the turn ends where it began |
| Inventory.FetchInventoryResponse | src/steam_inventory.rs:212-289 | The last attempt made decides; all earlier ones were worth a retry; the first goes direct, the rest take proxies in turn |
| Cache.InventoryAttestationCache.constructor | src/inventory_attestation/cache.rs:22-29 | A new cache is the empty log |
| Cache.InventoryAttestationCache.Get | src/inventory_attestation/cache.rs:31-40 | Promote, then drop if expired, is the log's get, and the answer is the log's answer |
| Cache.InventoryAttestationCache.Insert | src/inventory_attestation/cache.rs:42-49 | Putting is the log's insertion |
| Cache.Bounded | src/inventory_attestation/cache.rs:22-29 | After any operations the cache holds at most its capacity, one entry a key |
| Cache.AnswerIsLatestAndFresh | src/inventory_attestation/cache.rs:31-40 | Whatever is answered is the latest response inserted for that key, no older than the time to live |
| Cache.FreshAndRecentIsAnswered | src/inventory_attestation/cache.rs:31-49 | A response still fresh is answered if fewer than `capacity` other keys were inserted or hit since its last use |
| Cache.AnsweredIff | src/inventory_attestation/cache.rs:31-40 | Used recently, a response is answered exactly as long as it is no older than the time to live |
| Cache.OneInsertion | src/inventory_attestation/cache.rs:31-49 | A single insertion is answered until the time to live has passed, and not a moment longer |
| Cache.KeyInjective | src/inventory_attestation/mod.rs:101-101 | The text key determines user and asset |
| Attestation.AttestAfresh | src/inventory_attestation/mod.rs:134-246 | Fetch, resolve and sign, in that order, with the error of the first that fails |
| Attestation.ResponseBinds | src/inventory_attestation/mod.rs:266-292 | A response's asset id, word and signature agree and are about an item of that user's inventory |
| Attestation.EqualDetailsAgree | src/inventory_attestation/mod.rs:274-276 | Responses with the same item detail text agree, if the word is standard, on defindex, quality and paint index up to 65535, and otherwise on 28 bits of defindex, clamped tint, slab and quality |
| Attestation.ServedBinds | src/inventory_attestation/mod.rs:94-264 | End to end: whatever the handler answers, from the cache or not, has the request's asset id, a word resolved from that user's inventory on the recorded visit from which it was kept, and a signature over exactly these two |
| Handler.CachedIsGenuine | src/inventory_attestation/mod.rs:103-118 | A cached answer is the latest kept for that very user and asset, attested on its recorded visit, and fresh |
| Handler.InventoryAttestationState.Lookup | src/inventory_attestation/mod.rs:101-120 | The lookup answers only with the latest fresh response kept for the request, and exactly one of the counters goes up |
| Handler.InventoryAttestationState.Complete | src/inventory_attestation/mod.rs:134-263 | What is attested is answered and kept under the request's key, with the visit it came from; failures are not kept |
| Handler.InventoryAttestationState.AttestHandler | src/inventory_attestation/mod.rs:94-264 | Every Ok answer was kept for the request, by an earlier operation or by this handler on its own visit |

## Left out

- MPC-TLS itself, sockets, the WebSocket upgrade and the TCP proxy are steps whose result is arbitrary.
- keccak, ECDSA and inflate are uninterpreted; what is proved about hashing and signing is proved about the bytes hashed.
- JSON text: the model starts from the deserialised records.
- `chain_reader.rs`: RPC, retries and ABI decoding are not part of this model; nor are amounts and wallets in the snapshot, which the decision does not use. Each table is read once, so that a seller and buyer with one wallet have one Steam id.
- Configuration, logging, `/proc` parsing, TDX quotes and the mapping of errors to HTTP codes and texts.
- IEEE rounding and non-finite floats: `floatvalue` is the exact real value of a finite f32, and the product with a million is exact.
- Sessions: session ids are fresh, counters do not reach their width, and no handler panics but over the gzip slice, which is modelled.
- SessionHistory.EveryHandlerFinishes: says nothing of scheduling; it bounds a handler's own moves and does not promise that it is given them.
- TimeBudget.HandleNotarize: assumes that timers fire on time and that an aborted driver joins at once; the time between stages other than `setup` is zero.
- Cache.FreshAndRecentIsAnswered: assumes that no get of the key since its last use read a later clock than the get in question.
- Inventory.FetchInventoryResponse: one caller at a time has the pool, so interleaved callers' proxies are not followed; the waits between attempts are not modelled.
- Attestation.ResponseBinds: signatures are bytes; the hexadecimal text is not modelled.
- Resolver.CollisionFreeIff: is about items found by name; items found by Steam's finish catalog are covered by `Resolver.SameEntryIff`.
- Resolver.SameEntryIff: says nothing of two entries that both have stray tints and share their key with others; painted entries may share defindex and paint index across exteriors; entries without a paint index in extended mode are not checked for conflicts by the source, so nothing is claimed of them.
- Names.VariantsShareKey: covers the prefixes the source strips and not names such as "★ StatTrak™ ...", where the star comes first.
- Oracle.VerdictBinding: the trade offer id of a trade status proof is the escrow's own, since Steam's record does not carry one.
