/** The settlement decision engine: oracle.rs and decision.rs, from deserialised Steam records. */
module Oracle {
  import opened Prelude
  import opened SettlementTypes
  import Decimal
  import Gzip
  import Http
  import Community

  const STEAM_API_HOST := "api.steampowered.com"
  const STEAM_COMMUNITY_HOST := "steamcommunity.com"
  const CS2_APP_ID: u32 := 730

  datatype TradeItem = TradeItem(appid: u32, assetid: bytes)

  datatype OfferRecord = OfferRecord(
    tradeofferid: bytes,
    state: u32,
    accountidOther: u64,
    itemsToGive: Option<seq<TradeItem>>,
    itemsToReceive: Option<seq<TradeItem>>,
    isOurOffer: Option<bool>)

  datatype StatusRecord = StatusRecord(
    status: u32,
    steamidOther: Option<bytes>,
    assetsGiven: Option<seq<TradeItem>>,
    assetsReceived: Option<seq<TradeItem>>,
    timeSettlement: Option<u64>)

  /** The foreign code a decision runs through: inflate, UTF-8 validation, and the two JSON deserialisers
      (outer `None`: not the expected JSON; inner `None`: the optional member is absent). */
  datatype Env = Env(
    inflate: Gzip.Inflate,
    utf8: bytes -> bool,
    offerJson: bytes -> Option<Option<OfferRecord>>,
    statusJson: bytes -> Option<Option<seq<StatusRecord>>>)

  datatype SettlementError =
    | InvalidServer
    | UnknownProofSource
    | ParseFailed(error: ParseError)
    | TradeOfferIdMismatch(expected: u64, got: u64)
    | AssetIdMismatch(expectedAsset: u64, gotAsset: Option<u64>)
    | PartnerMismatch(expectedPartner: u64, gotPartner: u64)
    | NonTerminalState(state: u32)
    | TooEarlyForAbandonment(claimedAt: u64, deadline: u64)
    | InvalidReleaseProof(assetId: u64)
    | MissingTimeSettlement
    | EscrowNotPassed(timeSettlement: u64, provedAt: u64)

  type Verdict = Result<Settlement, SettlementError>

  // Record parsing --------------------------------------------------------------------------

  function ParseU64(s: bytes): Option<u64> { Decimal.ParseUnsigned(s, U64_MAX) }

  function Cs2AssetId(item: TradeItem): Option<u64> {
    if item.appid == CS2_APP_ID then ParseU64(item.assetid) else None
  }

  /** The first CS2 item whose asset id parses. */
  function FirstCs2(items: seq<TradeItem>): Option<u64> {
    if items == [] then None
    else if Cs2AssetId(items[0]).Some? then Cs2AssetId(items[0])
    else FirstCs2(items[1..])
  }

  /** Item `i` is of CS2 (application 730) and its id parses, and none before it is so. */
  ghost predicate FirstCs2At(items: seq<TradeItem>, i: nat, id: u64) {
    && i < |items| && items[i].appid == 730 && Decimal.ParseUnsigned(items[i].assetid, U64_MAX) == Some(id)
    && forall j :: 0 <= j < i ==> items[j].appid != 730 || Decimal.ParseUnsigned(items[j].assetid, U64_MAX) == None
  }

  lemma {:induction false} FirstCs2Exact(items: seq<TradeItem>, id: u64)
    ensures FirstCs2(items) == Some(id) <==> exists i :: FirstCs2At(items, i, id)
  {
    if items != [] {
      var rest := items[1..];
      FirstCs2Exact(rest, id);
      if Cs2AssetId(items[0]).Some? {
        assert FirstCs2At(items, 0, Cs2AssetId(items[0]).value);
      } else {
        forall i: nat
          ensures FirstCs2At(rest, i, id) <==> FirstCs2At(items, i + 1, id)
        {
          if i < |rest| {
            assert rest[i] == items[i + 1];
            assert forall j :: 0 <= j < i ==> rest[j] == items[j + 1];
            assert forall j :: 0 < j < i + 1 ==> items[j] == rest[j - 1];
          }
        }
        if i: nat :| FirstCs2At(items, i, id) { assert FirstCs2At(rest, i - 1, id); }
      }
    }
  }

  function FirstCs2AssetId(items: Option<seq<TradeItem>>): Option<u64> {
    if items.None? then None else FirstCs2(items.value)
  }

  lemma FirstCs2AssetExact(items: Option<seq<TradeItem>>, id: u64)
    ensures FirstCs2AssetId(items) == Some(id) <==> items.Some? && exists i :: FirstCs2At(items.value, i, id)
  {
    if items.Some? { FirstCs2Exact(items.value, id); }
  }

  function Steam64(accountId: u64): u64 { WrappingAdd(accountId, STEAM64_OFFSET) }

  function OfferData(offer: OfferRecord): Result<TradeOfferData, ParseError> {
    match ParseU64(offer.tradeofferid)
    case None => Err(MissingTradeOfferId)
    case Some(id) =>
      Ok(TradeOfferData(
        offer.state,
        id,
        Steam64(offer.accountidOther),
        FirstCs2AssetId(offer.itemsToGive),
        FirstCs2AssetId(offer.itemsToReceive),
        if offer.isOurOffer.Some? then offer.isOurOffer.value else false))
  }

  function ParseTradeOffer(json: bytes, env: Env): Result<TradeOfferData, ParseError> {
    match env.offerJson(json)
    case None => Err(JsonParse)
    case Some(None) => Err(TradeNotFound)
    case Some(Some(offer)) => OfferData(offer)
  }

  function StatusData(trade: StatusRecord): TradeStatusData {
    var given := FirstCs2AssetId(trade.assetsGiven);
    var received := FirstCs2AssetId(trade.assetsReceived);
    TradeStatusData(
      trade.status,
      if trade.steamidOther.Some? then ParseU64(trade.steamidOther.value) else None,
      given,
      if received.Some? then received else given,
      trade.timeSettlement)
  }

  function ParseTradeStatus(json: bytes, env: Env): Result<TradeStatusData, ParseError> {
    match env.statusJson(json)
    case None => Err(JsonParse)
    case Some(None) => Err(TradeNotFound)
    case Some(Some(trades)) => if trades == [] then Err(TradeNotFound) else Ok(StatusData(trades[0]))
  }

  // Fault attribution -----------------------------------------------------------------------

  function FaultForExpired(sellerCreated: bool): RefundReason { if sellerCreated then BuyerExpired else SellerExpired }

  function FaultForCanceled(sellerCreated: bool): RefundReason { if sellerCreated then SellerCanceled else BuyerCanceled }

  function FaultForDeclined(sellerCreated: bool): RefundReason { if sellerCreated then BuyerDeclined else SellerDeclined }

  function DetermineSellerCreatedOffer(capturerIsSeller: bool, isOurOffer: bool): bool {
    if capturerIsSeller then isOurOffer else !isOurOffer
  }

  // Decisions -------------------------------------------------------------------------------

  function Refunded(escrow: EscrowSnapshot, reason: RefundReason): Verdict {
    Ok(Settlement(escrow.assetId, escrow.tradeOfferId, Refund, reason))
  }

  /** `decide_trade_offer` once the response is parsed. */
  function DecideOnOffer(requestId: Option<u64>, data: TradeOfferData, escrow: EscrowSnapshot): Verdict {
    if requestId.Some? && requestId.value != escrow.tradeOfferId then
      Err(TradeOfferIdMismatch(escrow.tradeOfferId, requestId.value))
    else if data.tradeOfferId != escrow.tradeOfferId then
      Err(TradeOfferIdMismatch(escrow.tradeOfferId, data.tradeOfferId))
    else if data.partnerSteamId != escrow.sellerSteamId && data.partnerSteamId != escrow.buyerSteamId then
      Refunded(escrow, WrongParties)
    else
      var capturerIsSeller := data.partnerSteamId == escrow.buyerSteamId;
      match if capturerIsSeller then data.assetToGive else data.assetToReceive
      case None => Refunded(escrow, NotCS2Item)
      case Some(assetId) =>
        if assetId != escrow.assetId then Refunded(escrow, WrongAsset)
        else
          var sellerCreated := DetermineSellerCreatedOffer(capturerIsSeller, data.isOurOffer);
          match data.state
          case 5 => Refunded(escrow, FaultForExpired(sellerCreated))
          case 6 => Refunded(escrow, FaultForCanceled(sellerCreated))
          case 7 => Refunded(escrow, FaultForDeclined(sellerCreated))
          case 8 => Refunded(escrow, InvalidItems)
          case 10 => Refunded(escrow, Canceled2FA)
          case _ => Err(NonTerminalState(data.state))
  }

  function DecideTradeOffer(sent: bytes, json: bytes, escrow: EscrowSnapshot, env: Env): Verdict {
    match ParseTradeOffer(json, env)
    case Err(e) => Err(ParseFailed(e))
    case Ok(data) => DecideOnOffer(Http.TradeOfferIdInRequest(sent), data, escrow)
  }

  function RollbackRefund(data: TradeStatusData, escrow: EscrowSnapshot, reason: RefundReason): Verdict {
    if data.assetId != Some(escrow.assetId) then Err(AssetIdMismatch(escrow.assetId, data.assetId))
    else Refunded(escrow, reason)
  }

  function DecideTradeStatus(json: bytes, escrow: EscrowSnapshot, now: u64, env: Env): Verdict {
    match ParseTradeStatus(json, env)
    case Err(e) => Err(ParseFailed(e))
    case Ok(data) =>
      if data.status == 3 then
        if data.assetIdGiven != Some(escrow.assetId) then Err(InvalidReleaseProof(escrow.assetId))
        else if data.partnerSteamId.None? then Err(ParseFailed(JsonParse))
        else if data.partnerSteamId.value != escrow.buyerSteamId then Refunded(escrow, WrongRecipient)
        else if data.timeSettlement.None? then Err(MissingTimeSettlement)
        else if data.timeSettlement.value > now then Err(EscrowNotPassed(data.timeSettlement.value, now))
        else Ok(Settlement(escrow.assetId, escrow.tradeOfferId, Release, NoReason))
      else if 4 <= data.status <= 9 || data.status == 11 then RollbackRefund(data, escrow, DeprecatedRollback)
      else if data.status == 12 then RollbackRefund(data, escrow, TradeRollback)
      else Err(NonTerminalState(data.status))
  }

  function AbandonmentDeadline(escrow: EscrowSnapshot): u64 {
    WrappingAdd(escrow.purchaseTime, escrow.abandonedWindow)
  }

  function DecideCommunity(sent: bytes, recv: bytes, escrow: EscrowSnapshot, now: u64, env: Env): Verdict {
    match Community.ProofOf(sent, recv, env.inflate, env.utf8)
    case Err(e) => Err(ParseFailed(e))
    case Ok(data) =>
      if data.tradeOfferId != escrow.tradeOfferId then
        Err(TradeOfferIdMismatch(escrow.tradeOfferId, data.tradeOfferId))
      else if data.proverSteamId != escrow.sellerSteamId && data.proverSteamId != escrow.buyerSteamId then
        Err(PartnerMismatch(escrow.buyerSteamId, data.proverSteamId))
      else if !data.tradeNotFound then Err(ParseFailed(CommunityTradeExists))
      else if now < AbandonmentDeadline(escrow) then Err(TooEarlyForAbandonment(now, AbandonmentDeadline(escrow)))
      else Refunded(escrow, TradeNotExist)
  }

  /** Steps 1 and 2 of `decide`: which kind of proof this is, if the host may supply it. */
  function Route(server: string, sent: bytes): Result<ProofSource, SettlementError> {
    if server != STEAM_API_HOST && server != STEAM_COMMUNITY_HOST then Err(InvalidServer)
    else
      match Http.DetectProofSource(sent)
      case None => Err(UnknownProofSource)
      case Some(source) =>
        if !source.Community? && server != STEAM_API_HOST then Err(InvalidServer)
        else if source.Community? && server != STEAM_COMMUNITY_HOST then Err(InvalidServer)
        else Ok(source)
  }

  function Judge(source: ProofSource, sent: bytes, recv: bytes, body: bytes, escrow: EscrowSnapshot, now: u64, env: Env)
    : Verdict
  {
    match source
    case TradeOffer => DecideTradeOffer(sent, body, escrow, env)
    case TradeStatus => DecideTradeStatus(body, escrow, now, env)
    case Community => DecideCommunity(sent, recv, escrow, now, env)
  }

  function Decide(server: string, sent: bytes, recv: bytes, escrow: EscrowSnapshot, now: u64, env: Env): Verdict {
    match Route(server, sent)
    case Err(e) => Err(e)
    case Ok(source) =>
      match Http.ExtractHttpBody(recv, env.inflate, env.utf8)
      case Err(e) => Err(ParseFailed(e))
      case Ok(body) => Judge(source, sent, recv, body, escrow, now, env)
  }

  // What a decision means -------------------------------------------------------------------

  /** Everything that must be true for the seller to be paid. */
  ghost predicate ReleaseProof(server: string, sent: bytes, recv: bytes, escrow: EscrowSnapshot, now: u64, env: Env) {
    && server == STEAM_API_HOST
    && Http.DetectProofSource(sent) == Some(TradeStatus)
    && exists body, trades ::
         && Http.ExtractHttpBody(recv, env.inflate, env.utf8) == Ok(body)
         && env.statusJson(body) == Some(Some(trades))
         && trades != [] && CompletedTrade(trades[0], escrow, now)
  }

  ghost predicate CompletedTrade(trade: StatusRecord, escrow: EscrowSnapshot, now: u64) {
    && trade.status == 3
    && FirstCs2AssetId(trade.assetsGiven) == Some(escrow.assetId)
    && trade.steamidOther.Some? && ParseU64(trade.steamidOther.value) == Some(escrow.buyerSteamId)
    && trade.timeSettlement.Some? && trade.timeSettlement.value <= now
  }

  lemma OnlyStatusReleases(source: ProofSource, sent: bytes, recv: bytes, body: bytes, escrow: EscrowSnapshot, now: u64,
                           env: Env)
    ensures var v := Judge(source, sent, recv, body, escrow, now, env);
      v.Ok? && v.value.decision == Release <==>
        && source == TradeStatus
        && exists trades: seq<StatusRecord> ::
             env.statusJson(body) == Some(Some(trades)) && trades != [] && CompletedTrade(trades[0], escrow, now)
  {
    var parsed := env.statusJson(body);
    if source == TradeStatus && parsed.Some? && parsed.value.Some? && parsed.value.value != [] {
      var trade := parsed.value.value[0];
      assert ParseTradeStatus(body, env) == Ok(StatusData(trade));
    }
  }

  lemma RouteExact(server: string, sent: bytes, source: ProofSource)
    ensures Route(server, sent) == Ok(source) <==>
      && Http.DetectProofSource(sent) == Some(source)
      && server == if source == Community then "steamcommunity.com" else "api.steampowered.com"
  {
    assert STEAM_API_HOST[0] != STEAM_COMMUNITY_HOST[0];
  }

  /** Failing that, the host is blamed, unless it is one of the two and the request is of no known kind. */
  lemma RouteRefused(server: string, sent: bytes)
    ensures var route := Route(server, sent);
      && (route == Err(UnknownProofSource) <==>
            server in {"api.steampowered.com", "steamcommunity.com"} && Http.DetectProofSource(sent) == None)
      && (route.Ok? || route.error in {UnknownProofSource, InvalidServer})
  {}

  /** `decide` releases on exactly these inputs; no other source, host or branch can. */
  lemma ReleaseExact(server: string, sent: bytes, recv: bytes, escrow: EscrowSnapshot, now: u64, env: Env)
    ensures ReleaseProof(server, sent, recv, escrow, now, env) <==>
      var v := Decide(server, sent, recv, escrow, now, env);
      v.Ok? && v.value.decision == Release
  {
    RouteExact(server, sent, TradeStatus);
    var route := Route(server, sent);
    var body := Http.ExtractHttpBody(recv, env.inflate, env.utf8);
    if route.Ok? && body.Ok? {
      OnlyStatusReleases(route.value, sent, recv, body.value, escrow, now, env);
    }
  }

  /** The asset a trade moved: what was received, failing that what was given. */
  ghost predicate Involves(trade: StatusRecord, assetId: u64) {
    var received := FirstCs2AssetId(trade.assetsReceived);
    received == Some(assetId) || (received == None && FirstCs2AssetId(trade.assetsGiven) == Some(assetId))
  }

  /** The trades that return the buyer's money, and why. */
  ghost predicate RefundableTrade(trade: StatusRecord, escrow: EscrowSnapshot, reason: RefundReason) {
    match reason
    case WrongRecipient =>
      && trade.status == 3 && FirstCs2AssetId(trade.assetsGiven) == Some(escrow.assetId)
      && trade.steamidOther.Some? && ParseU64(trade.steamidOther.value) !in {None, Some(escrow.buyerSteamId)}
    case DeprecatedRollback => trade.status in {4, 5, 6, 7, 8, 9, 11} && Involves(trade, escrow.assetId)
    case TradeRollback => trade.status == 12 && Involves(trade, escrow.assetId)
    case _ => false
  }

  /** A trade status refunds for a reason on exactly these records. */
  lemma StatusRefundExact(json: bytes, escrow: EscrowSnapshot, now: u64, env: Env, reason: RefundReason)
    ensures DecideTradeStatus(json, escrow, now, env) == Refunded(escrow, reason) <==>
      exists trades: seq<StatusRecord> ::
        env.statusJson(json) == Some(Some(trades)) && trades != [] && RefundableTrade(trades[0], escrow, reason)
  {
    var parsed := env.statusJson(json);
    if parsed.Some? && parsed.value.Some? && parsed.value.value != [] {
      var trade := parsed.value.value[0];
      assert ParseTradeStatus(json, env) == Ok(StatusData(trade));
    }
  }

  /** An offer is refunded for wrong parties exactly if it is the escrow's offer and its partner is a stranger. */
  lemma StrangerExact(requestId: Option<u64>, data: TradeOfferData, escrow: EscrowSnapshot)
    ensures DecideOnOffer(requestId, data, escrow) == Refunded(escrow, WrongParties) <==>
      && requestId in {None, Some(escrow.tradeOfferId)} && data.tradeOfferId == escrow.tradeOfferId
      && data.partnerSteamId !in {escrow.sellerSteamId, escrow.buyerSteamId}
  {}

  ghost predicate BoundTo(v: Verdict, escrow: EscrowSnapshot) {
    v.Ok? ==>
      && v.value.assetId == escrow.assetId && v.value.tradeOfferId == escrow.tradeOfferId
      && (v.value.decision == Release <==> v.value.refundReason == NoReason)
      && v.value.refundReason != Timeout
  }

  /** The only place from which a decision can panic is the response body. */
  lemma PanicIsBody(server: string, sent: bytes, recv: bytes, escrow: EscrowSnapshot, now: u64, env: Env)
    ensures Decide(server, sent, recv, escrow, now, env) == Err(ParseFailed(SliceOutOfRange))
       <==> Route(server, sent).Ok? && Http.ExtractHttpBody(recv, env.inflate, env.utf8) == Err(SliceOutOfRange)
  {
    var route, body := Route(server, sent), Http.ExtractHttpBody(recv, env.inflate, env.utf8);
    if route.Ok? && body.Ok? { JudgeNeverPanics(route.value, sent, recv, body.value, escrow, now, env); }
  }

  lemma JudgeNeverPanics(source: ProofSource, sent: bytes, recv: bytes, body: bytes, escrow: EscrowSnapshot, now: u64,
                         env: Env)
    requires Http.ExtractHttpBody(recv, env.inflate, env.utf8) == Ok(body)
    ensures Judge(source, sent, recv, body, escrow, now, env) != Err(ParseFailed(SliceOutOfRange))
  {
    match source
    case TradeOffer =>
    case TradeStatus =>
    case Community => assert Community.ProofOf(sent, recv, env.inflate, env.utf8) != Err(SliceOutOfRange);
  }

  /** Every verdict is about this escrow, and a reason is given exactly when money goes back. */
  lemma VerdictBinding(server: string, sent: bytes, recv: bytes, escrow: EscrowSnapshot, now: u64, env: Env)
    ensures BoundTo(Decide(server, sent, recv, escrow, now, env), escrow)
  {
    var route, body := Route(server, sent), Http.ExtractHttpBody(recv, env.inflate, env.utf8);
    if route.Ok? && body.Ok? { JudgeBinding(route.value, sent, recv, body.value, escrow, now, env); }
  }

  lemma JudgeBinding(source: ProofSource, sent: bytes, recv: bytes, body: bytes, escrow: EscrowSnapshot, now: u64, env: Env)
    ensures BoundTo(Judge(source, sent, recv, body, escrow, now, env), escrow)
  {
    match source
    case TradeOffer =>
      var data := ParseTradeOffer(body, env);
      if data.Ok? { OfferBinding(Http.TradeOfferIdInRequest(sent), data.value, escrow); }
    case TradeStatus => StatusBinding(body, escrow, now, env);
    case Community => CommunityBinding(sent, recv, escrow, now, env);
  }

  lemma OfferBinding(requestId: Option<u64>, data: TradeOfferData, escrow: EscrowSnapshot)
    ensures BoundTo(DecideOnOffer(requestId, data, escrow), escrow)
  {}

  lemma StatusBinding(json: bytes, escrow: EscrowSnapshot, now: u64, env: Env)
    ensures BoundTo(DecideTradeStatus(json, escrow, now, env), escrow)
  {}

  lemma CommunityBinding(sent: bytes, recv: bytes, escrow: EscrowSnapshot, now: u64, env: Env)
    ensures BoundTo(DecideCommunity(sent, recv, escrow, now, env), escrow)
  {}

  /** Waiting never changes a verdict once there is one. */
  lemma TimeMonotone(server: string, sent: bytes, recv: bytes, escrow: EscrowSnapshot, now: u64, later: u64, env: Env)
    requires now <= later && Decide(server, sent, recv, escrow, now, env).Ok?
    ensures Decide(server, sent, recv, escrow, later, env) == Decide(server, sent, recv, escrow, now, env)
  {}

  /** Exactly when an abandonment is refunded. The source's own check of `trade_not_found` is not among the
      conditions: the parser has already refused such pages, so that branch is never taken. */
  lemma AbandonmentExact(sent: bytes, recv: bytes, escrow: EscrowSnapshot, now: u64, env: Env)
    ensures DecideCommunity(sent, recv, escrow, now, env).Ok? <==>
      exists data: CommunityProofData ::
        && Community.ProofOf(sent, recv, env.inflate, env.utf8) == Ok(data)
        && data.tradeOfferId == escrow.tradeOfferId
        && (data.proverSteamId == escrow.sellerSteamId || data.proverSteamId == escrow.buyerSteamId)
        && Abandoned(escrow, now)
    ensures forall data :: Community.ProofOf(sent, recv, env.inflate, env.utf8) == Ok(data) ==> data.tradeNotFound
  {
    var proof := Community.ProofOf(sent, recv, env.inflate, env.utf8);
    if proof.Ok? {
      Community.ProofExact(sent, recv, env.inflate, env.utf8, proof.value);
    }
  }

  predicate Abandoned(escrow: EscrowSnapshot, now: u64) { now >= AbandonmentDeadline(escrow) }

  /** A refund is due from the end of the waiting period on, where that fits 64 bits. */
  lemma AbandonedIff(escrow: EscrowSnapshot, now: u64)
    requires escrow.purchaseTime + escrow.abandonedWindow <= U64_MAX
    ensures Abandoned(escrow, now) <==> now >= escrow.purchaseTime + escrow.abandonedWindow
  {}

  /** The waiting period is kept for all clocks exactly when the deadline sum fits 64 bits. */
  lemma WaitingPeriodKeptIff(escrow: EscrowSnapshot)
    ensures (forall now: u64 :: Abandoned(escrow, now) ==> now >= escrow.purchaseTime + escrow.abandonedWindow)
       <==> escrow.purchaseTime + escrow.abandonedWindow <= U64_MAX
  {
    assert Abandoned(escrow, AbandonmentDeadline(escrow));
  }

  /** An escrow whose period is lost: the sum wraps to zero. */
  lemma WaitingPeriodLost(escrow: EscrowSnapshot)
    requires escrow.purchaseTime == 1 && escrow.abandonedWindow == U64_MAX
    ensures Abandoned(escrow, 0)
  {}

  // Fault attribution, from the parties' point of view ---------------------------------------

  datatype Party = Seller | Buyer

  function Other(p: Party): Party { if p.Seller? then Buyer else Seller }

  function SteamIdOf(p: Party, escrow: EscrowSnapshot): u64 {
    if p.Seller? then escrow.sellerSteamId else escrow.buyerSteamId
  }

  /** The offer itself, independent of who looks at it. */
  datatype Offer = Offer(
    id: u64,
    state: u32,
    creator: Party,
    fromSeller: Option<seq<TradeItem>>,
    fromBuyer: Option<seq<TradeItem>>)

  /** The record Steam shows to one of the two parties. */
  ghost predicate IsView(view: OfferRecord, offer: Offer, viewer: Party, escrow: EscrowSnapshot) {
    && ParseU64(view.tradeofferid) == Some(offer.id)
    && view.state == offer.state
    && (view.accountidOther + 76_561_197_960_265_728) % 0x1_0000_0000_0000_0000 == SteamIdOf(Other(viewer), escrow)
    && view.itemsToGive == (if viewer.Seller? then offer.fromSeller else offer.fromBuyer)
    && view.itemsToReceive == (if viewer.Seller? then offer.fromBuyer else offer.fromSeller)
    && (view.isOurOffer.Some? ==> view.isOurOffer.value == (offer.creator == viewer))
  }

  /** What an offer between the parties deserves. Expiry and refusal are the recipient's doing, cancelling the sender's. */
  function Deserved(requestId: Option<u64>, offer: Offer, escrow: EscrowSnapshot): Verdict {
    if requestId.Some? && requestId.value != escrow.tradeOfferId then
      Err(TradeOfferIdMismatch(escrow.tradeOfferId, requestId.value))
    else if offer.id != escrow.tradeOfferId then Err(TradeOfferIdMismatch(escrow.tradeOfferId, offer.id))
    else
      match FirstCs2AssetId(offer.fromSeller)
      case None => Refunded(escrow, NotCS2Item)
      case Some(assetId) =>
        var sender, recipient := offer.creator, Other(offer.creator);
        if assetId != escrow.assetId then Refunded(escrow, WrongAsset)
        else if offer.state == 5 then Refunded(escrow, if recipient.Buyer? then BuyerExpired else SellerExpired)
        else if offer.state == 6 then Refunded(escrow, if sender.Buyer? then BuyerCanceled else SellerCanceled)
        else if offer.state == 7 then Refunded(escrow, if recipient.Buyer? then BuyerDeclined else SellerDeclined)
        else if offer.state == 8 then Refunded(escrow, InvalidItems)
        else if offer.state == 10 then Refunded(escrow, Canceled2FA)
        else Err(NonTerminalState(offer.state))
  }

  /** Whoever captures the proof, the verdict is what the offer deserves: both views give the same result. */
  lemma CapturerIndependence(requestId: Option<u64>, view: OfferRecord, offer: Offer, viewer: Party, escrow: EscrowSnapshot)
    requires IsView(view, offer, viewer, escrow) && view.isOurOffer.Some?
    requires escrow.sellerSteamId != escrow.buyerSteamId
    ensures OfferData(view).Ok?
    ensures DecideOnOffer(requestId, OfferData(view).value, escrow) == Deserved(requestId, offer, escrow)
  {}

  /** The same for the whole decision: a captured view of the offer gets what the offer deserves. */
  lemma OfferDecided(sent: bytes, recv: bytes, body: bytes, view: OfferRecord, offer: Offer, viewer: Party,
                     escrow: EscrowSnapshot, now: u64, env: Env)
    requires Http.DetectProofSource(sent) == Some(TradeOffer) && Http.ExtractHttpBody(recv, env.inflate, env.utf8) == Ok(body)
    requires env.offerJson(body) == Some(Some(view)) && IsView(view, offer, viewer, escrow) && view.isOurOffer.Some?
    requires escrow.sellerSteamId != escrow.buyerSteamId
    ensures Decide(STEAM_API_HOST, sent, recv, escrow, now, env) == Deserved(Http.TradeOfferIdInRequest(sent), offer, escrow)
  {
    RouteExact(STEAM_API_HOST, sent, TradeOffer);
    CapturerIndependence(Http.TradeOfferIdInRequest(sent), view, offer, viewer, escrow);
  }

  /** A captured trade is refunded for a reason on exactly the records that call for it. */
  lemma TradeRefunded(sent: bytes, recv: bytes, body: bytes, trades: seq<StatusRecord>, escrow: EscrowSnapshot, now: u64,
                      env: Env, reason: RefundReason)
    requires Http.DetectProofSource(sent) == Some(TradeStatus) && Http.ExtractHttpBody(recv, env.inflate, env.utf8) == Ok(body)
    requires env.statusJson(body) == Some(Some(trades)) && trades != []
    ensures Decide(STEAM_API_HOST, sent, recv, escrow, now, env) == Refunded(escrow, reason)
       <==> RefundableTrade(trades[0], escrow, reason)
  {
    RouteExact(STEAM_API_HOST, sent, TradeStatus);
    StatusRefundExact(body, escrow, now, env, reason);
  }

  /** Why a captured trade decides nothing. */
  lemma TradeUndecided(json: bytes, trades: seq<StatusRecord>, escrow: EscrowSnapshot, now: u64, env: Env)
    requires env.statusJson(json) == Some(Some(trades)) && trades != []
    ensures var t := trades[0]; var v := DecideTradeStatus(json, escrow, now, env);
      var given := FirstCs2AssetId(t.assetsGiven) == Some(escrow.assetId);
      var partner := if t.steamidOther.Some? then ParseU64(t.steamidOther.value) else None;
      && (v == Err(NonTerminalState(t.status)) <==> t.status !in {3, 4, 5, 6, 7, 8, 9, 11, 12})
      && (v == Err(InvalidReleaseProof(escrow.assetId)) <==> t.status == 3 && !given)
      && (v == Err(ParseFailed(JsonParse)) <==> t.status == 3 && given && partner == None)
      && (v == Err(MissingTimeSettlement) <==>
            t.status == 3 && given && partner == Some(escrow.buyerSteamId) && t.timeSettlement == None)
      && (forall at: u64 :: v == Err(EscrowNotPassed(at, now)) <==>
            t.status == 3 && given && partner == Some(escrow.buyerSteamId) && t.timeSettlement == Some(at) && at > now)
      && (v.Err? && v.error.AssetIdMismatch? <==>
            t.status in {4, 5, 6, 7, 8, 9, 11, 12} && !Involves(t, escrow.assetId))
      && (v.Err? && v.error.AssetIdMismatch? ==>
            v.error.expectedAsset == escrow.assetId && forall a: u64 :: v.error.gotAsset == Some(a) <==> Involves(t, a))
  {
    assert ParseTradeStatus(json, env) == Ok(StatusData(trades[0]));
  }

  /** A page that proves the offer missing is refunded from the deadline on, if a party shows it for this offer. */
  lemma AbandonmentDecided(sent: bytes, recv: bytes, body: bytes, data: CommunityProofData, escrow: EscrowSnapshot, now: u64,
                           env: Env)
    requires Http.DetectProofSource(sent) == Some(ProofSource.Community)
    requires Http.ExtractHttpBody(recv, env.inflate, env.utf8) == Ok(body)
    requires Community.ProofOf(sent, recv, env.inflate, env.utf8) == Ok(data)
    ensures Decide(STEAM_COMMUNITY_HOST, sent, recv, escrow, now, env) == Refunded(escrow, TradeNotExist) <==>
      && data.tradeOfferId == escrow.tradeOfferId && data.proverSteamId in {escrow.sellerSteamId, escrow.buyerSteamId}
      && Abandoned(escrow, now)
  {
    RouteExact(STEAM_COMMUNITY_HOST, sent, ProofSource.Community);
    AbandonmentExact(sent, recv, escrow, now, env);
  }

  /** Why such a page decides nothing. */
  lemma AbandonmentUndecided(sent: bytes, recv: bytes, data: CommunityProofData, escrow: EscrowSnapshot, now: u64, env: Env)
    requires Community.ProofOf(sent, recv, env.inflate, env.utf8) == Ok(data)
    ensures var v := DecideCommunity(sent, recv, escrow, now, env);
      var party := data.proverSteamId in {escrow.sellerSteamId, escrow.buyerSteamId};
      && (v == Err(TradeOfferIdMismatch(escrow.tradeOfferId, data.tradeOfferId)) <==> data.tradeOfferId != escrow.tradeOfferId)
      && (v == Err(PartnerMismatch(escrow.buyerSteamId, data.proverSteamId)) <==>
            data.tradeOfferId == escrow.tradeOfferId && !party)
      && (v == Err(TooEarlyForAbandonment(now, AbandonmentDeadline(escrow))) <==>
            data.tradeOfferId == escrow.tradeOfferId && party && !Abandoned(escrow, now))
  {
    Community.ProofExact(sent, recv, env.inflate, env.utf8, data);
  }

  lemma RecordErrors(json: bytes, env: Env)
    ensures ParseTradeOffer(json, env) == Err(JsonParse) <==> env.offerJson(json) == None
    ensures ParseTradeOffer(json, env) == Err(TradeNotFound) <==> env.offerJson(json) == Some(None)
    ensures ParseTradeStatus(json, env) == Err(JsonParse) <==> env.statusJson(json) == None
    ensures ParseTradeStatus(json, env) == Err(TradeNotFound) <==>
              env.statusJson(json).Some? && (env.statusJson(json).value == None || |env.statusJson(json).value.value| == 0)
  {}

  /** Steam may omit `is_our_offer`; the source then reads `false`. Such a view is still judged as the offer
      deserves exactly when its viewer did not create the offer, or fault does not depend on the creator. */
  lemma OmittedFlagHarmlessIff(requestId: Option<u64>, view: OfferRecord, offer: Offer, viewer: Party, escrow: EscrowSnapshot)
    requires IsView(view, offer, viewer, escrow) && view.isOurOffer.None?
    requires escrow.sellerSteamId != escrow.buyerSteamId
    ensures OfferData(view).Ok?
    ensures DecideOnOffer(requestId, OfferData(view).value, escrow) == Deserved(requestId, offer, escrow) <==>
      || offer.creator != viewer
      || offer.state !in {5, 6, 7}
      || (requestId.Some? && requestId.value != escrow.tradeOfferId)
      || offer.id != escrow.tradeOfferId
      || FirstCs2AssetId(offer.fromSeller) != Some(escrow.assetId)
  {}

  // An expired offer of the seller's, as the seller sees it and without the flag.

  const BLAMED_ESCROW := EscrowSnapshot(7, 5, 76_561_197_960_265_729, 76_561_197_960_265_730, 0, 0)
  const BLAMED_ITEMS := [TradeItem(CS2_APP_ID, Decimal.Print(7))]
  const BLAMED_VIEW := OfferRecord(Decimal.Print(5), 5, 2, Some(BLAMED_ITEMS), None, None)

  /** The buyer let it expire, and the seller is blamed. */
  lemma OmittedFlagBlamesSeller()
    ensures IsView(BLAMED_VIEW, Offer(5, 5, Seller, Some(BLAMED_ITEMS), None), Seller, BLAMED_ESCROW)
    ensures Deserved(None, Offer(5, 5, Seller, Some(BLAMED_ITEMS), None), BLAMED_ESCROW) == Refunded(BLAMED_ESCROW, BuyerExpired)
    ensures OfferData(BLAMED_VIEW).Ok?
    ensures DecideOnOffer(None, OfferData(BLAMED_VIEW).value, BLAMED_ESCROW) == Refunded(BLAMED_ESCROW, SellerExpired)
  {
    Decimal.ParsePrinted(5, U64_MAX);
    Decimal.ParsePrinted(7, U64_MAX);
    assert FirstCs2(BLAMED_ITEMS) == Some(7);
  }
}
