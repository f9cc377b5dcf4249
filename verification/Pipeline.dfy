/** From a session's asset id to a signed settlement: steps 1 to 3 of `handle_notarize_websocket` and
    `create_settlement_result`, with the outside world as evidence. */
module Pipeline {
  import opened Prelude
  import opened SettlementTypes
  import Gzip
  import Http
  import Oracle
  import opened Signer

  // The escrow reader -----------------------------------------------------------------------

  function PurchaseOf(chain: ChainState, assetId: u64): Purchase {
    if assetId in chain.purchases then chain.purchases[assetId] else Purchase(ZERO_ADDRESS, 0, 0, 0)
  }

  function ListingOf(chain: ChainState, assetId: u64): Listing {
    if assetId in chain.listings then chain.listings[assetId] else Listing(ZERO_ADDRESS, false)
  }

  /** `as_limbs()[0]` of a 256-bit number. */
  function LowLimb(n: nat): u64 { n % TWO_64 }

  function SteamIdOf(chain: ChainState, wallet: Wallet): u64 {
    LowLimb(if wallet in chain.steamIds then chain.steamIds[wallet] else 0)
  }

  /** `read_escrow` on a chain in this state, or no escrow. */
  function ReadEscrow(assetId: u64, chain: ChainState): Option<EscrowSnapshot> {
    var purchase, listing := PurchaseOf(chain, assetId), ListingOf(chain, assetId);
    var seller, buyer := SteamIdOf(chain, listing.seller), SteamIdOf(chain, purchase.buyer);
    if purchase.buyer == ZERO_ADDRESS || purchase.status != 0 || !listing.listed || seller == 0 || buyer == 0 then None
    else
      Some(EscrowSnapshot(assetId, purchase.tradeOfferId, seller, buyer, purchase.purchaseTime,
                          LowLimb(chain.abandonedWindow)))
  }

  /** The contract's own waiting period is kept at all times exactly if it ends within 64 bits. */
  lemma ContractPeriodKeptIff(assetId: u64, chain: ChainState)
    requires ReadEscrow(assetId, chain).Some?
    ensures (forall now: u64 :: Oracle.Abandoned(ReadEscrow(assetId, chain).value, now) ==>
               now >= PurchaseOf(chain, assetId).purchaseTime + chain.abandonedWindow)
       <==> PurchaseOf(chain, assetId).purchaseTime + chain.abandonedWindow <= U64_MAX
  {
    var escrow := ReadEscrow(assetId, chain).value;
    assert Oracle.Abandoned(escrow, Oracle.AbandonmentDeadline(escrow));
    if chain.abandonedWindow < TWO_64 { LowLimbSmall(chain.abandonedWindow); }
  }

  lemma LowLimbSmall(n: nat)
    requires n < TWO_64
    ensures LowLimb(n) == n
  {}

  const MAX_WINDOW := 72 * 3600

  /** It is for every window up to the 72 hours the contract allows. */
  lemma ContractPeriodKept(assetId: u64, chain: ChainState, now: u64)
    requires ReadEscrow(assetId, chain).Some? && chain.abandonedWindow <= MAX_WINDOW
    requires Oracle.Abandoned(ReadEscrow(assetId, chain).value, now)
    ensures now >= PurchaseOf(chain, assetId).purchaseTime + chain.abandonedWindow
  {
    ContractPeriodKeptIff(assetId, chain);
  }

  /** A window of 2^64 seconds is read as none: the refund is due at once, with no sum overflowing. */
  lemma LongWindowLost(assetId: u64, chain: ChainState)
    requires ReadEscrow(assetId, chain).Some? && chain.abandonedWindow == TWO_64
    ensures Oracle.Abandoned(ReadEscrow(assetId, chain).value, PurchaseOf(chain, assetId).purchaseTime)
  {}

  // Decision and signature ------------------------------------------------------------------

  function SettlementDigest(s: Settlement, key: Signing): Signer.Word {
    key.hash(Signer.DigestPreimage(key.domainSeparator, key.hash(Signer.SettlementPreimage(key.typeHash, s))))
  }

  function ServerOf(mpc: MpcTlsResult): string { if mpc.serverName.Some? then mpc.serverName.value else "" }

  /** What becomes of a verdict. None: the slice in `decompress_gzip` panicked, and the handler unwinds. */
  function SignVerdict(v: Oracle.Verdict, key: Signing): Option<Outcome> {
    match v
    case Err(ParseFailed(SliceOutOfRange)) => None
    case Err(_) => Some(Failed)
    case Ok(s) =>
      match key.ecdsa(SettlementDigest(s, key))
      case None => Some(Failed)
      case Some(signature) =>
        Some(Settled(SettlementResult(signature, s.assetId, DecisionCode(s.decision), ReasonCode(s.refundReason))))
  }

  /** `create_settlement_result`. */
  function CreateSettlementResult(mpc: MpcTlsResult, escrow: EscrowSnapshot, now: u64, env: Oracle.Env, key: Signing)
    : Option<Outcome>
  {
    SignVerdict(Oracle.Decide(ServerOf(mpc), mpc.sent, mpc.recv, escrow, now, env), key)
  }

  function Notarize(assetId: u64, evidence: Evidence, env: Oracle.Env, key: Signing): Option<Outcome> {
    match evidence
    case Interrupted => Some(Failed)
    case Gathered(mpc, chain, now) =>
      match ReadEscrow(assetId, chain)
      case None => Some(Failed)
      case Some(escrow) => CreateSettlementResult(mpc, escrow, now, env, key)
  }

  // What a result rests on ------------------------------------------------------------------

  /** The result follows from this very evidence. */
  ghost predicate Justified(assetId: u64, r: SettlementResult, evidence: Evidence, env: Oracle.Env, key: Signing) {
    evidence.Gathered? && exists s :: JustifiedBy(assetId, r, evidence.mpc, evidence.chain, evidence.now, s, env, key)
  }

  /** A wallet with a Steam id of its own. */
  ghost predicate Registered(chain: ChainState, wallet: Wallet) {
    wallet in chain.steamIds && chain.steamIds[wallet] % TWO_64 != 0
  }

  /** An active purchase of a listed asset, both parties registered. */
  ghost predicate InEscrow(assetId: u64, chain: ChainState) {
    && assetId in chain.purchases && chain.purchases[assetId].buyer != 0 && chain.purchases[assetId].status == 0
    && assetId in chain.listings && chain.listings[assetId].listed
    && Registered(chain, chain.purchases[assetId].buyer) && Registered(chain, chain.listings[assetId].seller)
  }

  /** The escrow that the contracts' tables hold: the listing's seller, the purchase's buyer, offer and time. */
  ghost function ChainEscrow(assetId: u64, chain: ChainState): EscrowSnapshot
    requires InEscrow(assetId, chain)
  {
    var purchase, listing := chain.purchases[assetId], chain.listings[assetId];
    EscrowSnapshot(
      assetId := assetId,
      tradeOfferId := purchase.tradeOfferId,
      sellerSteamId := chain.steamIds[listing.seller] % TWO_64,
      buyerSteamId := chain.steamIds[purchase.buyer] % TWO_64,
      purchaseTime := purchase.purchaseTime,
      abandonedWindow := chain.abandonedWindow % TWO_64)
  }

  /** What is read is what the tables hold. */
  lemma ReadEscrowExact(assetId: u64, chain: ChainState)
    ensures ReadEscrow(assetId, chain) == if InEscrow(assetId, chain) then Some(ChainEscrow(assetId, chain)) else None
  {}

  /** The result is about this asset, was decided on the transcript and on the escrow that was read for this very asset,
      and its signature is over what the contract itself hashes: this asset, the trade offer committed for it, decision and reason. */
  ghost predicate JustifiedBy(assetId: u64, r: SettlementResult, mpc: MpcTlsResult, chain: ChainState, now: u64,
                              s: Settlement, env: Oracle.Env, key: Signing)
  {
    && mpc.serverName.Some? && InEscrow(assetId, chain)
    && Oracle.Decide(mpc.serverName.value, mpc.sent, mpc.recv, ChainEscrow(assetId, chain), now, env) == Ok(s)
    && s.assetId == assetId && s.tradeOfferId == chain.purchases[assetId].tradeOfferId
    && key.ecdsa(ContractDigest(s, key)) == Some(r.signature)
    && r.assetId == assetId
    && Signer.DecodeDecision(r.decision) == Some(s.decision)
    && Signer.DecodeReason(r.refundReason) == Some(s.refundReason)
    && (r.decision == 0 ==>
          Oracle.ReleaseProof(mpc.serverName.value, mpc.sent, mpc.recv, ChainEscrow(assetId, chain), now, env))
  }

  /** What the contract recovers the signer from. */
  function ContractDigest(s: Settlement, key: Signing): Signer.Word {
    key.hash(Signer.DigestPreimage(key.domainSeparator, key.hash(Signer.ContractPreimage(key.typeHash, s))))
  }

  /** Whatever is decided on an escrow read from the chain is hashed by the contract as by the oracle: ids of more than
      48 bits cannot be read. */
  lemma SignedForContract(assetId: u64, chain: ChainState, server: string, sent: bytes, recv: bytes, now: u64,
                          env: Oracle.Env, key: Signing)
    requires ReadEscrow(assetId, chain).Some?
    ensures var v := Oracle.Decide(server, sent, recv, ReadEscrow(assetId, chain).value, now, env);
      v.Ok? ==> Signer.SettlementPreimage(key.typeHash, v.value) == Signer.ContractPreimage(key.typeHash, v.value)
                && SettlementDigest(v.value, key) == ContractDigest(v.value, key)
  {
    var escrow := ReadEscrow(assetId, chain).value;
    var v := Oracle.Decide(server, sent, recv, escrow, now, env);
    Oracle.VerdictBinding(server, sent, recv, escrow, now, env);
    if v.Ok? { Signer.ContractAgreesIff(key.typeHash, v.value); }
  }

  /** A settled outcome is about the asset asked for, signs that asset's own trade offer, and says what was signed. */
  lemma SettledIsJustified(assetId: u64, evidence: Evidence, env: Oracle.Env, key: Signing)
    requires var outcome := Notarize(assetId, evidence, env, key); outcome.Some? && outcome.value.Settled?
    ensures Justified(assetId, Notarize(assetId, evidence, env, key).value.result, evidence, env, key)
  {
    var mpc, chain, now := evidence.mpc, evidence.chain, evidence.now;
    var escrow := ReadEscrow(assetId, chain).value;
    var server := ServerOf(mpc);
    var s := Oracle.Decide(server, mpc.sent, mpc.recv, escrow, now, env).value;
    ReadEscrowExact(assetId, chain);
    ServerNamed(mpc, escrow, now, env, key);
    Oracle.VerdictBinding(server, mpc.sent, mpc.recv, escrow, now, env);
    Oracle.ReleaseExact(server, mpc.sent, mpc.recv, escrow, now, env);
    SignedForContract(assetId, chain, server, mpc.sent, mpc.recv, now, env, key);
    Signer.CodesDecode(s.decision, s.refundReason);
    assert JustifiedBy(assetId, Notarize(assetId, evidence, env, key).value.result, mpc, chain, now, s, env, key);
  }

  lemma CodesUnique(decision: u8, reason: u8)
    ensures forall d :: Signer.DecodeDecision(decision) == Some(d) ==> decision == DecisionCode(d)
    ensures forall r :: Signer.DecodeReason(reason) == Some(r) ==> reason == ReasonCode(r)
  {}

  /** And exactly then is it settled: evidence that justifies a result leads to it. */
  lemma SettledIff(assetId: u64, evidence: Evidence, r: SettlementResult, env: Oracle.Env, key: Signing)
    ensures Notarize(assetId, evidence, env, key) == Some(Settled(r)) <==> Justified(assetId, r, evidence, env, key)
  {
    if Notarize(assetId, evidence, env, key) == Some(Settled(r)) { SettledIsJustified(assetId, evidence, env, key); }
    if Justified(assetId, r, evidence, env, key) {
      var s :| JustifiedBy(assetId, r, evidence.mpc, evidence.chain, evidence.now, s, env, key);
      ReadEscrowExact(assetId, evidence.chain);
      SignedForContract(assetId, evidence.chain, ServerOf(evidence.mpc), evidence.mpc.sent, evidence.mpc.recv, evidence.now, env, key);
      CodesUnique(r.decision, r.refundReason);
    }
  }

  /** A settlement comes only of a session with one of the two Steam hosts. */
  lemma ServerNamed(mpc: MpcTlsResult, escrow: EscrowSnapshot, now: u64, env: Oracle.Env, key: Signing)
    ensures var outcome := CreateSettlementResult(mpc, escrow, now, env, key);
      outcome.Some? && outcome.value.Settled? ==>
        mpc.serverName in {Some(Oracle.STEAM_API_HOST), Some(Oracle.STEAM_COMMUNITY_HOST)}
  {
    var route := Oracle.Route(ServerOf(mpc), mpc.sent);
    if route.Ok? { Oracle.RouteExact(ServerOf(mpc), mpc.sent, route.value); }
  }

  // When a handler unwinds ------------------------------------------------------------------

  /** A response within limits whose body is a gzip header that ends inside the trailer. */
  ghost predicate CutResponse(recv: bytes) {
    && |recv| <= Http.MAX_RAW_RESPONSE_SIZE && Http.BodyStart(recv).Some?
    && |recv[Http.BodyStart(recv).value..]| >= 18 && exists m :: Gzip.CutInTrailer(recv[Http.BodyStart(recv).value..], m)
  }

  const CUT_BODY: bytes := [0x1f, 0x8b, 8, 0x04, 0, 0, 0, 0, 0, 0, 3, 0, 0, 0, 0, 0, 0, 0]

  /** There are such responses: a blank line and an 18-byte gzip body whose extra field ends three bytes before the end. */
  lemma CutResponseExists()
    ensures CutResponse(Http.BLANK_LINE + CUT_BODY)
  {
    var recv := Http.BLANK_LINE + CUT_BODY;
    assert recv[0..4] == Http.BLANK_LINE;
    assert Http.BodyStart(recv) == Some(4);
    assert recv[4..] == CUT_BODY;
    assert CUT_BODY == [0x1f, 0x8b, 8, 0x04, 0, 0, 0, 0, 0, 0, 3, 0] + [0, 0, 0, 0, 0, 0];
    Gzip.BoundsTestMissesTrailer();
    Gzip.SliceOutOfRangeIff(CUT_BODY);
  }

  lemma BodyPanicsIff(recv: bytes, inflate: Gzip.Inflate, utf8: bytes -> bool)
    ensures Http.ExtractHttpBody(recv, inflate, utf8) == Err(SliceOutOfRange) <==> CutResponse(recv)
  {
    if Http.BodyStart(recv).Some? {
      var body := recv[Http.BodyStart(recv).value..];
      Gzip.SliceOutOfRangeIff(body);
      if |body| >= 18 && Gzip.Payload(body) == Err(SliceOutOfRange) { assert body[0] == 0x1f && body[1] == 0x8b; }
    }
  }

  lemma PanicPassesThrough(v: Oracle.Verdict, key: Signing)
    ensures SignVerdict(v, key) == None <==> v == Err(Oracle.ParseFailed(SliceOutOfRange))
  {}

  lemma SettlementUnwindsIff(mpc: MpcTlsResult, escrow: EscrowSnapshot, now: u64, env: Oracle.Env, key: Signing)
    ensures CreateSettlementResult(mpc, escrow, now, env, key) == None
       <==> Oracle.Route(ServerOf(mpc), mpc.sent).Ok? && CutResponse(mpc.recv)
  {
    PanicPassesThrough(Oracle.Decide(ServerOf(mpc), mpc.sent, mpc.recv, escrow, now, env), key);
    Oracle.PanicIsBody(ServerOf(mpc), mpc.sent, mpc.recv, escrow, now, env);
    BodyPanicsIff(mpc.recv, env.inflate, env.utf8);
  }

  /** A notarization unwinds exactly if everything is in place for a decision and the response is cut like that. */
  lemma UnwindsIff(assetId: u64, evidence: Evidence, env: Oracle.Env, key: Signing)
    ensures Notarize(assetId, evidence, env, key) == None <==>
      && evidence.Gathered? && InEscrow(assetId, evidence.chain)
      && Oracle.Route(ServerOf(evidence.mpc), evidence.mpc.sent).Ok? && CutResponse(evidence.mpc.recv)
  {
    if evidence.Gathered? {
      ReadEscrowExact(assetId, evidence.chain);
      var escrow := ReadEscrow(assetId, evidence.chain);
      if escrow.Some? { SettlementUnwindsIff(evidence.mpc, escrow.value, evidence.now, env, key); }
    }
  }
}
