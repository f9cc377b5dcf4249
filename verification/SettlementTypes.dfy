/** The records and enumerations of settlement/types.rs, and the errors of parsing.rs. */
module SettlementTypes {
  import opened Prelude

  const STEAM64_OFFSET: u64 := 76561197960265728

  datatype EscrowSnapshot = EscrowSnapshot(
    assetId: u64,
    tradeOfferId: u64,
    sellerSteamId: u64,
    buyerSteamId: u64,
    purchaseTime: u64,
    abandonedWindow: u64)

  datatype Decision = Release | Refund

  datatype RefundReason =
    | NoReason | Timeout | NotCS2Item | WrongAsset | WrongParties | InvalidItems | Canceled2FA
    | BuyerExpired | SellerExpired | BuyerCanceled | SellerCanceled | BuyerDeclined | SellerDeclined
    | WrongRecipient | TradeRollback | DeprecatedRollback | TradeNotExist

  function DecisionCode(d: Decision): u8 { if d.Release? then 0 else 1 }

  function ReasonCode(r: RefundReason): u8 {
    match r
    case NoReason => 0
    case Timeout => 1
    case NotCS2Item => 2
    case WrongAsset => 3
    case WrongParties => 4
    case InvalidItems => 5
    case Canceled2FA => 6
    case BuyerExpired => 7
    case SellerExpired => 8
    case BuyerCanceled => 9
    case SellerCanceled => 10
    case BuyerDeclined => 11
    case SellerDeclined => 12
    case WrongRecipient => 13
    case TradeRollback => 14
    case DeprecatedRollback => 15
    case TradeNotExist => 16
  }

  datatype Settlement = Settlement(assetId: u64, tradeOfferId: u64, decision: Decision, refundReason: RefundReason)

  /** What the session-result route returns. */
  datatype SettlementResult = SettlementResult(signature: bytes, assetId: u64, decision: u8, refundReason: u8)

  datatype ProofSource = TradeOffer | TradeStatus | Community

  datatype TradeOfferData = TradeOfferData(
    state: u32,
    tradeOfferId: u64,
    partnerSteamId: u64,
    assetToGive: Option<u64>,
    assetToReceive: Option<u64>,
    isOurOffer: bool)

  datatype TradeStatusData = TradeStatusData(
    status: u32,
    partnerSteamId: Option<u64>,
    assetIdGiven: Option<u64>,
    assetId: Option<u64>,
    timeSettlement: Option<u64>)

  datatype CommunityProofData = CommunityProofData(proverSteamId: u64, tradeOfferId: u64, tradeNotFound: bool)

  /** `SliceOutOfRange` is not an error value of the source: it marks the input on which its slice panics. */
  datatype ParseError =
    | NoJsonBody | InvalidGzip | UnsupportedCompression | InvalidGzipHeader | InvalidGzipData
    | DecompressionFailed | DecompressedTooLarge | InvalidUtf8 | MissingTradeOfferId | MissingCookie
    | InvalidCookieFormat | NumberOverflow | ResponseTooLarge | TradeNotFound | CommunityTradeExists
    | JsonParse | SliceOutOfRange

  // What one notarization is made of ----------------------------------------------------------

  datatype MpcTlsResult = MpcTlsResult(serverName: Option<string>, sent: bytes, recv: bytes)

  // The contracts' mappings, with the widths of their ABI. A key without an entry reads as zeros.

  type u40 = x: int | 0 <= x < 0x100_0000_0000
  type u48 = x: int | 0 <= x < TWO_48
  type u256 = x: int | 0 <= x < TWO_64 * TWO_64 * TWO_64 * TWO_64

  const TWO_48 := 0x1_0000_0000_0000
  const ZERO_ADDRESS: Wallet := 0

  type Wallet = nat

  datatype Purchase = Purchase(buyer: Wallet, purchaseTime: u40, status: u8, tradeOfferId: u48)

  datatype Listing = Listing(seller: Wallet, listed: bool)

  datatype ChainState = ChainState(
    purchases: map<u64, Purchase>,
    listings: map<u64, Listing>,
    steamIds: map<Wallet, u256>,
    abandonedWindow: u256)

  /** Everything one notarization learns from outside; `Interrupted` covers every early error and timeout. */
  datatype Evidence =
    | Interrupted
    | Gathered(mpc: MpcTlsResult, chain: ChainState, now: u64)

  datatype Outcome = Settled(result: SettlementResult) | Failed
}
