/** HTTP-level parsing of parsing.rs: response body, proof source, and the numbers carried by a request. */
module Http {
  import opened Prelude
  import opened SettlementTypes
  import opened Search
  import opened Decimal
  import Gzip

  const MAX_RAW_RESPONSE_SIZE := 50 * 1024 * 1024

  const CRLF := Ascii("\r\n")
  const BLANK_LINE := Ascii("\r\n\r\n")
  const GET_TRADE := Ascii("GetTrade")
  const COMMUNITY_DOMAIN := Ascii("steamcommunity.com")
  const COOKIE_HEADER := Ascii("\r\nCookie:")
  const LOGIN_COOKIE := Ascii("steamLoginSecure=")
  const ENCODED_BARS := Ascii("%7C%7C")
  const BARS := Ascii("||")
  const OFFER_PATH := Ascii("/tradeoffer/")

  // Response body ---------------------------------------------------------------------------

  function BodyStart(data: bytes): Option<nat> {
    match Find(data, BLANK_LINE)
    case None => None
    case Some(i) => Some(i + 4)
  }

  method FindJsonStart(data: bytes) returns (r: Option<nat>)
    ensures r == BodyStart(data)
  {
    for i := 0 to if |data| > 3 then |data| - 3 else 0
      invariant forall j :: 0 <= j < i ==> !OccursAt(data, BLANK_LINE, j)
    {
      if data[i..i + 4] == BLANK_LINE {
        assert OccursAt(data, BLANK_LINE, i);
        return Some(i + 4);
      }
    }
    return None;
  }

  function ExtractHttpBody(response: bytes, inflate: Gzip.Inflate, utf8: bytes -> bool): Result<bytes, ParseError> {
    if |response| > MAX_RAW_RESPONSE_SIZE then Err(ResponseTooLarge)
    else
      match BodyStart(response)
      case None => Err(NoJsonBody)
      case Some(start) =>
        var body := response[start..];
        if |body| >= 2 && body[0] == 0x1f && body[1] == 0x8b then
          match Gzip.Decompressed(body, inflate)
          case Err(e) => Err(e)
          case Ok(data) => if utf8(data) then Ok(data) else Err(InvalidUtf8)
        else if utf8(body) then Ok(body)
        else Err(InvalidUtf8)
  }

  const FIFTY_MB := 52_428_800
  const TEN_MB := 10_485_760

  predicate HasGzipMagic(body: bytes) { |body| >= 2 && body[0] == 0x1f && body[1] == 0x8b }

  /** A head ends with its first blank line, and what follows is the body. */
  lemma BodyFollowsHead(head: bytes, body: bytes)
    requires BodyStart(head) == Some(|head|)
    ensures BodyStart(head + body) == Some(|head|) && (head + body)[|head|..] == body
  {
    BodyStartKept(head, body);
  }

  /** A plain body is handed over whole. */
  lemma PlainBodyExact(head: bytes, body: bytes, inflate: Gzip.Inflate, utf8: bytes -> bool)
    requires BodyStart(head) == Some(|head|) && |head| + |body| <= FIFTY_MB && !HasGzipMagic(body)
    ensures ExtractHttpBody(head + body, inflate, utf8) == if utf8(body) then Ok(body) else Err(InvalidUtf8)
  {
    BodyFollowsHead(head, body);
  }

  /** A gzip body is handed over as its payload inflates. */
  lemma GzipBodyExact(head: bytes, m: Gzip.Member, inflate: Gzip.Inflate, utf8: bytes -> bool)
    requires BodyStart(head) == Some(|head|) && Gzip.Laid(m) && |head| + |Gzip.Layout(m)| <= FIFTY_MB
    ensures ExtractHttpBody(head + Gzip.Layout(m), inflate, utf8) ==
      match inflate(m.payload)
      case None => Err(DecompressionFailed)
      case Some(data) => if |data| > TEN_MB then Err(DecompressedTooLarge) else if utf8(data) then Ok(data) else Err(InvalidUtf8)
  {
    BodyFollowsHead(head, Gzip.Layout(m));
    Gzip.WalkInvertsLayout(m);
    Gzip.FlagsByte(m);
  }

  /** A body that starts like gzip and is no member is refused as the walk refuses it. */
  lemma BadGzipRefused(head: bytes, body: bytes, inflate: Gzip.Inflate, utf8: bytes -> bool)
    requires BodyStart(head) == Some(|head|) && |head| + |body| <= FIFTY_MB && HasGzipMagic(body) && Gzip.Payload(body).Err?
    ensures ExtractHttpBody(head + body, inflate, utf8) == Err(Gzip.Payload(body).error)
  {
    BodyFollowsHead(head, body);
  }

  lemma SizeAndHeadErrors(response: bytes, inflate: Gzip.Inflate, utf8: bytes -> bool)
    ensures ExtractHttpBody(response, inflate, utf8) == Err(ResponseTooLarge) <==> |response| > FIFTY_MB
    ensures ExtractHttpBody(response, inflate, utf8) == Err(NoJsonBody) <==>
              |response| <= FIFTY_MB && !Contains(response, [13, 10, 13, 10])
  {
    assert BLANK_LINE == [13, 10, 13, 10];
    if BodyStart(response).Some? { BodyErrorsOnly(response[BodyStart(response).value..], inflate); }
  }

  lemma BodyErrorsOnly(body: bytes, inflate: Gzip.Inflate)
    ensures Gzip.Decompressed(body, inflate) != Err(ResponseTooLarge) && Gzip.Decompressed(body, inflate) != Err(NoJsonBody)
  {}

  /** Every response with a blank line is a head and a body. */
  lemma SplitsAtBlankLine(response: bytes)
    requires BodyStart(response).Some?
    ensures var k := BodyStart(response).value; k <= |response| && BodyStart(response[..k]) == Some(k)
  {
    var k := BodyStart(response).value;
    var head := response[..k];
    assert head[k - 4..k] == response[k - 4..k] == BLANK_LINE;
    assert OccursAt(head, BLANK_LINE, k - 4);
    forall j | 0 <= j < k - 4 ensures !OccursAt(head, BLANK_LINE, j) {
      assert head[j..j + 4] == response[j..j + 4];
      assert !OccursAt(response, BLANK_LINE, j);
    }
    var i := Find(head, BLANK_LINE);
    assert i.Some? && i.value == k - 4;
  }

  /** A body sent plain and the same body sent as any gzip member of it are read alike. */
  lemma GzipTransparent(head: bytes, body: bytes, m: Gzip.Member, inflate: Gzip.Inflate, utf8: bytes -> bool)
    requires BodyStart(head) == Some(|head|)
    requires !HasGzipMagic(body) && |body| <= TEN_MB
    requires Gzip.Laid(m) && inflate(m.payload) == Some(body)
    requires |head| + |body| <= FIFTY_MB && |head| + |Gzip.Layout(m)| <= FIFTY_MB
    ensures ExtractHttpBody(head + Gzip.Layout(m), inflate, utf8) == ExtractHttpBody(head + body, inflate, utf8)
  {
    PlainBodyExact(head, body, inflate, utf8);
    GzipBodyExact(head, m, inflate, utf8);
  }

  lemma BodyStartKept(head: bytes, body: bytes)
    requires BodyStart(head) == Some(|head|)
    ensures BodyStart(head + body) == Some(|head|)
  {
    var end := |head| - 4;
    forall j | 0 <= j <= end
      ensures OccursAt(head + body, BLANK_LINE, j) == OccursAt(head, BLANK_LINE, j)
    {
      assert (head + body)[j..j + 4] == head[j..j + 4];
    }
  }

  // Proof source ----------------------------------------------------------------------------

  function DetectProofSource(request: bytes): Option<ProofSource> {
    match Find(request, GET_TRADE)
    case Some(pos) =>
      if pos + 8 < |request| then
        if request[pos + 8] == 'O' as int then Some(TradeOffer)
        else if request[pos + 8] == 'S' as int then Some(TradeStatus)
        else None
      else None
    case None =>
      if Find(request, COMMUNITY_DOMAIN).Some? then Some(Community) else None
  }

  // Numbers in a request --------------------------------------------------------------------

  ghost predicate FirstOccurrence(data: bytes, pattern: bytes, i: nat) {
    OccursAt(data, pattern, i) && forall j :: 0 <= j < i ==> !OccursAt(data, pattern, j)
  }

  /** The letter after the first "GetTrade". */
  ghost predicate ProofLetter(request: bytes, letter: char) {
    exists i: nat :: FirstOccurrence(request, Ascii("GetTrade"), i) && i + 8 < |request| && request[i + 8] == letter as int
  }

  /** The letter after the first "GetTrade" decides; only a request without any can be a community proof. */
  lemma DetectExact(request: bytes, source: ProofSource)
    ensures DetectProofSource(request) == Some(source) <==>
      match source
      case TradeOffer => ProofLetter(request, 'O')
      case TradeStatus => ProofLetter(request, 'S')
      case Community => !Contains(request, Ascii("GetTrade")) && Contains(request, Ascii("steamcommunity.com"))
  {
    FirstIsFound(request, GET_TRADE);
  }

  lemma FirstIsFound(data: bytes, pattern: bytes)
    requires pattern != []
    ensures forall i: nat :: FirstOccurrence(data, pattern, i) <==> Find(data, pattern) == Some(i)
    ensures Contains(data, pattern) <==> Find(data, pattern).Some?
  {}

  predicate IsPadding(b: u8) { b == ' ' as int || b == '"' as int }

  function SkipPadding(data: bytes, i: nat): (r: nat)
    requires i <= |data|
    ensures i <= r <= |data|
    decreases |data| - i
  {
    if i < |data| && IsPadding(data[i]) then SkipPadding(data, i + 1) else i
  }

  /** A nonempty digit run at `start` that fits 20 digits and 64 bits. */
  function NumberAt(data: bytes, start: nat): Option<u64>
    requires start <= |data|
  {
    match ScanOf(data, start)
    case Overflow => None
    case Scanned(value, end) => if end > start then Some(value) else None
  }

  function NumberAfter(data: bytes, pattern: bytes): Option<u64> {
    match Find(data, pattern)
    case None => None
    case Some(pos) => NumberAt(data, SkipPadding(data, pos + |pattern|))
  }

  method ExtractNumberAfterPattern(data: bytes, pattern: bytes) returns (r: Option<u64>)
    ensures r == NumberAfter(data, pattern)
  {
    var found := Find(data, pattern);
    if found.None? { return None; }
    var start := found.value + |pattern|;
    var i := start;
    while i < |data| && IsPadding(data[i])
      invariant start <= i <= |data| && SkipPadding(data, i) == SkipPadding(data, start)
    {
      i := i + 1;
    }
    var scan := ScanDigits(data, i);
    match scan
    case Overflow => return None;
    case Scanned(value, end) => return if end > i then Some(value) else None;
  }

  function TradeOfferIdInRequest(request: bytes): Option<u64> {
    var first := NumberAfter(request, Ascii("tradeofferid="));
    if first.Some? then first else
    var second := NumberAfter(request, Ascii("tradeOfferid="));
    if second.Some? then second else
    NumberAfter(request, Ascii("TradeOfferId="))
  }

  /** The number that follows the pattern immediately. */
  function NumberRightAfter(request: bytes, path: bytes): Option<u64> {
    match Find(request, path)
    case None => None
    case Some(pos) => NumberAt(request, pos + |path|)
  }

  function TradeOfferIdInUrl(request: bytes): Option<u64> { NumberRightAfter(request, OFFER_PATH) }

  method ExtractTradeOfferIdFromUrl(request: bytes) returns (r: Option<u64>)
    ensures r == TradeOfferIdInUrl(request)
  {
    r := ExtractNumberRightAfter(request, OFFER_PATH);
  }

  method ExtractNumberRightAfter(request: bytes, path: bytes) returns (r: Option<u64>)
    ensures r == NumberRightAfter(request, path)
  {
    var found := Find(request, path);
    if found.None? { return None; }
    var start := found.value + |path|;
    var scan := ScanDigits(request, start);
    match scan
    case Overflow => return None;
    case Scanned(value, end) => return if end > start then Some(value) else None;
  }

  lemma PaddingSkipped(data: bytes, i: nat, j: nat)
    requires i <= j <= |data| && forall k :: i <= k < j ==> IsPadding(data[k])
    requires j < |data| ==> !IsPadding(data[j])
    ensures SkipPadding(data, i) == j
    decreases j - i
  {}

  lemma NumberPrintedAt(data: bytes, start: nat, n: u64)
    requires OccursAt(data, Print(n), start)
    requires start + |Print(n)| < |data| ==> !IsDigit(data[start + |Print(n)|])
    ensures NumberAt(data, start) == Some(n)
  {
    ScanPrinted(data, start, n);
  }

  /** Printing any u64 after the pattern, with any padding between, and extracting it gives it back. */
  lemma NumberRoundTrip(data: bytes, pattern: bytes, pos: nat, start: nat, n: u64)
    requires Find(data, pattern) == Some(pos) && pos + |pattern| <= start
    requires OccursAt(data, Print(n), start)
    requires start + |Print(n)| < |data| ==> !IsDigit(data[start + |Print(n)|])
    requires forall k :: pos + |pattern| <= k < start ==> data[k] == 0x20 || data[k] == 0x22
    ensures NumberAfter(data, pattern) == Some(n)
    ensures start == pos + |pattern| ==> NumberRightAfter(data, pattern) == Some(n)
  {
    PrintedStart(data, start, n);
    ReadPastPadding(data, pattern, pos, start);
    NumberPrintedAt(data, start, n);
  }

  lemma ReadPastPadding(data: bytes, pattern: bytes, pos: nat, start: nat)
    requires Find(data, pattern) == Some(pos) && pos + |pattern| <= start < |data| && !IsPadding(data[start])
    requires forall k :: pos + |pattern| <= k < start ==> data[k] == 0x20 || data[k] == 0x22
    ensures NumberAfter(data, pattern) == NumberAt(data, start)
    ensures start == pos + |pattern| ==> NumberRightAfter(data, pattern) == NumberAt(data, start)
  {
    PaddingSkipped(data, pos + |pattern|, start);
  }

  lemma PrintedStart(data: bytes, start: nat, n: u64)
    requires OccursAt(data, Print(n), start)
    ensures start < |data| && !IsPadding(data[start])
  {
    assert data[start] == data[start..start + |Print(n)|][0];
  }

  /** Only spaces and quotes may stand between: anything else there, and no number is found. */
  lemma NothingElsePadded(data: bytes, pattern: bytes, pos: nat, start: nat)
    requires Find(data, pattern) == Some(pos) && pos + |pattern| <= start < |data|
    requires forall k :: pos + |pattern| <= k < start ==> data[k] == 0x20 || data[k] == 0x22
    requires data[start] !in {0x20, 0x22} && !(0x30 <= data[start] <= 0x39)
    ensures NumberAfter(data, pattern) == None
  {
    PaddingSkipped(data, pos + |pattern|, start);
  }

  /** A request that names an offer, in any of the three spellings and none that comes earlier, is read as naming it. */
  lemma RequestedOfferRead(request: bytes, pattern: bytes, pos: nat, start: nat, n: u64)
    requires pattern in {Ascii("tradeofferid="), Ascii("tradeOfferid="), Ascii("TradeOfferId=")}
    requires Find(request, pattern) == Some(pos) && pos + |pattern| <= start && OccursAt(request, Print(n), start)
    requires start + |Print(n)| < |request| ==> !IsDigit(request[start + |Print(n)|])
    requires forall k :: pos + |pattern| <= k < start ==> request[k] == 0x20 || request[k] == 0x22
    requires pattern != Ascii("tradeofferid=") ==> !Contains(request, Ascii("tradeofferid="))
    requires pattern == Ascii("TradeOfferId=") ==> !Contains(request, Ascii("tradeOfferid="))
    ensures TradeOfferIdInRequest(request) == Some(n)
  {
    NumberRoundTrip(request, pattern, pos, start, n);
  }

  lemma NoOfferNamed(request: bytes)
    requires !Contains(request, Ascii("tradeofferid=")) && !Contains(request, Ascii("tradeOfferid="))
    requires !Contains(request, Ascii("TradeOfferId="))
    ensures TradeOfferIdInRequest(request) == None
  {}

  /** A number printed right after the first "/tradeoffer/" is the offer the URL names, ... */
  lemma OfferUrlRead(request: bytes, pos: nat, n: u64)
    requires Find(request, Ascii("/tradeoffer/")) == Some(pos) && OccursAt(request, Print(n), pos + 12)
    requires pos + 12 + |Print(n)| < |request| ==> !IsDigit(request[pos + 12 + |Print(n)|])
    ensures TradeOfferIdInUrl(request) == Some(n)
  {
    ReadRightAfter(request, OFFER_PATH, pos, n);
  }

  lemma ReadRightAfter(request: bytes, path: bytes, pos: nat, n: u64)
    requires Find(request, path) == Some(pos) && OccursAt(request, Print(n), pos + |path|)
    requires pos + |path| + |Print(n)| < |request| ==> !IsDigit(request[pos + |path| + |Print(n)|])
    ensures NumberRightAfter(request, path) == Some(n)
  {
    var start := pos + |path|;
    ReadAtFound(request, path, pos);
    NumberPrintedAt(request, start, n);
  }

  lemma ReadAtFound(request: bytes, path: bytes, pos: nat)
    requires Find(request, path) == Some(pos)
    ensures NumberRightAfter(request, path) == NumberAt(request, pos + |path|)
  {}

  /** ... and nothing else may come before the number. */
  lemma OfferUrlRefused(request: bytes, pos: nat)
    requires Find(request, Ascii("/tradeoffer/")) == Some(pos)
    requires pos + 12 < |request| ==> !IsDigit(request[pos + 12])
    ensures TradeOfferIdInUrl(request) == None
  {}

  // The login cookie ------------------------------------------------------------------------

  /** The line that starts with the first occurrence of `header`, a newline and a field name. */
  function LineOf(request: bytes, header: bytes, newline: bytes): Option<bytes>
    requires |header| >= 2
  {
    match Find(request, header)
    case None => None
    case Some(pos) => Some(UpTo(request[pos + 2..], newline))
  }

  function UpTo(data: bytes, newline: bytes): bytes {
    match Find(data, newline)
    case None => data
    case Some(length) => data[..length]
  }

  /** The text of the first `Cookie:` header line. */
  function CookieLine(request: bytes): Option<bytes> { LineOf(request, COOKIE_HEADER, CRLF) }

  predicate HasDelimiter(line: bytes, i: nat) { OccursAt(line, ENCODED_BARS, i) || OccursAt(line, BARS, i) }

  /** 15 to 18 digits right after the cookie's name, then a delimiter. */
  function SteamIdAfter(line: bytes, name: bytes): Result<u64, ParseError> {
    match Find(line, name)
    case None => Err(MissingCookie)
    case Some(pos) =>
      var start := pos + |name|;
      match ScanOf(line, start)
      case Overflow => Err(NumberOverflow)
      case Scanned(value, end) =>
        if 15 <= end - start <= 18 && HasDelimiter(line, end) then Ok(value) else Err(InvalidCookieFormat)
  }

  function SteamIdInCookie(request: bytes): Result<u64, ParseError> {
    match CookieLine(request)
    case None => Err(MissingCookie)
    case Some(line) => SteamIdAfter(line, LOGIN_COOKIE)
  }

  method ReadLine(request: bytes, header: bytes, newline: bytes) returns (line: Option<bytes>)
    requires |header| >= 2
    ensures line == LineOf(request, header, newline)
  {
    var found := Find(request, header);
    if found.None? { return None; }
    var start := found.value + 2;
    var length := Find(request[start..], newline);
    var end := if length.Some? then start + length.value else |request|;
    assert request[start..end] == UpTo(request[start..], newline);
    return Some(request[start..end]);
  }

  method ExtractSteamIdFromCookie(request: bytes) returns (r: Result<u64, ParseError>)
    ensures r == SteamIdInCookie(request)
  {
    var line := ReadLine(request, COOKIE_HEADER, CRLF);
    if line.None? { return Err(MissingCookie); }
    r := ReadSteamId(line.value, LOGIN_COOKIE);
  }

  method ReadSteamId(line: bytes, name: bytes) returns (r: Result<u64, ParseError>)
    ensures r == SteamIdAfter(line, name)
  {
    var cookie := Find(line, name);
    if cookie.None? { return Err(MissingCookie); }
    var valueStart := cookie.value + |name|;
    var scan := ScanDigits(line, valueStart);
    match scan
    case Overflow => return Err(NumberOverflow);
    case Scanned(steamId, i) =>
      if !(15 <= i - valueStart <= 18) { return Err(InvalidCookieFormat); }
      if !HasDelimiter(line, i) { return Err(InvalidCookieFormat); }
      return Ok(steamId);
  }

  lemma DelimiterEndsRun(line: bytes, end: nat)
    requires HasDelimiter(line, end)
    ensures end < |line| && !IsDigit(line[end])
  {
    var delimiter := if OccursAt(line, BARS, end) then BARS else ENCODED_BARS;
    assert line[end] == line[end..end + |delimiter|][0] == delimiter[0];
  }

  lemma SteamIdDigits(id: u64)
    requires 100_000_000_000_000 <= id < 1_000_000_000_000_000_000
    ensures 15 <= |Print(id)| <= 18
  {
    PrintLength(id, 14);
    PrintLength(id, 18);
    assert Pow10(4) == 10_000;
    assert Pow10(9) == 1_000_000_000;
    assert Pow10(14) == 100_000_000_000_000;
    assert Pow10(18) == 1_000_000_000_000_000_000;
  }

  /** A cookie value of 15 to 18 digits followed by either spelling of the delimiter reads back. */
  lemma SteamIdRoundTrip(line: bytes, name: bytes, pos: nat, id: u64)
    requires Find(line, name) == Some(pos)
    requires 100_000_000_000_000 <= id < 1_000_000_000_000_000_000
    requires OccursAt(line, Print(id), pos + |name|) && HasDelimiter(line, pos + |name| + |Print(id)|)
    ensures SteamIdAfter(line, name) == Ok(id)
  {
    ScanToDelimiter(line, pos + |name|, id);
    SteamIdDigits(id);
    SteamIdScanned(line, name, pos, id, pos + |name| + |Print(id)|);
  }

  lemma SteamIdScanned(line: bytes, name: bytes, pos: nat, id: u64, end: nat)
    requires Find(line, name) == Some(pos) && ScanOf(line, pos + |name|) == Scanned(id, end)
    requires 15 <= end - (pos + |name|) <= 18 && HasDelimiter(line, end)
    ensures SteamIdAfter(line, name) == Ok(id)
  {}

  lemma ScanToDelimiter(line: bytes, start: nat, id: u64)
    requires OccursAt(line, Print(id), start) && HasDelimiter(line, start + |Print(id)|)
    ensures ScanOf(line, start) == Scanned(id, start + |Print(id)|)
  {
    DelimiterEndsRun(line, start + |Print(id)|);
    ScanPrinted(line, start, id);
  }

  /** The cookie's value, exactly: the digits right after its first name, 15 to 18 of them, then "%7C%7C" or "||". */
  ghost predicate CookieGives(line: bytes, name: bytes, pos: nat, end: nat, id: u64) {
    && Find(line, name) == Some(pos) && pos + |name| <= end <= |line|
    && (forall k :: pos + |name| <= k < end ==> 0x30 <= line[k] <= 0x39) && AllDigits(line[pos + |name|..end])
    && 15 <= end - (pos + |name|) <= 18 && Value(line[pos + |name|..end]) == id
    && (OccursAt(line, [0x25, 0x37, 0x43, 0x25, 0x37, 0x43], end) || OccursAt(line, [0x7C, 0x7C], end))
  }

  lemma SteamIdExact(line: bytes, name: bytes, id: u64)
    ensures SteamIdAfter(line, name) == Ok(id) <==> exists pos, end :: CookieGives(line, name, pos, end, id)
  {
    if SteamIdAfter(line, name) == Ok(id) { ReadIdIsGiven(line, name, id); }
    if pos: nat, end: nat :| CookieGives(line, name, pos, end, id) { GivenIdIsRead(line, name, pos, end, id); }
  }

  lemma ReadIdIsGiven(line: bytes, name: bytes, id: u64)
    requires SteamIdAfter(line, name) == Ok(id)
    ensures exists pos, end :: CookieGives(line, name, pos, end, id)
  {
    DelimiterBytes();
    var pos := Find(line, name).value;
    assert CookieGives(line, name, pos, RunEnd(line, pos + |name|), id);
  }

  lemma GivenIdIsRead(line: bytes, name: bytes, pos: nat, end: nat, id: u64)
    requires CookieGives(line, name, pos, end, id)
    ensures SteamIdAfter(line, name) == Ok(id)
  {
    DelimiterBytes();
    assert HasDelimiter(line, end);
    DelimiterEndsRun(line, end);
    RunEndUnique(line, pos + |name|, end);
    SteamIdScanned(line, name, pos, id, end);
  }

  lemma DelimiterBytes()
    ensures ENCODED_BARS == [0x25, 0x37, 0x43, 0x25, 0x37, 0x43] && BARS == [0x7C, 0x7C]
  {}

  /** From a whole request: the id depends on nothing before the Cookie line or after it. */
  lemma CookieRoundTrip(before: bytes, line: bytes, rest: bytes, pos: nat, end: nat, id: u64)
    requires Find(before + [13, 10] + line + rest, Ascii("\r\nCookie:")) == Some(|before|)
    requires !Contains(line, [13, 10]) && (rest == [] || [13, 10] <= rest)
    requires CookieGives(line, Ascii("steamLoginSecure="), pos, end, id)
    ensures SteamIdInCookie(before + [13, 10] + line + rest) == Ok(id)
  {
    assert CRLF == [13, 10];
    CookieLineExact(before, line, rest, COOKIE_HEADER, CRLF);
    SteamIdExact(line, LOGIN_COOKIE, id);
  }

  lemma CookieLineExact(before: bytes, line: bytes, rest: bytes, header: bytes, newline: bytes)
    requires IsNewline(newline) && |header| >= 2 && Find(before + newline + line + rest, header) == Some(|before|)
    requires !Contains(line, newline) && (rest == [] || newline <= rest)
    ensures LineOf(before + newline + line + rest, header, newline) == Some(line)
  {
    var request := before + newline + line + rest;
    assert request[|before| + 2..] == line + rest;
    if rest == [] {
      assert line + rest == line;
    } else {
      forall j | 0 <= j < |line| ensures !OccursAt(line + rest, newline, j) {
        NewlineNotAcross(line, rest, newline, j);
      }
      assert (line + rest)[|line|..|line| + 2] == newline;
      assert OccursAt(line + rest, newline, |line|);
      assert Find(line + rest, newline) == Some(|line|);
    }
  }

  /** Nothing written into the request line can stand in for the cookie: it may be replaced by any other. */
  lemma RequestLineIgnored(line: bytes, line': bytes, headers: bytes)
    requires !Contains(line, CRLF) && !Contains(line', CRLF) && CRLF <= headers
    ensures SteamIdInCookie(line + headers) == SteamIdInCookie(line' + headers)
  {
    assert COOKIE_HEADER[..2] == CRLF;
    LineOfBelow(line, headers, COOKIE_HEADER, CRLF);
    LineOfBelow(line', headers, COOKIE_HEADER, CRLF);
  }

  predicate IsNewline(newline: bytes) { |newline| == 2 && newline[0] != newline[1] }

  /** A newline does not start in the last byte of one line and end in the first byte of the next newline. */
  lemma NewlineNotAcross(line: bytes, headers: bytes, newline: bytes, j: nat)
    requires IsNewline(newline) && newline <= headers && j < |line|
    ensures OccursAt(line + headers, newline, j) ==> OccursAt(line, newline, j)
  {
    var data := line + headers;
    assert headers[0] == newline[0];
    if OccursAt(data, newline, j) {
      assert data[j + 1] == data[j..j + 2][1] == newline[1];
      assert data[j..j + 2] == line[j..j + 2];
    }
  }

  lemma NoHeaderStartsIn(line: bytes, headers: bytes, header: bytes, newline: bytes, j: nat)
    requires IsNewline(newline) && newline <= header && newline <= headers && !Contains(line, newline) && j < |line|
    ensures !OccursAt(line + headers, header, j)
  {
    var data := line + headers;
    NewlineNotAcross(line, headers, newline, j);
    PrefixOccurs(data, header, newline, j);
  }

  lemma PrefixOccurs(data: bytes, pattern: bytes, prefix: bytes, j: nat)
    ensures prefix <= pattern && OccursAt(data, pattern, j) ==> OccursAt(data, prefix, j)
  {
    if prefix <= pattern && OccursAt(data, pattern, j) {
      assert data[j..j + |prefix|] == data[j..j + |pattern|][..|prefix|];
    }
  }

  lemma HeaderFoundBelow(line: bytes, headers: bytes, header: bytes, newline: bytes)
    requires IsNewline(newline) && newline <= header && newline <= headers && !Contains(line, newline)
    ensures var r := Find(headers, header);
      Find(line + headers, header) == if r.None? then None else Some(|line| + r.value)
  {
    forall j | 0 <= j < |line|
      ensures !OccursAt(line + headers, header, j)
    {
      NoHeaderStartsIn(line, headers, header, newline, j);
    }
    FindShift(line, headers, header);
  }

  lemma LineOfBelow(line: bytes, headers: bytes, header: bytes, newline: bytes)
    requires IsNewline(newline) && newline <= header && newline <= headers && !Contains(line, newline)
    ensures LineOf(line + headers, header, newline) == LineOf(headers, header, newline)
  {
    HeaderFoundBelow(line, headers, header, newline);
    var found := Find(headers, header);
    if found.Some? { DropAcross(line, headers, found.value + 2); }
  }

  lemma DropAcross(line: bytes, headers: bytes, k: nat)
    requires k <= |headers|
    ensures (line + headers)[|line| + k..] == headers[k..]
  {}
}
