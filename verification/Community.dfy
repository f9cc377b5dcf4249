/** `parse_community_html`: one pass over the page that looks for five phrases at once. */
module Community {
  import opened Prelude
  import opened SettlementTypes
  import opened Search
  import Gzip
  import Http

  const ERROR_TITLE := Ascii("Steam Community :: Error")
  const NOT_EXIST := Ascii("trade offer does not exist")
  const BELONGS_OTHER := Ascii("belongs to another user")
  const SIGN_IN := Ascii("Sign In")
  const STEAM_ID := Ascii("g_steamID")

  datatype PageFlags = PageFlags(isErrorPage: bool, hasNotFound: bool, hasSignIn: bool, hasSteamId: bool)

  /** The flags as five independent searches. */
  function FlagsOf(html: bytes): PageFlags {
    PageFlags(
      Find(html, ERROR_TITLE).Some?,
      Find(html, NOT_EXIST).Some? || Find(html, BELONGS_OTHER).Some?,
      Find(html, SIGN_IN).Some?,
      Find(html, STEAM_ID).Some?)
  }

  ghost predicate SeenBefore(html: bytes, pattern: bytes, i: int) {
    exists j :: 0 <= j < i && OccursAt(html, pattern, j)
  }

  lemma SeenStep(html: bytes, pattern: bytes, i: nat)
    ensures SeenBefore(html, pattern, i + 1) <==> SeenBefore(html, pattern, i) || OccursAt(html, pattern, i)
  {
    if OccursAt(html, pattern, i) { assert SeenBefore(html, pattern, i + 1); }
    if SeenBefore(html, pattern, i) {
      var j :| 0 <= j < i && OccursAt(html, pattern, j);
      assert 0 <= j < i + 1;
    }
  }

  lemma SeenAll(html: bytes, pattern: bytes)
    requires pattern != []
    ensures SeenBefore(html, pattern, |html|) <==> Find(html, pattern).Some?
  {
    if Contains(html, pattern) {
      var j :| OccursAt(html, pattern, j);
      assert 0 <= j < |html|;
    }
  }

  /** An occurrence fixes the bytes under it; two are enough to tell the five phrases apart. */
  lemma OccurrenceBytes(html: bytes, pattern: bytes, i: nat)
    requires OccursAt(html, pattern, i) && |pattern| >= 2
    ensures html[i] == pattern[0] && html[i + 1] == pattern[1]
  {
    var copy := html[i..i + |pattern|];
    assert html[i] == copy[0] && html[i + 1] == copy[1];
  }

  lemma FirstBytes()
    ensures ERROR_TITLE[0] == 'S' as int && ERROR_TITLE[1] == 't' as int
    ensures SIGN_IN[0] == 'S' as int && SIGN_IN[1] == 'i' as int
    ensures NOT_EXIST[0] == 't' as int && BELONGS_OTHER[0] == 'b' as int && STEAM_ID[0] == 'g' as int
  {}

  /** What the byte under the cursor decides about each phrase. */
  lemma Dispatch(html: bytes, i: nat)
    requires i < |html|
    ensures OccursAt(html, ERROR_TITLE, i) ==> html[i] == 'S' as int && !OccursAt(html, SIGN_IN, i)
    ensures OccursAt(html, SIGN_IN, i) ==> html[i] == 'S' as int
    ensures OccursAt(html, NOT_EXIST, i) ==> html[i] == 't' as int
    ensures OccursAt(html, BELONGS_OTHER, i) ==> html[i] == 'b' as int
    ensures OccursAt(html, STEAM_ID, i) ==> html[i] == 'g' as int
  {
    FirstBytes();
    if OccursAt(html, ERROR_TITLE, i) { OccurrenceBytes(html, ERROR_TITLE, i); }
    if OccursAt(html, SIGN_IN, i) { OccurrenceBytes(html, SIGN_IN, i); }
    if OccursAt(html, NOT_EXIST, i) { OccurrenceBytes(html, NOT_EXIST, i); }
    if OccursAt(html, BELONGS_OTHER, i) { OccurrenceBytes(html, BELONGS_OTHER, i); }
    if OccursAt(html, STEAM_ID, i) { OccurrenceBytes(html, STEAM_ID, i); }
  }

  /** The scanner, with its guards and its `else if`, computes what five separate searches would. */
  method ScanPage(html: bytes) returns (flags: PageFlags)
    ensures flags == FlagsOf(html)
  {
    var isErrorPage, hasNotFound, hasSignIn, hasSteamId := false, false, false, false;
    var i := 0;
    while i < |html|
      invariant 0 <= i <= |html|
      invariant isErrorPage == SeenBefore(html, ERROR_TITLE, i)
      invariant hasNotFound == (SeenBefore(html, NOT_EXIST, i) || SeenBefore(html, BELONGS_OTHER, i))
      invariant hasSignIn == SeenBefore(html, SIGN_IN, i)
      invariant hasSteamId == SeenBefore(html, STEAM_ID, i)
    {
      Dispatch(html, i);
      SeenStep(html, ERROR_TITLE, i);
      SeenStep(html, NOT_EXIST, i);
      SeenStep(html, BELONGS_OTHER, i);
      SeenStep(html, SIGN_IN, i);
      SeenStep(html, STEAM_ID, i);
      var c := html[i];
      if c == 'S' as int {
        if !isErrorPage && OccursAt(html, ERROR_TITLE, i) {
          isErrorPage := true;
        } else if !hasSignIn && OccursAt(html, SIGN_IN, i) {
          hasSignIn := true;
        }
      } else if c == 't' as int {
        if !hasNotFound && OccursAt(html, NOT_EXIST, i) { hasNotFound := true; }
      } else if c == 'b' as int {
        if !hasNotFound && OccursAt(html, BELONGS_OTHER, i) { hasNotFound := true; }
      } else if c == 'g' as int {
        if !hasSteamId && OccursAt(html, STEAM_ID, i) { hasSteamId := true; }
      }
      i := i + 1;
    }
    SeenAll(html, ERROR_TITLE);
    SeenAll(html, NOT_EXIST);
    SeenAll(html, BELONGS_OTHER);
    SeenAll(html, SIGN_IN);
    SeenAll(html, STEAM_ID);
    flags := PageFlags(isErrorPage, hasNotFound, hasSignIn, hasSteamId);
  }

  function ProofOf(request: bytes, response: bytes, inflate: Gzip.Inflate, utf8: bytes -> bool)
    : Result<CommunityProofData, ParseError>
  {
    match Http.ExtractHttpBody(response, inflate, utf8)
    case Err(e) => Err(e)
    case Ok(html) =>
      match Http.SteamIdInCookie(request)
      case Err(e) => Err(e)
      case Ok(steamId) =>
        match Http.TradeOfferIdInUrl(request)
        case None => Err(MissingTradeOfferId)
        case Some(offerId) =>
          var flags := FlagsOf(html);
          if flags.hasSignIn && !flags.hasSteamId then Err(MissingCookie)
          else if !(flags.isErrorPage && flags.hasNotFound) then Err(CommunityTradeExists)
          else Ok(CommunityProofData(steamId, offerId, flags.isErrorPage && flags.hasNotFound))
  }

  method ParseCommunityHtml(request: bytes, response: bytes, inflate: Gzip.Inflate, utf8: bytes -> bool)
    returns (r: Result<CommunityProofData, ParseError>)
    ensures r == ProofOf(request, response, inflate, utf8)
  {
    var body := Http.ExtractHttpBody(response, inflate, utf8);
    if body.Err? { return Err(body.error); }
    var steamId := Http.ExtractSteamIdFromCookie(request);
    if steamId.Err? { return Err(steamId.error); }
    var offerId := Http.ExtractTradeOfferIdFromUrl(request);
    if offerId.None? { return Err(MissingTradeOfferId); }
    var flags := ScanPage(body.value);
    if flags.hasSignIn && !flags.hasSteamId { return Err(MissingCookie); }
    var tradeNotFound := flags.isErrorPage && flags.hasNotFound;
    if !tradeNotFound { return Err(CommunityTradeExists); }
    return Ok(CommunityProofData(steamId.value, offerId.value, tradeNotFound));
  }

  /** A page that asks to sign in shows the id of someone who has. */
  ghost predicate SignedIn(html: bytes) { Contains(html, Ascii("Sign In")) ==> Contains(html, Ascii("g_steamID")) }

  /** The error page for an offer that is gone, or was somebody else's. */
  ghost predicate NoSuchOffer(html: bytes) {
    && Contains(html, Ascii("Steam Community :: Error"))
    && (Contains(html, Ascii("trade offer does not exist")) || Contains(html, Ascii("belongs to another user")))
  }

  lemma FlagsMean(html: bytes)
    ensures var flags := FlagsOf(html);
      (SignedIn(html) <==> flags.hasSignIn ==> flags.hasSteamId) && (NoSuchOffer(html) <==> flags.isErrorPage && flags.hasNotFound)
  {}

  /** Exactly when a page proves that the offer does not exist. */
  lemma ProofExact(request: bytes, response: bytes, inflate: Gzip.Inflate, utf8: bytes -> bool, data: CommunityProofData)
    ensures ProofOf(request, response, inflate, utf8) == Ok(data) <==>
      && data.tradeNotFound
      && Http.SteamIdInCookie(request) == Ok(data.proverSteamId)
      && Http.TradeOfferIdInUrl(request) == Some(data.tradeOfferId)
      && exists html ::
           && Http.ExtractHttpBody(response, inflate, utf8) == Ok(html)
           && SignedIn(html) && NoSuchOffer(html)
  {
    var body := Http.ExtractHttpBody(response, inflate, utf8);
    if body.Ok? { FlagsMean(body.value); }
  }

  /** Why a page proves nothing: who shows it and which offer it is about must be clear first. */
  lemma ProofRefused(request: bytes, response: bytes, html: bytes, inflate: Gzip.Inflate, utf8: bytes -> bool)
    requires Http.ExtractHttpBody(response, inflate, utf8) == Ok(html)
    ensures var proof := ProofOf(request, response, inflate, utf8);
      var prover, offer := Http.SteamIdInCookie(request), Http.TradeOfferIdInUrl(request);
      && (prover.Err? ==> proof == Err(prover.error))
      && (proof == Err(MissingTradeOfferId) <==> prover.Ok? && offer == None)
      && (proof == Err(CommunityTradeExists) <==> prover.Ok? && offer.Some? && SignedIn(html) && !NoSuchOffer(html))
      && (proof == Err(MissingCookie) <==>
            prover == Err(MissingCookie) || (prover.Ok? && offer.Some? && !SignedIn(html)))
  {
    FlagsMean(html);
    CookieErrorsOnly(request);
  }

  lemma CookieErrorsOnly(request: bytes)
    ensures Http.SteamIdInCookie(request) !in {Err(MissingTradeOfferId), Err(CommunityTradeExists)}
  {}
}
