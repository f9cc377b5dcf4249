/** inventory_attestation/mod.rs: one attestation, from a request through inventory, catalog and signature. */
module Attestation {
  import opened Prelude
  import opened Inventory
  import Handler
  import opened Cache
  import Catalog
  import Resolver
  import ItemDetail
  import Decimal
  import Signer

  datatype EvidenceSummary = EvidenceSummary(
    marketHashName: string,
    defindex: u32,
    paintindex: u32,
    tintId: Option<u32>,
    itemType: string,
    quality: u32,
    floatvalue: Option<real>,
    paintseed: Option<u32>,
    finishCatalog: Option<u32>,
    patternTier: u32,
    isSlab: bool)

  /** The signature is kept as bytes; the source writes it in hexadecimal. */
  datatype Response = Response(assetId: bytes, itemDetail: bytes, oracleAttestation: bytes, summary: EvidenceSummary)

  datatype AttestError =
    | InventoryFailure(inventory: InventoryError)
    | CatalogFailure(catalog: Catalog.ResolveError)
    | SigningFailed

  /** What a handler works with. `steam(id, visit)` is how Steam answers about one user on one visit. */
  datatype World = World(
    resolver: Catalog.CatalogResolver,
    steam: (u64, nat) -> Fetch,
    readFloat: FloatReader,
    key: Signer.Signing)

  ghost predicate Sound(w: World) { Catalog.Loaded(w.resolver) }

  // One attestation -------------------------------------------------------------------------

  function ItemWord(id: Resolver.Identity): (w: u64)
    ensures w == Resolver.WordOf(id)
  {
    var x := Resolver.AttributesOf(id);
    if ItemDetail.UsesExtended(x) then ItemDetail.ExtendedDecodes(x); Resolver.WordOf(id)
    else ItemDetail.StandardDecodes(x); Resolver.WordOf(id)
  }

  function AttestationDigest(assetId: u64, word: u64, key: Signer.Signing): Signer.Word {
    key.hash(Signer.DigestPreimage(key.domainSeparator, key.hash(Signer.AttestationPreimage(key.typeHash, assetId, word))))
  }

  function Positive<T>(n: u32, value: T): Option<T> { if n > 0 then Some(value) else None }

  function Summary(id: Resolver.Identity): EvidenceSummary {
    EvidenceSummary(id.marketHashName, id.defindex, id.paintindex, Positive(id.tintId, id.tintId), id.itemType, id.quality,
                    Positive(id.paintindex, id.floatvalue), Positive(id.paintindex, id.paintseed), id.finishCatalog,
                    id.patternTier, id.isSlab)
  }

  function BuildResponse(key: Signer.Signing, assetId: u64, id: Resolver.Identity): Option<Response> {
    var word := ItemWord(id);
    match key.ecdsa(AttestationDigest(assetId, word, key))
    case None => None
    case Some(signature) => Some(Response(Decimal.Print(assetId), Decimal.Print(word), signature, Summary(id)))
  }

  function Found(w: World, steamId: u64, assetId: u64, visit: nat): Result<InventoryItem, InventoryError> {
    Search(Follow(w.steam(steamId, visit), 0, None), assetId, w.readFloat)
  }

  /** The answer to a request the cache does not hold. */
  function Attest(w: World, steamId: u64, assetId: u64, visit: nat): Result<Response, AttestError>
    requires Sound(w)
  {
    match Found(w, steamId, assetId, visit)
    case Err(e) => Err(InventoryFailure(e))
    case Ok(item) =>
      match Resolver.Resolve(w.resolver, item)
      case Err(e) => Err(CatalogFailure(e))
      case Ok(id) =>
        var response := BuildResponse(w.key, assetId, id);
        if response.Some? then Ok(response.value) else Err(SigningFailed)
  }

  method AttestAfresh(w: World, steamId: u64, assetId: u64, visit: nat) returns (r: Result<Response, AttestError>)
    requires Sound(w)
    ensures r == Attest(w, steamId, assetId, visit)
  {
    var found, requests := FindAsset(w.steam(steamId, visit), assetId, w.readFloat);
    if found.Err? { return Err(InventoryFailure(found.error)); }
    var resolved := Resolver.Resolve(w.resolver, found.value);
    if resolved.Err? { return Err(CatalogFailure(resolved.error)); }
    var response := BuildResponse(w.key, assetId, resolved.value);
    if response.None? { return Err(SigningFailed); }
    r := Ok(response.value);
  }

  /** A response read as a client reads it: asset id, word and signature agree, and all are about an item of that user. */
  ghost predicate Binds(w: World, steamId: u64, assetId: u64, visit: nat, response: Response)
    requires Sound(w)
  {
    var found := Found(w, steamId, assetId, visit);
    && found.Ok? && Resolver.Resolve(w.resolver, found.value).Ok?
    && Decimal.ParseUnsigned(response.assetId, U64_MAX) == Some(assetId)
    && (var id := Resolver.Resolve(w.resolver, found.value).value;
        && Summarizes(response.summary, found.value, id)
        && (var word := Resolver.WordOf(id);
            && word <= U64_MAX && Decimal.ParseUnsigned(response.itemDetail, U64_MAX) == Some(word)
            && Some(response.oracleAttestation) == w.key.ecdsa(
                 w.key.hash(Signer.DigestPreimage(
                   w.key.domainSeparator, w.key.hash(Signer.AttestationPreimage(w.key.typeHash, assetId, word)))))))
  }

  /** The summary names the item found, and gives tint, float and seed where they mean something. */
  ghost predicate Summarizes(e: EvidenceSummary, item: InventoryItem, id: Resolver.Identity) {
    && e.marketHashName == item.marketHashName && e.defindex == id.defindex && e.paintindex == id.paintindex
    && e.itemType == id.itemType && e.quality == id.quality && e.patternTier == id.patternTier && e.isSlab == id.isSlab
    && e.finishCatalog == (if item.steamEvidence.Some? then item.steamEvidence.value.finishCatalog else None)
    && e.tintId == (if id.tintId > 0 then Some(id.tintId) else None)
    && (id.paintindex > 0 ==>
          && item.steamEvidence.Some? && e.floatvalue.Some? && e.floatvalue == item.steamEvidence.value.floatvalue
          && e.paintseed.Some? && e.paintseed == item.steamEvidence.value.paintseed)
    && (id.paintindex == 0 ==> e.floatvalue == None && e.paintseed == None)
  }

  lemma SummaryIsRight(w: World, item: InventoryItem)
    requires Sound(w) && Resolver.Resolve(w.resolver, item).Ok?
    ensures Summarizes(Summary(Resolver.Resolve(w.resolver, item).value), item, Resolver.Resolve(w.resolver, item).value)
  {
    Resolver.ResolvedFields(w.resolver, item);
  }

  lemma ResponseBinds(w: World, steamId: u64, assetId: u64, visit: nat)
    requires Sound(w) && Attest(w, steamId, assetId, visit).Ok?
    ensures Binds(w, steamId, assetId, visit, Attest(w, steamId, assetId, visit).value)
  {
    var item := Found(w, steamId, assetId, visit).value;
    var id := Resolver.Resolve(w.resolver, item).value;
    SummaryIsRight(w, item);
    Decimal.ParsePrinted(assetId, U64_MAX);
    Decimal.ParsePrinted(ItemWord(id), U64_MAX);
  }

  /** What the handler is to do for a request it cannot answer from the cache. */
  function Attester(w: World): (u64, u64, nat) -> Result<Response, AttestError>
    requires Sound(w)
  {
    (steamId: u64, assetId: u64, visit: nat) => Attest(w, steamId, assetId, visit)
  }

  /** End to end: what Handler.InventoryAttestationState.AttestHandler answers, cached or fresh, binds like that, on the
      visit from which it was kept. */
  lemma ServedBinds(w: World, log: seq<Op<Response>>, visits: Handler.Visits, i: nat, steamId: u64, assetId: u64,
                    response: Response)
    requires Sound(w) && Handler.KeptAt(Attester(w), log, visits, i, steamId, assetId, response)
    ensures Binds(w, steamId, assetId, visits[i].value, response)
  {
    ResponseBinds(w, steamId, assetId, visits[i].value);
  }

  lemma PrintInjective(a: nat, b: nat)
    requires Decimal.Print(a) == Decimal.Print(b)
    ensures a == b
  {
    Decimal.PrintValue(a);
    Decimal.PrintValue(b);
  }

  /** Two responses with one item detail text: in standard mode the same defindex, quality and paint index up to 65535
      (Resolver.SameEntryIff says when it is the same catalog entry), in extended mode the same 28-bit defindex, clamped
      tint, slab flag and quality. */
  lemma EqualDetailsAgree(w: World, s: u64, a: u64, v: nat, s': u64, a': u64, v': nat)
    requires Sound(w) && Attest(w, s, a, v).Ok? && Attest(w, s', a', v').Ok?
    requires Attest(w, s, a, v).value.itemDetail == Attest(w, s', a', v').value.itemDetail
    ensures var x := Resolver.Resolve(w.resolver, Found(w, s, a, v).value).value;
      var y := Resolver.Resolve(w.resolver, Found(w, s', a', v').value).value;
      && Resolver.WordOf(x) == Resolver.WordOf(y)
      && Resolver.AgreeAsWritten(x, y)
  {
    var x := Resolver.Resolve(w.resolver, Found(w, s, a, v).value).value;
    var y := Resolver.Resolve(w.resolver, Found(w, s', a', v').value).value;
    PrintInjective(ItemWord(x), ItemWord(y));
    Resolver.EqualWordsAgree(x, y);
  }
}
