/** `CatalogResolver::resolve`: from an inventory item to the identity that is attested, and why its word is unambiguous. */
module Resolver {
  import opened Prelude
  import opened ItemDetail
  import opened Inventory
  import opened Catalog
  import Names
  import opened Tiers

  datatype Identity = Identity(
    marketHashName: string,
    defindex: u32,
    paintindex: u32,
    tintId: u32,
    itemType: string,
    quality: u32,
    floatvalue: real,
    paintseed: u32,
    patternTier: u32,
    isSlab: bool,
    finishCatalog: Option<u32>)

  // Resolution ------------------------------------------------------------------------------

  function FinishOf(item: InventoryItem): Option<u32> {
    if item.steamEvidence.Some? then item.steamEvidence.value.finishCatalog else None
  }

  function FloatOf(item: InventoryItem): Option<real> {
    if item.steamEvidence.Some? then item.steamEvidence.value.floatvalue else None
  }

  function SeedEvidence(item: InventoryItem): Option<u32> {
    if item.steamEvidence.Some? then item.steamEvidence.value.paintseed else None
  }

  predicate EntryExtended(entry: CatalogItem) {
    OrZero(entry.defindex) > MAX_DEFINDEX_STANDARD || OrZero(entry.tintId) > 0
  }

  /** `ensure_representable_item_detail`. */
  function Conflict(counts: map<nat, nat>, entry: CatalogItem): Option<ResolveError> {
    var key := StaticKey(entry);
    if key.None? || EntryExtended(entry) then None
    else if LookupCount(counts, key.value) > 1 then Some(UnrepresentableItemDetail(LookupCount(counts, key.value)))
    else None
  }

  function EntryOf(r: CatalogResolver, item: InventoryItem): (p: Result<nat, ResolveError>)
    requires Loaded(r)
    ensures p.Ok? ==> p.value < |r.items|
  {
    ResolveSound(r, item, FinishOf(item));
    var p := ResolveCatalogItem(r, item, FinishOf(item));
    assert p.Ok? ==> p.value in {p.value};
    p
  }

  function Resolve(r: CatalogResolver, item: InventoryItem): Result<Identity, ResolveError>
    requires Loaded(r)
  {
    match EntryOf(r, item)
    case Err(e) => Err(e)
    case Ok(p) => Describe(r, item, r.items[p])
  }

  function Describe(r: CatalogResolver, item: InventoryItem, entry: CatalogItem): Result<Identity, ResolveError> {
    var paintindex := OrZero(entry.paintindex);
    var painted := paintindex > 0;
    if entry.defindex.None? then Err(MissingDefindex)
    else if entry.itemType == GRAFFITI && entry.tintId.None? then Err(MissingTintId)
    else if painted && FloatOf(item).None? then Err(MissingFloatvalue)
    else if painted && SeedEvidence(item).None? then Err(MissingPaintseed)
    else
      var conflict := Conflict(r.staticCounts, entry);
      if conflict.Some? then Err(conflict.value)
      else
        var seed := if painted then SeedEvidence(item).value else 0;
        Ok(Identity(
          item.marketHashName,
          entry.defindex.value,
          paintindex,
          if entry.itemType == GRAFFITI then entry.tintId.value else 0,
          entry.itemType,
          InventoryQuality(item),
          if painted then FloatOf(item).value else 0.0,
          seed,
          ClassifyTier(r.families, item.marketHashName, entry.defindex.value, paintindex, seed),
          entry.itemType == STICKER_SLAB,
          FinishOf(item)))
  }

  /** The word that is signed. */
  function WordOf(id: Identity): nat { EncodeWord(AttributesOf(id)) }

  function AttributesOf(id: Identity): Attributes {
    Attributes(id.paintindex, id.floatvalue, id.defindex, id.paintseed, id.quality, id.tintId, id.patternTier, id.isSlab)
  }

  // When an item resolves -------------------------------------------------------------------

  ghost function Bearers(items: seq<CatalogItem>, key: nat): set<nat> {
    set p: nat | p < |items| && StaticKey(items[p]) == Some(key)
  }

  ghost predicate SoleBearer(items: seq<CatalogItem>, p: nat)
    requires p < |items|
  {
    forall q :: 0 <= q < |items| && StaticKey(items[q]) == StaticKey(items[p]) ==> q == p
  }

  /** The counters are the true multiplicities of the keys. */
  lemma CountIsMultiplicity(r: CatalogResolver, key: nat)
    requires Loaded(r)
    ensures LookupCount(r.staticCounts, key) == |Bearers(r.items, key)|
  {
    var keys := StaticKeys(r.items);
    var ps := Positions(keys, key);
    PositionsExact(keys, key);
    AscendingCount(ps);
    assert SetOf(ps) == Bearers(r.items, key);
  }

  lemma SingletonIff(s: set<nat>, p: nat)
    requires p in s
    ensures |s| <= 1 <==> s == {p}
  {
    assert |s - {p}| == |s| - 1;
  }

  /** A static entry in standard mode is refused exactly when another entry has its word. */
  lemma RepresentableIff(r: CatalogResolver, p: nat)
    requires Loaded(r) && p < |r.items| && r.items[p].defindex.Some?
    ensures Conflict(r.staticCounts, r.items[p]).None?
       <==> OrZero(r.items[p].paintindex) > 0 || EntryExtended(r.items[p]) || SoleBearer(r.items, p)
  {
    var key := StaticKey(r.items[p]);
    if key.Some? {
      var bearers := Bearers(r.items, key.value);
      CountIsMultiplicity(r, key.value);
      SingletonIff(bearers, p);
      assert bearers == {p} <==> SoleBearer(r.items, p) by {
        forall q | 0 <= q < |r.items| ensures q in bearers <==> StaticKey(r.items[q]) == StaticKey(r.items[p]) {}
      }
    }
  }

  /** What an entry and an item need to be attested: no index and no counter. */
  ghost predicate Attestable(items: seq<CatalogItem>, item: InventoryItem, p: nat)
    requires p < |items|
  {
    && items[p].defindex.Some?
    && (items[p].itemType == GRAFFITI ==> items[p].tintId.Some?)
    && (if OrZero(items[p].paintindex) > 0 then
          item.steamEvidence.Some? && item.steamEvidence.value.floatvalue.Some? && item.steamEvidence.value.paintseed.Some?
        else EntryExtended(items[p]) || SoleBearer(items, p))
  }

  lemma DescribeIff(r: CatalogResolver, item: InventoryItem, p: nat)
    requires Loaded(r) && p < |r.items|
    ensures Describe(r, item, r.items[p]).Ok? <==> Attestable(r.items, item, p)
  {
    if r.items[p].defindex.Some? { RepresentableIff(r, p); }
  }

  /** Exactly the items that are attested, and from which entry. */
  lemma ResolvesIff(r: CatalogResolver, item: InventoryItem, p: nat)
    requires Loaded(r) && p < |r.items|
    ensures Resolve(r, item).Ok? && EntryOf(r, item) == Ok(p)
       <==> Resolved(r.items, item, if item.steamEvidence.Some? then item.steamEvidence.value.finishCatalog else None, Ok(p))
            && Attestable(r.items, item, p)
  {
    ResolveExact(r, item, FinishOf(item), Ok(p));
    DescribeIff(r, item, p);
  }

  lemma QualityRead(item: InventoryItem)
    ensures EncodeQuality(InventoryQuality(item)) == if item.isSouvenir then 2 else if item.isStattrak then 1 else 0
  {}

  lemma ResolvedFields(r: CatalogResolver, item: InventoryItem)
    requires Loaded(r) && Resolve(r, item).Ok?
    ensures var entry := r.items[EntryOf(r, item).value]; var id := Resolve(r, item).value; var x := AttributesOf(id);
      && entry.defindex == Some(x.defindex) && OrZero(entry.paintindex) == x.paintindex && x.quality == InventoryQuality(item)
      && (x.paintindex == 0 ==> x.floatvalue == 0.0 && x.paintseed == 0)
      && (x.paintindex > 0 ==>
            && FloatOf(item) == Some(x.floatvalue) && SeedEvidence(item) == Some(x.paintseed) && item.steamEvidence.Some?
            && item.steamEvidence.value.floatvalue == Some(x.floatvalue)
            && item.steamEvidence.value.paintseed == Some(x.paintseed))
      && x.tintId == (if entry.itemType == "graffiti" then OrZero(entry.tintId) else 0)
      && x.isSlab == (entry.itemType == "sticker_slab")
      && x.patternTier == ClassifyTier(r.families, item.marketHashName, x.defindex, x.paintindex, x.paintseed)
      && id.marketHashName == item.marketHashName && id.itemType == entry.itemType
      && id.finishCatalog == (if item.steamEvidence.Some? then item.steamEvidence.value.finishCatalog else None)
  {}

  /** An unpainted item is counted under the very word that is attested for it, if its flags are its entry's, the entry
      has no tint that is not graffiti's, and no tier applies. */
  lemma CountedAsAttested(r: CatalogResolver, item: InventoryItem)
    requires Loaded(r) && Resolve(r, item).Ok?
    requires var entry := r.items[EntryOf(r, item).value];
      && entry.paintindex in {None, Some(0)} && entry.souvenir == item.isSouvenir && entry.statTrak == item.isStattrak
      && (entry.itemType != "graffiti" ==> entry.tintId in {None, Some(0)})
    requires Resolve(r, item).value.patternTier == 0
    ensures StaticKey(r.items[EntryOf(r, item).value]) == Some(WordOf(Resolve(r, item).value))
  {
    ResolvedFields(r, item);
    assert AttributesOf(Resolve(r, item).value) == EntryAttributes(r.items[EntryOf(r, item).value]);
  }

  /** Why an entry that was found is not attested, the first reason that applies. */
  lemma RefusalsExact(r: CatalogResolver, item: InventoryItem, p: nat)
    requires Loaded(r) && EntryOf(r, item) == Ok(p)
    ensures var entry := r.items[p]; var v := Resolve(r, item); var e := item.steamEvidence;
      var painted := entry.paintindex.Some? && entry.paintindex.value > 0;
      var noTint := entry.itemType == "graffiti" && entry.tintId == None;
      var noFloat := painted && (e == None || e.value.floatvalue == None);
      var noSeed := painted && (e == None || e.value.paintseed == None);
      && (v == Err(MissingDefindex) <==> entry.defindex == None)
      && (v == Err(MissingTintId) <==> entry.defindex.Some? && noTint)
      && (v == Err(MissingFloatvalue) <==> entry.defindex.Some? && !noTint && noFloat)
      && (v == Err(MissingPaintseed) <==> entry.defindex.Some? && !noTint && !noFloat && noSeed)
      && (forall n :: v == Err(UnrepresentableItemDetail(n)) ==>
            StaticKey(entry).Some? && n == |Bearers(r.items, StaticKey(entry).value)| > 1)
  {
    if StaticKey(r.items[p]).Some? { CountIsMultiplicity(r, StaticKey(r.items[p]).value); }
  }

  /** An item without an entry is refused as its resolution is. */
  lemma UnresolvedExact(r: CatalogResolver, item: InventoryItem, e: ResolveError)
    requires Loaded(r) && EntryOf(r, item).Err?
    ensures Resolve(r, item) == Err(e)
       <==> Resolved(r.items, item, if item.steamEvidence.Some? then item.steamEvidence.value.finishCatalog else None, Err(e))
  {
    ResolveExact(r, item, FinishOf(item), Err(e));
  }

  /** A standard word describes the item: entry, quality by the item's own flags, seed by Steam's evidence. */
  lemma StandardWordDescribes(r: CatalogResolver, item: InventoryItem)
    requires Loaded(r) && Resolve(r, item).Ok? && !IsExtended(WordOf(Resolve(r, item).value))
    ensures var entry := r.items[EntryOf(r, item).value]; var w := WordOf(Resolve(r, item).value);
      && entry.defindex == Some(DefindexOf(w))
      && PaintIndexOf(w) == OrZero(entry.paintindex) % 0x1_0000
      && QualityOf(w) == (if item.isSouvenir then 2 else if item.isStattrak then 1 else 0)
      && (OrZero(entry.paintindex) == 0 ==> SeedOf(w) == 0)
      && (OrZero(entry.paintindex) > 0 ==> SeedEvidence(item).Some? && SeedOf(w) == Min(SeedEvidence(item).value, 1000))
      && TierOf(w) == Min(Resolve(r, item).value.patternTier, 7)
  {
    var x := AttributesOf(Resolve(r, item).value);
    ResolvedFields(r, item);
    QualityRead(item);
    SentinelExact(x);
    StandardDecodes(x);
  }

  /** An extended word: graffiti tint, wide defindex, slab flag and quality. */
  lemma ExtendedWordDescribes(r: CatalogResolver, item: InventoryItem)
    requires Loaded(r) && Resolve(r, item).Ok? && IsExtended(WordOf(Resolve(r, item).value))
    ensures var entry := r.items[EntryOf(r, item).value]; var w := WordOf(Resolve(r, item).value);
      && entry.defindex.Some? && WideDefindexOf(w) == entry.defindex.value % 0x1000_0000
      && TintOf(w) == (if entry.itemType == GRAFFITI then Min(OrZero(entry.tintId), 31) else 0)
      && (SlabOf(w) <==> entry.itemType == STICKER_SLAB)
      && QualityOf(w) == (if item.isSouvenir then 2 else if item.isStattrak then 1 else 0)
  {
    var x := AttributesOf(Resolve(r, item).value);
    ResolvedFields(r, item);
    QualityRead(item);
    SentinelExact(x);
    ExtendedDecodes(x);
  }

  // Unambiguous attestation -----------------------------------------------------------------

  /** Equal standard words: the identities agree on everything the word can hold. */
  lemma UnambiguousAttestation(a: Identity, b: Identity)
    requires WordOf(a) == WordOf(b) && !IsExtended(WordOf(a))
    ensures a.tintId == b.tintId == 0 && a.defindex == b.defindex
    ensures EncodeQuality(a.quality) == EncodeQuality(b.quality)
    ensures Min(a.paintseed, MAX_PAINTSEED) == Min(b.paintseed, MAX_PAINTSEED)
    ensures Min(a.patternTier, MAX_PATTERN_TIER) == Min(b.patternTier, MAX_PATTERN_TIER)
    ensures a.paintindex % 0x1_0000 == b.paintindex % 0x1_0000
    ensures a.paintindex < 0x1_0000 && b.paintindex < 0x1_0000 ==> a.paintindex == b.paintindex
    ensures -0.0000005 <= a.floatvalue < 1.0485755 && -0.0000005 <= b.floatvalue < 1.0485755 ==>
              -0.000001 <= a.floatvalue - b.floatvalue <= 0.000001
  {
    SentinelExact(AttributesOf(a));
    StandardAgree(AttributesOf(a), AttributesOf(b));
    SmallPaint(a.paintindex, b.paintindex);
    FloatsAgree(a.floatvalue, b.floatvalue);
  }

  /** Equal extended words: 28 bits of defindex, the clamped tint, slab and quality class. */
  lemma ExtendedAttestation(a: Identity, b: Identity)
    requires WordOf(a) == WordOf(b) && IsExtended(WordOf(a))
    ensures a.defindex % 0x1000_0000 == b.defindex % 0x1000_0000 && Min(a.tintId, MAX_TINT_ID) == Min(b.tintId, MAX_TINT_ID)
    ensures a.isSlab == b.isSlab && EncodeQuality(a.quality) == EncodeQuality(b.quality)
  {
    SentinelExact(AttributesOf(a));
    ExtendedAgree(AttributesOf(a), AttributesOf(b));
  }

  /** What one word tells of two identities. */
  ghost predicate AgreeAsWritten(a: Identity, b: Identity) {
    && EncodeQuality(a.quality) == EncodeQuality(b.quality)
    && (if IsExtended(WordOf(a)) then
          && a.defindex % 0x1000_0000 == b.defindex % 0x1000_0000 && a.isSlab == b.isSlab
          && Min(a.tintId, MAX_TINT_ID) == Min(b.tintId, MAX_TINT_ID)
        else
          && a.defindex == b.defindex && a.paintindex % 0x1_0000 == b.paintindex % 0x1_0000
          && (a.paintindex < 0x1_0000 && b.paintindex < 0x1_0000 ==> a.paintindex == b.paintindex))
  }

  lemma EqualWordsAgree(a: Identity, b: Identity)
    requires WordOf(a) == WordOf(b)
    ensures AgreeAsWritten(a, b)
  {
    if IsExtended(WordOf(a)) { ExtendedAttestation(a, b); } else { UnambiguousAttestation(a, b); }
  }

  predicate TintOnlyOnGraffiti(entry: CatalogItem) { entry.itemType != GRAFFITI ==> OrZero(entry.tintId) == 0 }

  function QualityClass(entry: CatalogItem): nat { EncodeQuality(CatalogQuality(entry)) }

  /** Tints that the counters do not tell apart: none on either entry, or equal as clamped, with the same slab flag. */
  predicate SameTint(a: CatalogItem, b: CatalogItem) {
    if OrZero(a.tintId) == 0 || OrZero(b.tintId) == 0 then OrZero(a.tintId) == OrZero(b.tintId)
    else
      && Min(OrZero(a.tintId), MAX_TINT_ID) == Min(OrZero(b.tintId), MAX_TINT_ID)
      && (a.itemType == STICKER_SLAB <==> b.itemType == STICKER_SLAB)
  }

  /** When two unpainted entries of one small defindex are counted as the same word. */
  lemma StaticKeysEqualIff(a: CatalogItem, b: CatalogItem)
    requires a.defindex.Some? && a.defindex == b.defindex && a.defindex.value <= MAX_DEFINDEX_STANDARD
    requires OrZero(a.paintindex) == OrZero(b.paintindex) == 0
    ensures StaticKey(a) == StaticKey(b) <==> QualityClass(a) == QualityClass(b) && SameTint(a, b)
  {
    var x, y := EntryAttributes(a), EntryAttributes(b);
    assert StaticKey(a) == Some(EncodeWord(x)) && StaticKey(b) == Some(EncodeWord(y));
    KeysOfEntries(x, y);
  }

  lemma KeysOfEntries(x: Attributes, y: Attributes)
    requires x == Attributes(0, 0.0, x.defindex, 0, x.quality, x.tintId, 0, x.isSlab)
    requires y == Attributes(0, 0.0, x.defindex, 0, y.quality, y.tintId, 0, y.isSlab)
    requires x.defindex <= MAX_DEFINDEX_STANDARD
    ensures EncodeWord(x) == EncodeWord(y) <==>
      && EncodeQuality(x.quality) == EncodeQuality(y.quality)
      && (if x.tintId == 0 || y.tintId == 0 then x.tintId == y.tintId
          else Min(x.tintId, MAX_TINT_ID) == Min(y.tintId, MAX_TINT_ID) && x.isSlab == y.isSlab)
  {
    WordIsSum(x);
    WordIsSum(y);
    if EncodeWord(x) == EncodeWord(y) {
      if UsesExtended(x) { ExtendedAgree(x, y); } else { StandardAgree(x, y); }
    }
  }

  /** What a resolved static item says of its entry. */
  lemma StaticIdentity(r: CatalogResolver, item: InventoryItem)
    requires Loaded(r) && Resolve(r, item).Ok? && Resolve(r, item).value.paintindex == 0
    requires !IsExtended(WordOf(Resolve(r, item).value))
    ensures var p := EntryOf(r, item).value; var entry := r.items[p];
      && entry.defindex == Some(Resolve(r, item).value.defindex) && entry.defindex.value <= MAX_DEFINDEX_STANDARD
      && OrZero(entry.paintindex) == 0
      && (TintOnlyOnGraffiti(entry) <==> OrZero(entry.tintId) == 0)
      && (TintOnlyOnGraffiti(entry) ==> SoleBearer(r.items, p))
  {
    var p := EntryOf(r, item).value;
    SentinelExact(AttributesOf(Resolve(r, item).value));
    RepresentableIff(r, p);
  }

  /** Two static items with one standard word: their entries are one exactly if quality class and tint agree, as long as
      one of the two is not hidden from the counters by a stray tint, or else is alone with its key all the same. */
  lemma SameEntryIff(r: CatalogResolver, a: InventoryItem, b: InventoryItem)
    requires Loaded(r) && Resolve(r, a).Ok? && Resolve(r, b).Ok?
    requires var x, y := Resolve(r, a).value, Resolve(r, b).value;
      WordOf(x) == WordOf(y) && !IsExtended(WordOf(x)) && x.paintindex == y.paintindex == 0
    requires var p, q := EntryOf(r, a).value, EntryOf(r, b).value;
      TintOnlyOnGraffiti(r.items[p]) || TintOnlyOnGraffiti(r.items[q]) || SoleBearer(r.items, p) || SoleBearer(r.items, q)
    ensures var p, q := EntryOf(r, a).value, EntryOf(r, b).value; var ea, eb := r.items[p], r.items[q];
      && (p == q <==> QualityClass(ea) == QualityClass(eb) && SameTint(ea, eb))
      && (TintOnlyOnGraffiti(ea) || TintOnlyOnGraffiti(eb) ==> (SameTint(ea, eb) <==> OrZero(ea.tintId) == OrZero(eb.tintId)))
  {
    UnambiguousAttestation(Resolve(r, a).value, Resolve(r, b).value);
    StaticIdentity(r, a);
    StaticIdentity(r, b);
    StaticKeysEqualIff(r.items[EntryOf(r, a).value], r.items[EntryOf(r, b).value]);
  }

  /** An item that carries the StatTrak and Souvenir flags of its entry. */
  ghost predicate FlagsMatch(r: CatalogResolver, item: InventoryItem)
    requires Loaded(r) && EntryOf(r, item).Ok?
  {
    var entry := r.items[EntryOf(r, item).value];
    TintOnlyOnGraffiti(entry) && entry.statTrak == item.isStattrak && entry.souvenir == item.isSouvenir
  }

  lemma FlagsGiveQuality(r: CatalogResolver, item: InventoryItem)
    requires Loaded(r) && Resolve(r, item).Ok? && FlagsMatch(r, item)
    ensures QualityClass(r.items[EntryOf(r, item).value]) == EncodeQuality(Resolve(r, item).value.quality)
  {}

  /** In particular when both items carry the flags of their entries, and only graffiti have tints. */
  lemma MatchingFlagsSameEntry(r: CatalogResolver, a: InventoryItem, b: InventoryItem)
    requires Loaded(r) && Resolve(r, a).Ok? && Resolve(r, b).Ok? && FlagsMatch(r, a) && FlagsMatch(r, b)
    requires var x, y := Resolve(r, a).value, Resolve(r, b).value;
      WordOf(x) == WordOf(y) && !IsExtended(WordOf(x)) && x.paintindex == y.paintindex == 0
    ensures EntryOf(r, a) == EntryOf(r, b)
  {
    UnambiguousAttestation(Resolve(r, a).value, Resolve(r, b).value);
    FlagsGiveQuality(r, a);
    FlagsGiveQuality(r, b);
    StaticIdentity(r, a);
    StaticIdentity(r, b);
    SameEntryIff(r, a, b);
  }

  // A check on the catalog alone -------------------------------------------------------------

  /** The item that an entry's name and flags describe. */
  function Described(entry: CatalogItem): InventoryItem {
    InventoryItem(entry.marketHashName, None, entry.statTrak, entry.souvenir, None)
  }

  /** An unpainted entry that its name alone leads to and whose items get a standard word. */
  ghost predicate Attests(items: seq<CatalogItem>, p: nat) {
    && p < |items| && Named(items, items[p].marketHashName) == {p}
    && OrZero(items[p].paintindex) == 0 && items[p].defindex.Some? && items[p].defindex.value <= MAX_DEFINDEX_STANDARD
    && (items[p].itemType == GRAFFITI ==> items[p].tintId == Some(0))
    && (OrZero(items[p].tintId) > 0 || SoleBearer(items, p))
  }

  function TierAsNamed(r: CatalogResolver, entry: CatalogItem): u32
    requires entry.defindex.Some?
  {
    Min(ClassifyTier(r.families, entry.marketHashName, entry.defindex.value, 0, 0), MAX_PATTERN_TIER)
  }

  /** Two such entries that the word cannot tell apart. */
  ghost predicate Clash(r: CatalogResolver, p: nat, q: nat) {
    && p != q && Attests(r.items, p) && Attests(r.items, q)
    && r.items[p].defindex == r.items[q].defindex && QualityClass(r.items[p]) == QualityClass(r.items[q])
    && TierAsNamed(r, r.items[p]) == TierAsNamed(r, r.items[q])
  }

  /** An item found by name, unpainted, with its entry's flags and a standard word. */
  ghost predicate PlainlyAttested(r: CatalogResolver, item: InventoryItem)
    requires Loaded(r)
  {
    && FinishOf(item) == None && Resolve(r, item).Ok? && Resolve(r, item).value.paintindex == 0
    && !IsExtended(WordOf(Resolve(r, item).value))
    && (var entry := r.items[EntryOf(r, item).value]; entry.statTrak == item.isStattrak && entry.souvenir == item.isSouvenir)
  }

  /** Two items of different entries with one word. */
  ghost predicate Collide(r: CatalogResolver, a: InventoryItem, b: InventoryItem)
    requires Loaded(r)
  {
    && PlainlyAttested(r, a) && PlainlyAttested(r, b) && EntryOf(r, a) != EntryOf(r, b)
    && WordOf(Resolve(r, a).value) == WordOf(Resolve(r, b).value)
  }

  lemma PlainlyAttestedEntry(r: CatalogResolver, item: InventoryItem)
    requires Loaded(r) && PlainlyAttested(r, item)
    ensures Attests(r.items, EntryOf(r, item).value)
  {
    var p, x := EntryOf(r, item).value, AttributesOf(Resolve(r, item).value);
    NameLeadsTo(r, item, p);
    ResolvesIff(r, item, p);
    ResolvedFields(r, item);
    SentinelExact(x);
    AttestsFromFields(r.items, item, p, x);
  }

  lemma AttestsFromFields(items: seq<CatalogItem>, item: InventoryItem, p: nat, x: Attributes)
    requires p < |items| && Attestable(items, item, p) && Named(items, items[p].marketHashName) == {p} && !UsesExtended(x)
    requires items[p].defindex == Some(x.defindex) && OrZero(items[p].paintindex) == 0
    requires x.tintId == if items[p].itemType == GRAFFITI then OrZero(items[p].tintId) else 0
    ensures Attests(items, p)
  {}

  lemma PlainlyAttestedFields(r: CatalogResolver, item: InventoryItem)
    requires Loaded(r) && PlainlyAttested(r, item)
    ensures var id, entry := Resolve(r, item).value, r.items[EntryOf(r, item).value];
      && entry.defindex == Some(id.defindex) && EncodeQuality(id.quality) == QualityClass(entry)
      && Min(id.patternTier, MAX_PATTERN_TIER) == TierAsNamed(r, entry)
  {
    NameLeadsTo(r, item, EntryOf(r, item).value);
  }

  lemma NameLeadsTo(r: CatalogResolver, item: InventoryItem, p: nat)
    requires Loaded(r) && EntryOf(r, item) == Ok(p) && FinishOf(item) == None
    ensures Named(r.items, item.marketHashName) == {p} && r.items[p].marketHashName == item.marketHashName
  {
    ResolveExact(r, item, None, Ok(p));
    assert p in Named(r.items, item.marketHashName);
  }

  lemma DescribedIsAttested(r: CatalogResolver, p: nat)
    requires Loaded(r) && Attests(r.items, p)
    ensures var item := Described(r.items[p]); var entry := r.items[p];
      && PlainlyAttested(r, item) && EntryOf(r, item) == Ok(p)
      && AttributesOf(Resolve(r, item).value)
         == Attributes(0, 0.0, entry.defindex.value, 0, CatalogQuality(entry), 0,
                       ClassifyTier(r.families, entry.marketHashName, entry.defindex.value, 0, 0),
                       entry.itemType == STICKER_SLAB)
  {
    var item := Described(r.items[p]);
    ResolveExact(r, item, None, Ok(p));
    RepresentableIff(r, p);
    SentinelExact(AttributesOf(Resolve(r, item).value));
  }

  lemma SameStandardWord(x: Attributes, y: Attributes)
    requires x == Attributes(0, 0.0, x.defindex, 0, x.quality, 0, x.patternTier, x.isSlab)
    requires y == Attributes(0, 0.0, x.defindex, 0, y.quality, 0, y.patternTier, y.isSlab)
    requires x.defindex <= MAX_DEFINDEX_STANDARD && EncodeQuality(x.quality) == EncodeQuality(y.quality)
    requires Min(x.patternTier, MAX_PATTERN_TIER) == Min(y.patternTier, MAX_PATTERN_TIER)
    ensures EncodeWord(x) == EncodeWord(y)
  {
    WordIsSum(x);
    WordIsSum(y);
  }

  lemma ClashCollides(r: CatalogResolver, p: nat, q: nat)
    requires Loaded(r) && Clash(r, p, q)
    ensures Collide(r, Described(r.items[p]), Described(r.items[q]))
  {
    DescribedIsAttested(r, p);
    DescribedIsAttested(r, q);
    SameStandardWord(AttributesOf(Resolve(r, Described(r.items[p])).value), AttributesOf(Resolve(r, Described(r.items[q])).value));
  }

  lemma CollisionClashes(r: CatalogResolver, a: InventoryItem, b: InventoryItem)
    requires Loaded(r) && Collide(r, a, b)
    ensures Clash(r, EntryOf(r, a).value, EntryOf(r, b).value)
  {
    PlainlyAttestedEntry(r, a);
    PlainlyAttestedEntry(r, b);
    PlainlyAttestedFields(r, a);
    PlainlyAttestedFields(r, b);
    UnambiguousAttestation(Resolve(r, a).value, Resolve(r, b).value);
  }

  /** A catalog admits no collision exactly if no two of its entries clash. */
  lemma CollisionFreeIff(r: CatalogResolver)
    requires Loaded(r)
    ensures (forall a, b :: !Collide(r, a, b)) <==> (forall p, q :: !Clash(r, p, q))
  {
    if p: nat, q: nat :| Clash(r, p, q) {
      ClashCollides(r, p, q);
    }
    if a, b :| Collide(r, a, b) {
      CollisionClashes(r, a, b);
    }
  }

  /** Of two entries that clash one has a stray tint, hidden from the counters. */
  lemma ClashIsStray(r: CatalogResolver, p: nat, q: nat)
    requires Loaded(r) && Clash(r, p, q)
    ensures !TintOnlyOnGraffiti(r.items[p]) || !TintOnlyOnGraffiti(r.items[q])
  {
    StaticKeysEqualIff(r.items[p], r.items[q]);
  }

  // The counters go by the entry's quality and tint, the word by the item's flags and, but for graffiti, no tint: where
  // these differ, words can collide.

  function Pin(name: string, statTrak: bool, tint: Option<u32>): CatalogItem {
    CatalogItem(name, Some(1), None, tint, "collectible", None, None, None, statTrak, false)
  }

  function Bare(name: string, statTrak: bool): InventoryItem { InventoryItem(name, None, statTrak, false, None) }

  /** Either of two pins resolves under its own name if no counter stands against it. */
  lemma PinResolves(r: CatalogResolver, a: CatalogItem, b: CatalogItem, p: nat, statTrak: bool)
    requires Loaded(r) && r.families == [] && r.items == [a, b] && a.marketHashName != b.marketHashName
    requires p < 2 && r.items[p] == Pin(r.items[p].marketHashName, r.items[p].statTrak, r.items[p].tintId)
    requires EntryExtended(r.items[p]) || StaticKey(a) != StaticKey(b)
    ensures var item := Bare(r.items[p].marketHashName, statTrak);
      && EntryOf(r, item) == Ok(p)
      && Resolve(r, item) == Ok(Identity(item.marketHashName, 1, 0, 0, "collectible", if statTrak then 9 else 4, 0.0, 0, 0, false, None))
  {
    var item := Bare(r.items[p].marketHashName, statTrak);
    assert Named(r.items, item.marketHashName) == {p};
    ResolveExact(r, item, None, Ok(p));
    RepresentableIff(r, p);
  }

  lemma KeysDiffer(a: CatalogItem, b: CatalogItem)
    requires a == Pin("Pin", false, None)
    requires b == Pin("StatTrak Pin", true, None) || b == Pin("Red Pin", false, Some(5))
    ensures a.marketHashName != b.marketHashName && StaticKey(a) != StaticKey(b)
  {
    assert "Pin"[0] != "StatTrak Pin"[0] && "Pin"[0] != "Red Pin"[0];
    StaticKeysEqualIff(a, b);
  }

  /** Two entries, one word: the item of the plain entry is flagged StatTrak. */
  lemma MismatchedFlagsCollide(r: CatalogResolver)
    requires Loaded(r) && r.families == [] && r.items == [Pin("Pin", false, None), Pin("StatTrak Pin", true, None)]
    ensures var a, b := Bare("Pin", true), Bare("StatTrak Pin", true);
      && Resolve(r, a).Ok? && Resolve(r, b).Ok? && EntryOf(r, a) != EntryOf(r, b)
      && WordOf(Resolve(r, a).value) == WordOf(Resolve(r, b).value)
  {
    KeysDiffer(r.items[0], r.items[1]);
    PinResolves(r, r.items[0], r.items[1], 0, true);
    PinResolves(r, r.items[0], r.items[1], 1, true);
  }

  /** Two entries, one word, all flags right: a tint that is not a graffiti's is counted but not attested. */
  lemma StrayTintCollides(r: CatalogResolver)
    requires Loaded(r) && r.families == [] && r.items == [Pin("Pin", false, None), Pin("Red Pin", false, Some(5))]
    ensures var a, b := Bare("Pin", false), Bare("Red Pin", false);
      && Resolve(r, a).Ok? && Resolve(r, b).Ok? && EntryOf(r, a) != EntryOf(r, b)
      && WordOf(Resolve(r, a).value) == WordOf(Resolve(r, b).value)
  {
    KeysDiffer(r.items[0], r.items[1]);
    PinResolves(r, r.items[0], r.items[1], 0, false);
    PinResolves(r, r.items[0], r.items[1], 1, false);
  }

  /** What remains: two entries with equal stray tints are both hidden from the counters, and agree in everything. */
  lemma StrayPairCollides(r: CatalogResolver)
    requires Loaded(r) && r.families == [] && r.items == [Pin("Pin", false, Some(5)), Pin("Red Pin", false, Some(5))]
    ensures var a, b := Bare("Pin", false), Bare("Red Pin", false);
      && Resolve(r, a).Ok? && Resolve(r, b).Ok? && EntryOf(r, a) != EntryOf(r, b)
      && WordOf(Resolve(r, a).value) == WordOf(Resolve(r, b).value)
      && QualityClass(r.items[0]) == QualityClass(r.items[1]) && SameTint(r.items[0], r.items[1])
  {
    assert "Pin"[0] != "Red Pin"[0];
    PinResolves(r, r.items[0], r.items[1], 0, false);
    PinResolves(r, r.items[0], r.items[1], 1, false);
  }
}
