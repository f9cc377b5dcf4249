/** `encode_item_detail_with_flags`: CS2 item attributes packed into a u64, and the decoder its bit layout calls for. */
module ItemDetail {
  import opened Prelude
  import opened Bits

  const FLOAT_PRECISION := 1_000_000.0
  const MAX_DEFINDEX_STANDARD: u32 := 0x1FFF
  const MAX_PAINTSEED: u32 := 1000
  const MAX_PATTERN_TIER: u32 := 0x7
  const MAX_TINT_ID: u32 := 0x1F
  const EXTENDED_MODE_PAINTSEED := 0x3FF

  /** Attributes as the source receives them; `floatvalue` is the exact value of a finite f32. */
  datatype Attributes = Attributes(
    paintindex: u32,
    floatvalue: real,
    defindex: u32,
    paintseed: u32,
    quality: u32,
    tintId: u32,
    patternTier: u32,
    isSlab: bool)

  function EncodeQuality(steamQuality: u32): (q: nat)
    ensures q <= 2
  {
    if steamQuality == 9 then 1 else if steamQuality == 12 then 2 else 0
  }

  function Min(a: u32, b: u32): u32 { if a < b then a else b }

  /** Nearest integer, halves away from zero. */
  function Round(x: real): int { if x >= 0.0 then (x + 0.5).Floor else -((-x + 0.5).Floor) }

  /** `as u64` on a finite float: saturating. */
  function SaturateU64(n: int): u64 { if n < 0 then 0 else if n > U64_MAX then U64_MAX else n }

  function ScaleFloat(f: real): u64 { SaturateU64(Round(f * FLOAT_PRECISION)) }

  predicate UsesExtended(a: Attributes) { a.defindex > MAX_DEFINDEX_STANDARD || a.tintId > 0 }

  function JoinExtended(tint: nat, upper: nat, lower: nat, slab: nat, quality: nat): nat {
    Or(Or(Or(Or(Or(Shl(tint, 43), Shl(upper, 28)), Shl(lower, 15)), Shl(EXTENDED_MODE_PAINTSEED, 5)), Shl(slab, 4)), quality)
  }

  function JoinStandard(paint: nat, floatBits: nat, def: nat, seed: nat, tier: nat, quality: nat): nat {
    Or(Or(Or(Or(Or(Shl(paint, 48), Shl(floatBits, 28)), Shl(def, 15)), Shl(seed, 5)), Shl(tier, 2)), quality)
  }

  function EncodeExtended(a: Attributes): nat {
    JoinExtended(And(Min(a.tintId, MAX_TINT_ID), 0x1F), And(Shr(a.defindex, 13), 0x7FFF), And(a.defindex, 0x1FFF),
                 if a.isSlab then 1 else 0, And(EncodeQuality(a.quality), 0x3))
  }

  function EncodeStandard(a: Attributes): nat {
    JoinStandard(And(a.paintindex, 0xFFFF), And(ScaleFloat(a.floatvalue), 0xF_FFFF), And(a.defindex, 0x1FFF),
                 And(Min(a.paintseed, MAX_PAINTSEED), 0x3FF), And(Min(a.patternTier, MAX_PATTERN_TIER), 0x7),
                 And(EncodeQuality(a.quality), 0x3))
  }

  function EncodeWord(a: Attributes): nat { if UsesExtended(a) then EncodeExtended(a) else EncodeStandard(a) }

  // The words as sums -----------------------------------------------------------------------

  function PackExtended(tint: nat, upper: nat, lower: nat, slab: nat, quality: nat): nat {
    tint * 0x800_0000_0000 + upper * 0x1000_0000 + lower * 0x8000 + EXTENDED_MODE_PAINTSEED * 0x20 + slab * 0x10 + quality
  }

  function PackStandard(paint: nat, floatBits: nat, def: nat, seed: nat, tier: nat, quality: nat): nat {
    paint * 0x1_0000_0000_0000 + floatBits * 0x1000_0000 + def * 0x8000 + seed * 0x20 + tier * 4 + quality
  }

  function ExtendedSum(a: Attributes): nat {
    PackExtended(Min(a.tintId, MAX_TINT_ID) % 0x20, a.defindex / 0x2000 % 0x8000, a.defindex % 0x2000,
                 if a.isSlab then 1 else 0, EncodeQuality(a.quality))
  }

  function StandardSum(a: Attributes): nat {
    PackStandard(a.paintindex % 0x1_0000, ScaleFloat(a.floatvalue) % 0x10_0000, a.defindex % 0x2000,
                 Min(a.paintseed, MAX_PAINTSEED) % 0x400, Min(a.patternTier, MAX_PATTERN_TIER) % 8,
                 EncodeQuality(a.quality))
  }

  lemma Powers()
    ensures Pow2(2) == 4 && Pow2(3) == 8 && Pow2(4) == 0x10 && Pow2(5) == 0x20 && Pow2(10) == 0x400
    ensures Pow2(13) == 0x2000 && Pow2(15) == 0x8000 && Pow2(16) == 0x1_0000 && Pow2(20) == 0x10_0000
    ensures Pow2(28) == 0x1000_0000 && Pow2(43) == 0x800_0000_0000 && Pow2(48) == 0x1_0000_0000_0000
  {
    assert Pow2(8) == 0x100 && Pow2(12) == 0x1000;
    assert Pow2(16) == 0x1_0000 && Pow2(20) == 0x10_0000;
    assert Pow2(24) == 0x100_0000 && Pow2(28) == 0x1000_0000;
    assert Pow2(32) == 0x1_0000_0000 && Pow2(36) == 0x10_0000_0000;
    assert Pow2(40) == 0x100_0000_0000 && Pow2(44) == 0x1000_0000_0000;
  }

  // One more `|`: a field below the lowest bit in use fills bits that are still zero.

  lemma OrAt48(paint: nat, floatBits: nat)
    requires floatBits < 0x10_0000
    ensures Or(Shl(paint, 48), Shl(floatBits, 28)) == paint * 0x1_0000_0000_0000 + floatBits * 0x1000_0000
  {
    Powers();
    OrLow(paint, floatBits * 0x1000_0000, 48, 0x1_0000_0000_0000);
  }

  lemma OrAt43(tint: nat, upper: nat)
    requires upper < 0x8000
    ensures Or(Shl(tint, 43), Shl(upper, 28)) == tint * 0x800_0000_0000 + upper * 0x1000_0000
  {
    Powers();
    OrLow(tint, upper * 0x1000_0000, 43, 0x800_0000_0000);
  }

  lemma OrAt28(high: nat, def: nat)
    requires def < 0x2000
    ensures Or(high * 0x1000_0000, Shl(def, 15)) == high * 0x1000_0000 + def * 0x8000
  {
    Powers();
    OrLow(high, def * 0x8000, 28, 0x1000_0000);
  }

  lemma OrAt15(high: nat, seed: nat)
    requires seed < 0x400
    ensures Or(high * 0x8000, Shl(seed, 5)) == high * 0x8000 + seed * 0x20
  {
    Powers();
    OrLow(high, seed * 0x20, 15, 0x8000);
  }

  lemma OrAt5(high: nat, low: nat, k: nat, field: nat)
    requires low == Shl(field, k) && low < 0x20
    ensures Or(high * 0x20, Shl(field, k)) == high * 0x20 + low
  {
    Powers();
    OrLow(high, low, 5, 0x20);
  }

  lemma OrAt4(high: nat, quality: nat)
    requires quality < 0x10
    ensures Or(high * 0x10, quality) == high * 0x10 + quality
  {
    Powers();
    OrLow(high, quality, 4, 0x10);
  }

  lemma OrAt2(high: nat, quality: nat)
    requires quality < 4
    ensures Or(high * 4, quality) == high * 4 + quality
  {
    Powers();
    OrLow(high, quality, 2, 4);
  }

  lemma ShlSmall(field: nat)
    ensures Shl(field, 2) == field * 4 && Shl(field, 4) == field * 0x10
  {
    Powers();
  }

  lemma StandardIsSum(paint: nat, floatBits: nat, def: nat, seed: nat, tier: nat, quality: nat)
    requires floatBits < 0x10_0000 && def < 0x2000 && seed < 0x400 && tier < 8 && quality < 4
    ensures JoinStandard(paint, floatBits, def, seed, tier, quality) == PackStandard(paint, floatBits, def, seed, tier, quality)
  {
    var h1 := paint * 0x10_0000 + floatBits;
    var h2 := h1 * 0x2000 + def;
    var h3 := h2 * 0x400 + seed;
    var h4 := h3 * 8 + tier;
    var w1 := Or(Shl(paint, 48), Shl(floatBits, 28));
    assert w1 == h1 * 0x1000_0000 by { OrAt48(paint, floatBits); }
    var w2 := Or(w1, Shl(def, 15));
    assert w2 == h2 * 0x8000 by { OrAt28(h1, def); }
    var w3 := Or(w2, Shl(seed, 5));
    assert w3 == h3 * 0x20 by { OrAt15(h2, seed); }
    var w4 := Or(w3, Shl(tier, 2));
    assert w4 == h4 * 4 by {
      ShlSmall(tier);
      OrAt5(h3, tier * 4, 2, tier);
    }
    assert Or(w4, quality) == h4 * 4 + quality by { OrAt2(h4, quality); }
  }

  lemma ExtendedIsSum(tint: nat, upper: nat, lower: nat, slab: nat, quality: nat)
    requires upper < 0x8000 && lower < 0x2000 && slab < 2 && quality < 4
    ensures JoinExtended(tint, upper, lower, slab, quality) == PackExtended(tint, upper, lower, slab, quality)
  {
    var h1 := tint * 0x8000 + upper;
    var h2 := h1 * 0x2000 + lower;
    var h3 := h2 * 0x400 + EXTENDED_MODE_PAINTSEED;
    var h4 := h3 * 2 + slab;
    var w1 := Or(Shl(tint, 43), Shl(upper, 28));
    assert w1 == h1 * 0x1000_0000 by { OrAt43(tint, upper); }
    var w2 := Or(w1, Shl(lower, 15));
    assert w2 == h2 * 0x8000 by { OrAt28(h1, lower); }
    var w3 := Or(w2, Shl(EXTENDED_MODE_PAINTSEED, 5));
    assert w3 == h3 * 0x20 by { OrAt15(h2, EXTENDED_MODE_PAINTSEED); }
    var w4 := Or(w3, Shl(slab, 4));
    assert w4 == h4 * 0x10 by {
      ShlSmall(slab);
      OrAt5(h3, slab * 0x10, 4, slab);
    }
    assert Or(w4, quality) == h4 * 0x10 + quality by { OrAt4(h4, quality); }
  }

  lemma QualityMask(q: nat)
    requires q < 4
    ensures And(q, 0x3) == q
  {
    Powers();
    ShiftAndMask(q, 2, 4);
  }

  /** The words the source builds with `<<`, `>>`, `&` and `|` are these sums, for all inputs. */
  lemma WordIsSum(a: Attributes)
    ensures EncodeWord(a) == if UsesExtended(a) then ExtendedSum(a) else StandardSum(a)
  {
    QualityMask(EncodeQuality(a.quality));
    if UsesExtended(a) { ExtendedWordIsSum(a); } else { StandardWordIsSum(a); }
  }

  lemma ExtendedWordIsSum(a: Attributes)
    ensures EncodeExtended(a) == ExtendedSum(a)
  {
    Powers();
    QualityMask(EncodeQuality(a.quality));
    ShiftAndMask(Min(a.tintId, MAX_TINT_ID), 5, 0x20);
    ShiftAndMask(a.defindex, 13, 0x2000);
    ShiftAndMask(Shr(a.defindex, 13), 15, 0x8000);
    ExtendedIsSum(Min(a.tintId, MAX_TINT_ID) % 0x20, a.defindex / 0x2000 % 0x8000, a.defindex % 0x2000,
                  if a.isSlab then 1 else 0, EncodeQuality(a.quality));
  }

  lemma StandardWordIsSum(a: Attributes)
    ensures EncodeStandard(a) == StandardSum(a)
  {
    Powers();
    QualityMask(EncodeQuality(a.quality));
    ShiftAndMask(a.paintindex, 16, 0x1_0000);
    ShiftAndMask(ScaleFloat(a.floatvalue), 20, 0x10_0000);
    ShiftAndMask(a.defindex, 13, 0x2000);
    ShiftAndMask(Min(a.paintseed, MAX_PAINTSEED), 10, 0x400);
    ShiftAndMask(Min(a.patternTier, MAX_PATTERN_TIER), 3, 8);
    StandardIsSum(a.paintindex % 0x1_0000, ScaleFloat(a.floatvalue) % 0x10_0000, a.defindex % 0x2000,
                  Min(a.paintseed, MAX_PAINTSEED) % 0x400, Min(a.patternTier, MAX_PATTERN_TIER) % 8,
                  EncodeQuality(a.quality));
  }

  // The decoder -----------------------------------------------------------------------------

  function PaintIndexOf(w: nat): nat { w / 0x1_0000_0000_0000 % 0x1_0000 }
  function FloatBitsOf(w: nat): nat { w / 0x1000_0000 % 0x10_0000 }
  function DefindexOf(w: nat): nat { w / 0x8000 % 0x2000 }
  function SeedOf(w: nat): nat { w / 0x20 % 0x400 }
  function TierOf(w: nat): nat { w / 4 % 8 }
  function QualityOf(w: nat): nat { w % 4 }

  predicate IsExtended(w: nat) { SeedOf(w) == EXTENDED_MODE_PAINTSEED }

  function TintOf(w: nat): nat { FloatBitsOf(w) / 0x8000 }
  function WideDefindexOf(w: nat): nat { FloatBitsOf(w) % 0x8000 * 0x2000 + DefindexOf(w) }
  function SlabOf(w: nat): bool { w / 16 % 2 == 1 }

  // Round trips -----------------------------------------------------------------------------

  lemma StandardFields(paint: nat, floatBits: nat, def: nat, seed: nat, tier: nat, quality: nat)
    requires paint < 0x1_0000 && floatBits < 0x10_0000 && def < 0x2000 && seed < 0x400 && tier < 8 && quality < 4
    ensures var w := PackStandard(paint, floatBits, def, seed, tier, quality);
      && w <= U64_MAX && PaintIndexOf(w) == paint && FloatBitsOf(w) == floatBits && DefindexOf(w) == def
      && SeedOf(w) == seed && TierOf(w) == tier && QualityOf(w) == quality
  {
    var w := PackStandard(paint, floatBits, def, seed, tier, quality);
    var h1 := paint * 0x10_0000 + floatBits;
    var h2 := h1 * 0x2000 + def;
    var h3 := h2 * 0x400 + seed;
    var h4 := h3 * 8 + tier;
    Cut(w, h4, quality, 4);
    Cut(h4, h3, tier, 8);
    Cut(w, h3, tier * 4 + quality, 0x20);
    Cut(h3, h2, seed, 0x400);
    Cut(w, h2, seed * 0x20 + tier * 4 + quality, 0x8000);
    Cut(h2, h1, def, 0x2000);
    Cut(w, h1, def * 0x8000 + seed * 0x20 + tier * 4 + quality, 0x1000_0000);
    Cut(h1, paint, floatBits, 0x10_0000);
    Cut(w, paint, floatBits * 0x1000_0000 + def * 0x8000 + seed * 0x20 + tier * 4 + quality, 0x1_0000_0000_0000);
  }

  lemma SlabField(w: nat, above: nat, slab: nat, quality: nat)
    requires w == above * 0x20 + slab * 0x10 + quality && slab < 2 && quality < 4
    ensures w / 16 % 2 == slab
  {
    Cut(w, above * 2 + slab, quality, 16);
  }

  /** An extended word has the standard layout, with tint and upper defindex in the float field. */
  lemma ExtendedAsStandard(tint: nat, upper: nat, lower: nat, slab: nat, quality: nat)
    requires tint < 0x20 && upper < 0x8000
    ensures tint * 0x8000 + upper < 0x10_0000
    ensures PackExtended(tint, upper, lower, slab, quality)
         == PackStandard(0, tint * 0x8000 + upper, lower, EXTENDED_MODE_PAINTSEED, slab * 4, quality)
  {}

  lemma ExtendedFields(tint: nat, upper: nat, lower: nat, slab: nat, quality: nat)
    requires tint < 0x20 && upper < 0x8000 && lower < 0x2000 && slab < 2 && quality < 4
    ensures var w := PackExtended(tint, upper, lower, slab, quality);
      && w <= U64_MAX && TintOf(w) == tint && FloatBitsOf(w) % 0x8000 == upper && DefindexOf(w) == lower
      && SeedOf(w) == EXTENDED_MODE_PAINTSEED && w / 16 % 2 == slab && QualityOf(w) == quality
  {
    ExtendedAsStandard(tint, upper, lower, slab, quality);
    ExtendedFieldsOf(PackExtended(tint, upper, lower, slab, quality), tint * 0x8000 + upper, tint, upper, lower, slab, quality);
  }

  lemma ExtendedFieldsOf(w: nat, high: nat, tint: nat, upper: nat, lower: nat, slab: nat, quality: nat)
    requires high < 0x10_0000 && high == tint * 0x8000 + upper && upper < 0x8000
    requires lower < 0x2000 && slab < 2 && quality < 4
    requires w == PackStandard(0, high, lower, EXTENDED_MODE_PAINTSEED, slab * 4, quality)
    ensures w <= U64_MAX && TintOf(w) == tint && FloatBitsOf(w) % 0x8000 == upper && DefindexOf(w) == lower
    ensures SeedOf(w) == EXTENDED_MODE_PAINTSEED && w / 16 % 2 == slab && QualityOf(w) == quality
  {
    StandardFields(0, high, lower, EXTENDED_MODE_PAINTSEED, slab * 4, quality);
    Cut(high, tint, upper, 0x8000);
    SlabField(w, (high * 0x2000 + lower) * 0x400 + EXTENDED_MODE_PAINTSEED, slab, quality);
  }

  /** In standard mode every field is read back: paint index and float as far as their bits go, the rest exactly
      as clamped. */
  lemma StandardDecodes(a: Attributes)
    requires !UsesExtended(a)
    ensures var w := EncodeWord(a);
      && w <= U64_MAX && !IsExtended(w)
      && PaintIndexOf(w) == a.paintindex % 0x1_0000
      && FloatBitsOf(w) == ScaleFloat(a.floatvalue) % 0x10_0000
      && DefindexOf(w) == a.defindex
      && SeedOf(w) == Min(a.paintseed, MAX_PAINTSEED)
      && TierOf(w) == Min(a.patternTier, MAX_PATTERN_TIER)
      && QualityOf(w) == EncodeQuality(a.quality)
  {
    WordIsSum(a);
    Reduced(a);
    StandardFields(a.paintindex % 0x1_0000, ScaleFloat(a.floatvalue) % 0x10_0000, a.defindex,
                   Min(a.paintseed, MAX_PAINTSEED), Min(a.patternTier, MAX_PATTERN_TIER), EncodeQuality(a.quality));
  }

  /** Masks that do nothing, because the value was clamped or checked before. */
  lemma Reduced(a: Attributes)
    ensures a.defindex <= MAX_DEFINDEX_STANDARD ==> a.defindex % 0x2000 == a.defindex
    ensures Min(a.paintseed, MAX_PAINTSEED) % 0x400 == Min(a.paintseed, MAX_PAINTSEED)
    ensures Min(a.patternTier, MAX_PATTERN_TIER) % 8 == Min(a.patternTier, MAX_PATTERN_TIER)
    ensures Min(a.tintId, MAX_TINT_ID) % 0x20 == Min(a.tintId, MAX_TINT_ID)
  {}

  /** In extended mode: 28 bits of defindex, the clamped tint, the slab flag and the quality class. */
  lemma ExtendedDecodes(a: Attributes)
    requires UsesExtended(a)
    ensures var w := EncodeWord(a);
      && w <= U64_MAX && IsExtended(w)
      && WideDefindexOf(w) == a.defindex % 0x1000_0000
      && TintOf(w) == Min(a.tintId, MAX_TINT_ID)
      && SlabOf(w) == a.isSlab
      && QualityOf(w) == EncodeQuality(a.quality)
  {
    WordIsSum(a);
    Reduced(a);
    var upper, lower := a.defindex / 0x2000 % 0x8000, a.defindex % 0x2000;
    ExtendedFields(Min(a.tintId, MAX_TINT_ID), upper, lower, if a.isSlab then 1 else 0, EncodeQuality(a.quality));
    WideDefindex(a.defindex);
  }

  lemma WideDefindex(defindex: nat)
    ensures defindex / 0x2000 % 0x8000 * 0x2000 + defindex % 0x2000 == defindex % 0x1000_0000
  {
    var high := defindex / 0x2000;
    Cut(defindex, high / 0x8000, high % 0x8000 * 0x2000 + defindex % 0x2000, 0x1000_0000);
  }

  /** The sentinel tells the layouts apart, for all inputs. */
  lemma SentinelExact(a: Attributes)
    ensures IsExtended(EncodeWord(a)) <==> UsesExtended(a)
    ensures IsExtended(EncodeWord(a)) <==> a.defindex > 8191 || a.tintId > 0
  {
    if UsesExtended(a) { ExtendedDecodes(a); } else { StandardDecodes(a); }
  }

  /** The limits that the layout documents, and the three quality classes. */
  lemma LimitsAsDocumented(a: Attributes)
    ensures QualityOf(EncodeWord(a)) == if a.quality == 9 then 1 else if a.quality == 12 then 2 else 0
    ensures a.defindex > 8191 || a.tintId > 0 ==> TintOf(EncodeWord(a)) == if a.tintId > 31 then 31 else a.tintId
    ensures a.defindex <= 8191 && a.tintId == 0 ==>
              && SeedOf(EncodeWord(a)) == (if a.paintseed > 1000 then 1000 else a.paintseed)
              && TierOf(EncodeWord(a)) == if a.patternTier > 7 then 7 else a.patternTier
  {
    if UsesExtended(a) { ExtendedDecodes(a); } else { StandardDecodes(a); }
  }

  function DecodedFloat(w: nat): real { FloatBitsOf(w) as real / FLOAT_PRECISION }

  /** Exactly the floats that survive: those that round into the 20 bits of the field. */
  lemma FloatAccuracyIff(a: Attributes)
    requires !UsesExtended(a)
    ensures -0.0000005 <= DecodedFloat(EncodeWord(a)) - a.floatvalue <= 0.0000005
       <==> -0.0000005 <= a.floatvalue < 1.0485755
  {
    StandardDecodes(a);
    ScaledFloatAccuracyIff(a.floatvalue);
  }

  lemma ScaledFloatAccuracyIff(f: real)
    ensures var decoded := (ScaleFloat(f) % 0x10_0000) as real / FLOAT_PRECISION;
      -0.0000005 <= decoded - f <= 0.0000005 <==> -0.0000005 <= f < 1.0485755
  {
    var n := ScaleFloat(f);
    if f >= 1.0485755 {
      assert n >= 0x10_0000;
    }
  }

  // Equal words -----------------------------------------------------------------------------

  lemma StandardAgree(a: Attributes, b: Attributes)
    requires EncodeWord(a) == EncodeWord(b) && !UsesExtended(a)
    ensures !UsesExtended(b) && a.defindex == b.defindex && a.paintindex % 0x1_0000 == b.paintindex % 0x1_0000
    ensures EncodeQuality(a.quality) == EncodeQuality(b.quality)
    ensures Min(a.paintseed, MAX_PAINTSEED) == Min(b.paintseed, MAX_PAINTSEED)
    ensures Min(a.patternTier, MAX_PATTERN_TIER) == Min(b.patternTier, MAX_PATTERN_TIER)
    ensures ScaleFloat(a.floatvalue) % 0x10_0000 == ScaleFloat(b.floatvalue) % 0x10_0000
  {
    SentinelExact(a);
    SentinelExact(b);
    StandardDecodes(a);
    StandardDecodes(b);
  }

  lemma ExtendedAgree(a: Attributes, b: Attributes)
    requires EncodeWord(a) == EncodeWord(b) && UsesExtended(a)
    ensures UsesExtended(b) && a.defindex % 0x1000_0000 == b.defindex % 0x1000_0000 && a.isSlab == b.isSlab
    ensures Min(a.tintId, MAX_TINT_ID) == Min(b.tintId, MAX_TINT_ID)
    ensures EncodeQuality(a.quality) == EncodeQuality(b.quality)
  {
    SentinelExact(a);
    SentinelExact(b);
    ExtendedDecodes(a);
    ExtendedDecodes(b);
  }

  lemma SmallPaint(a: nat, b: nat)
    requires a % 0x1_0000 == b % 0x1_0000
    ensures a < 0x1_0000 && b < 0x1_0000 ==> a == b
  {}

  lemma FloatsAgree(f: real, g: real)
    requires ScaleFloat(f) % 0x10_0000 == ScaleFloat(g) % 0x10_0000
    ensures -0.0000005 <= f < 1.0485755 && -0.0000005 <= g < 1.0485755 ==> -0.000001 <= f - g <= 0.000001
  {
    ScaledFloatAccuracyIff(f);
    ScaledFloatAccuracyIff(g);
  }
}
