/** `classify_special_pattern_tier`: which tier a special pattern has, by families of rules over catalog keys. */
module Tiers {
  import opened Prelude
  import opened Catalog
  import Names

  /** `iter().find`. */
  function FindFirst<T>(s: seq<T>, p: T -> bool): (r: Option<T>)
    ensures r.Some? ==> exists i :: 0 <= i < |s| && s[i] == r.value && p(s[i]) && forall j :: 0 <= j < i ==> !p(s[j])
    ensures r.None? ==> forall i :: 0 <= i < |s| ==> !p(s[i])
  {
    if s == [] then None
    else if p(s[0]) then Some(s[0])
    else FindFirst(s[1..], p)
  }

  predicate EndsWith(s: string, suffix: string) { |suffix| <= |s| && s[|s| - |suffix|..] == suffix }

  predicate Matches(key: string, m: Matcher) {
    match m
    case Exact(value) => key == value
    case Suffix(value) => EndsWith(key, value)
  }

  predicate MatchesAny(key: string, ms: seq<Matcher>) { exists m :: m in ms && Matches(key, m) }

  predicate MatchesItemRule(rule: SeedItemRule, key: string, defindex: u32, paintindex: u32) {
    && (rule.matchers != [] ==> MatchesAny(key, rule.matchers))
    && (rule.defindexes != [] ==> defindex in rule.defindexes)
    && (rule.paintIndex.Some? ==> rule.paintIndex.value == paintindex)
  }

  predicate MatchesSeed(rule: SeedRule, seed: u32) {
    seed in rule.seeds || exists range :: range in rule.seedRanges && range.0 <= seed <= range.1
  }

  function BucketKey(classifier: Classifier, key: string, defindex: u32, paintindex: u32, seed: u32): Option<string> {
    match classifier
    case PaintIndexMap(rules) =>
      var rule := FindFirst(rules, (rule: PaintRule) => paintindex in rule.paintIndexes);
      if rule.Some? then Some(rule.value.bucketKey) else None
    case PaintSeedMap(items) =>
      var itemRule := FindFirst(items, (rule: SeedItemRule) => MatchesItemRule(rule, key, defindex, paintindex));
      if itemRule.None? then None
      else
        var rule := FindFirst(itemRule.value.rules, (rule: SeedRule) => MatchesSeed(rule, seed));
        if rule.Some? then Some(rule.value.bucketKey) else None
  }

  function TierOfBucket(buckets: seq<Bucket>, bucketKey: string): u32 {
    var bucket := FindFirst(buckets, (bucket: Bucket) => bucket.key == bucketKey);
    if bucket.Some? then bucket.value.patternTier else 0
  }

  function ClassifyTier(families: seq<SpecialFamily>, name: string, defindex: u32, paintindex: u32, seed: u32): u32 {
    TierOfKey(families, Names.ToCatalogKey(name), defindex, paintindex, seed)
  }

  function TierOfKey(families: seq<SpecialFamily>, key: string, defindex: u32, paintindex: u32, seed: u32): u32 {
    var family := FindFirst(families, (family: SpecialFamily) => MatchesAny(key, family.matchers));
    if family.None? then 0
    else
      var bucketKey := BucketKey(family.value.classifier, key, defindex, paintindex, seed);
      if bucketKey.None? then 0 else TierOfBucket(family.value.buckets, bucketKey.value)
  }

  /** Exterior, StatTrak and Souvenir do not change the tier of a pattern. */
  lemma VariantsShareTier(families: seq<SpecialFamily>, base: string, v: Names.Variant, exterior: string,
                          w: Names.Variant, otherExterior: string, defindex: u32, paintindex: u32, seed: u32)
    requires Names.Undecorated(base, exterior) && Names.Undecorated(base, otherExterior)
    ensures ClassifyTier(families, Names.Decorated(v, base, exterior), defindex, paintindex, seed)
         == ClassifyTier(families, Names.Decorated(w, base, otherExterior), defindex, paintindex, seed)
  {
    Names.VariantsShareKey(v, w, base, exterior, otherExterior);
  }

  // What the rules say, position by position ------------------------------------------------

  /** A name that equals a value, or ends with one. */
  ghost predicate Meant(key: string, m: Matcher) {
    (m.Exact? && key == m.value) || (m.Suffix? && exists stem :: key == stem + m.value)
  }

  ghost predicate MeantByAny(key: string, ms: seq<Matcher>) { exists i :: 0 <= i < |ms| && Meant(key, ms[i]) }

  ghost predicate FirstFamily(families: seq<SpecialFamily>, key: string, i: nat) {
    i < |families| && MeantByAny(key, families[i].matchers) && forall j :: 0 <= j < i ==> !MeantByAny(key, families[j].matchers)
  }

  ghost predicate FirstPaintRule(rules: seq<PaintRule>, paintindex: u32, i: nat) {
    i < |rules| && paintindex in rules[i].paintIndexes && forall j :: 0 <= j < i ==> paintindex !in rules[j].paintIndexes
  }

  /** Empty lists and an absent paint index let everything through. */
  ghost predicate AppliesTo(rule: SeedItemRule, key: string, defindex: u32, paintindex: u32) {
    && (rule.matchers == [] || MeantByAny(key, rule.matchers))
    && (rule.defindexes == [] || defindex in rule.defindexes)
    && (rule.paintIndex == None || rule.paintIndex == Some(paintindex))
  }

  ghost predicate FirstItemRule(rules: seq<SeedItemRule>, key: string, defindex: u32, paintindex: u32, i: nat) {
    && i < |rules| && AppliesTo(rules[i], key, defindex, paintindex)
    && forall j :: 0 <= j < i ==> !AppliesTo(rules[j], key, defindex, paintindex)
  }

  /** Listed, or inside a range, its ends included. */
  ghost predicate HasSeed(rule: SeedRule, seed: u32) {
    (exists k :: 0 <= k < |rule.seeds| && rule.seeds[k] == seed)
    || (exists k :: 0 <= k < |rule.seedRanges| && rule.seedRanges[k].0 <= seed && seed <= rule.seedRanges[k].1)
  }

  ghost predicate FirstSeedRule(rules: seq<SeedRule>, seed: u32, i: nat) {
    i < |rules| && HasSeed(rules[i], seed) && forall j :: 0 <= j < i ==> !HasSeed(rules[j], seed)
  }

  ghost predicate ClassifiedAs(c: Classifier, key: string, defindex: u32, paintindex: u32, seed: u32, bucketKey: string) {
    match c
    case PaintIndexMap(rules) => exists i: nat :: FirstPaintRule(rules, paintindex, i) && rules[i].bucketKey == bucketKey
    case PaintSeedMap(items) =>
      exists i: nat, k: nat ::
        && FirstItemRule(items, key, defindex, paintindex, i) && FirstSeedRule(items[i].rules, seed, k)
        && items[i].rules[k].bucketKey == bucketKey
  }

  ghost predicate FirstBucket(buckets: seq<Bucket>, bucketKey: string, i: nat) {
    i < |buckets| && buckets[i].key == bucketKey && forall j :: 0 <= j < i ==> buckets[j].key != bucketKey
  }

  /** The tier of the first bucket that the first matching family's classifier names. */
  ghost predicate TierGiven(families: seq<SpecialFamily>, key: string, defindex: u32, paintindex: u32, seed: u32, tier: u32) {
    exists i: nat, bucketKey, b: nat ::
      && FirstFamily(families, key, i) && ClassifiedAs(families[i].classifier, key, defindex, paintindex, seed, bucketKey)
      && FirstBucket(families[i].buckets, bucketKey, b) && families[i].buckets[b].patternTier == tier
  }

  // And the classification follows them -----------------------------------------------------

  lemma MatchesMeant(key: string, ms: seq<Matcher>)
    ensures MatchesAny(key, ms) <==> MeantByAny(key, ms)
  {
    forall m ensures Matches(key, m) <==> Meant(key, m) {
      if m.Suffix? && EndsWith(key, m.value) {
        assert key == key[..|key| - |m.value|] + m.value;
      }
    }
    if i :| 0 <= i < |ms| && Meant(key, ms[i]) { assert ms[i] in ms; }
  }

  lemma SeedMatches(rule: SeedRule, seed: u32)
    ensures MatchesSeed(rule, seed) <==> HasSeed(rule, seed)
  {
    if k :| 0 <= k < |rule.seedRanges| && rule.seedRanges[k].0 <= seed && seed <= rule.seedRanges[k].1 {
      assert rule.seedRanges[k] in rule.seedRanges;
    }
  }

  lemma ItemRuleMatches(rule: SeedItemRule, key: string, defindex: u32, paintindex: u32)
    ensures MatchesItemRule(rule, key, defindex, paintindex) <==> AppliesTo(rule, key, defindex, paintindex)
  {
    MatchesMeant(key, rule.matchers);
  }

  lemma FoundAt<T>(s: seq<T>, p: T -> bool) returns (i: nat)
    requires FindFirst(s, p).Some?
    ensures i < |s| && FindFirst(s, p) == Some(s[i]) && p(s[i]) && forall j :: 0 <= j < i ==> !p(s[j])
  {
    i :| 0 <= i < |s| && s[i] == FindFirst(s, p).value && p(s[i]) && forall j :: 0 <= j < i ==> !p(s[j]);
  }

  lemma FirstFound<T>(s: seq<T>, p: T -> bool, i: nat)
    requires i < |s| && p(s[i]) && forall j :: 0 <= j < i ==> !p(s[j])
    ensures FindFirst(s, p) == Some(s[i])
  {
    var k := FoundAt(s, p);
    assert k == i;
  }

  lemma AllFamilies(families: seq<SpecialFamily>, key: string)
    ensures forall i :: 0 <= i < |families| ==> (MatchesAny(key, families[i].matchers) <==> MeantByAny(key, families[i].matchers))
  {
    forall i | 0 <= i < |families|
      ensures MatchesAny(key, families[i].matchers) <==> MeantByAny(key, families[i].matchers)
    {
      MatchesMeant(key, families[i].matchers);
    }
  }

  lemma AllItemRules(items: seq<SeedItemRule>, key: string, defindex: u32, paintindex: u32)
    ensures forall i :: 0 <= i < |items| ==>
              (MatchesItemRule(items[i], key, defindex, paintindex) <==> AppliesTo(items[i], key, defindex, paintindex))
  {
    forall i | 0 <= i < |items|
      ensures MatchesItemRule(items[i], key, defindex, paintindex) <==> AppliesTo(items[i], key, defindex, paintindex)
    {
      ItemRuleMatches(items[i], key, defindex, paintindex);
    }
  }

  lemma AllSeedRules(rules: seq<SeedRule>, seed: u32)
    ensures forall i :: 0 <= i < |rules| ==> (MatchesSeed(rules[i], seed) <==> HasSeed(rules[i], seed))
  {
    forall i | 0 <= i < |rules| ensures MatchesSeed(rules[i], seed) <==> HasSeed(rules[i], seed) {
      SeedMatches(rules[i], seed);
    }
  }

  lemma KeyIsClassified(c: Classifier, key: string, defindex: u32, paintindex: u32, seed: u32)
    requires BucketKey(c, key, defindex, paintindex, seed).Some?
    ensures ClassifiedAs(c, key, defindex, paintindex, seed, BucketKey(c, key, defindex, paintindex, seed).value)
  {
    match c
    case PaintIndexMap(rules) =>
      var i := FoundAt(rules, (rule: PaintRule) => paintindex in rule.paintIndexes);
      assert FirstPaintRule(rules, paintindex, i);
    case PaintSeedMap(items) =>
      AllItemRules(items, key, defindex, paintindex);
      var i := FoundAt(items, (rule: SeedItemRule) => MatchesItemRule(rule, key, defindex, paintindex));
      assert FirstItemRule(items, key, defindex, paintindex, i);
      AllSeedRules(items[i].rules, seed);
      var k := FoundAt(items[i].rules, (rule: SeedRule) => MatchesSeed(rule, seed));
      assert FirstSeedRule(items[i].rules, seed, k);
  }

  lemma ClassifiedIsKey(c: Classifier, key: string, defindex: u32, paintindex: u32, seed: u32, bucketKey: string)
    requires ClassifiedAs(c, key, defindex, paintindex, seed, bucketKey)
    ensures BucketKey(c, key, defindex, paintindex, seed) == Some(bucketKey)
  {
    match c
    case PaintIndexMap(rules) =>
      var i: nat :| FirstPaintRule(rules, paintindex, i) && rules[i].bucketKey == bucketKey;
      FirstFound(rules, (rule: PaintRule) => paintindex in rule.paintIndexes, i);
    case PaintSeedMap(items) =>
      var i: nat, k: nat :|
        && FirstItemRule(items, key, defindex, paintindex, i) && FirstSeedRule(items[i].rules, seed, k)
        && items[i].rules[k].bucketKey == bucketKey;
      AllItemRules(items, key, defindex, paintindex);
      FirstFound(items, (rule: SeedItemRule) => MatchesItemRule(rule, key, defindex, paintindex), i);
      AllSeedRules(items[i].rules, seed);
      FirstFound(items[i].rules, (rule: SeedRule) => MatchesSeed(rule, seed), k);
  }

  /** A tier that the rules give is the tier, and a tier that is not zero is given by the rules. */
  lemma TierExact(families: seq<SpecialFamily>, name: string, defindex: u32, paintindex: u32, seed: u32, tier: u32)
    ensures var key := Names.ToCatalogKey(name); var t := ClassifyTier(families, name, defindex, paintindex, seed);
      && (TierGiven(families, key, defindex, paintindex, seed, tier) ==> t == tier)
      && (t > 0 ==> TierGiven(families, key, defindex, paintindex, seed, t))
  {
    var key := Names.ToCatalogKey(name);
    if TierGiven(families, key, defindex, paintindex, seed, tier) { GivenIsTier(families, key, defindex, paintindex, seed, tier); }
    if TierOfKey(families, key, defindex, paintindex, seed) > 0 { TierIsGiven(families, key, defindex, paintindex, seed); }
  }

  lemma GivenIsTier(families: seq<SpecialFamily>, key: string, defindex: u32, paintindex: u32, seed: u32, tier: u32)
    requires TierGiven(families, key, defindex, paintindex, seed, tier)
    ensures TierOfKey(families, key, defindex, paintindex, seed) == tier
  {
    var i: nat, bucketKey, b: nat :|
      && FirstFamily(families, key, i) && ClassifiedAs(families[i].classifier, key, defindex, paintindex, seed, bucketKey)
      && FirstBucket(families[i].buckets, bucketKey, b) && families[i].buckets[b].patternTier == tier;
    AllFamilies(families, key);
    FirstFound(families, (family: SpecialFamily) => MatchesAny(key, family.matchers), i);
    ClassifiedIsKey(families[i].classifier, key, defindex, paintindex, seed, bucketKey);
    FirstFound(families[i].buckets, (bucket: Bucket) => bucket.key == bucketKey, b);
  }

  lemma TierIsGiven(families: seq<SpecialFamily>, key: string, defindex: u32, paintindex: u32, seed: u32)
    requires TierOfKey(families, key, defindex, paintindex, seed) > 0
    ensures TierGiven(families, key, defindex, paintindex, seed, TierOfKey(families, key, defindex, paintindex, seed))
  {
    AllFamilies(families, key);
    var i := FoundAt(families, (family: SpecialFamily) => MatchesAny(key, family.matchers));
    assert FirstFamily(families, key, i);
    KeyIsClassified(families[i].classifier, key, defindex, paintindex, seed);
    var bucketKey := BucketKey(families[i].classifier, key, defindex, paintindex, seed).value;
    var b := FoundAt(families[i].buckets, (bucket: Bucket) => bucket.key == bucketKey);
    assert FirstBucket(families[i].buckets, bucketKey, b);
  }
}
