/** `CatalogResolver`: three hash indexes built in one pass over the catalog, and resolution of inventory items. */
module Catalog {
  import opened Prelude
  import opened ItemDetail
  import Names
  import Search
  import opened Inventory

  // Data ------------------------------------------------------------------------------------

  datatype CatalogItem = CatalogItem(
    marketHashName: string,
    defindex: Option<u32>,
    paintindex: Option<u32>,
    tintId: Option<u32>,
    itemType: string,
    weaponType: Option<string>,
    patternName: Option<string>,
    exterior: Option<string>,
    statTrak: bool,
    souvenir: bool)

  datatype FamilyKey = FamilyKey(weaponType: string, patternName: string, exterior: string, statTrak: bool, souvenir: bool)

  datatype ResolveError =
    | CatalogMiss
    | UnsupportedFinishCatalog(finish: u32)
    | AmbiguousCatalogIdentity(candidates: nat)
    | MissingDefindex | MissingTintId | MissingFloatvalue | MissingPaintseed
    | UnrepresentableItemDetail(conflicting: nat)

  datatype Matcher = Exact(value: string) | Suffix(value: string)

  datatype SeedRule = SeedRule(bucketKey: string, seeds: seq<u32>, seedRanges: seq<(u32, u32)>)

  datatype SeedItemRule = SeedItemRule(matchers: seq<Matcher>, defindexes: seq<u32>, paintIndex: Option<u32>, rules: seq<SeedRule>)

  datatype PaintRule = PaintRule(bucketKey: string, paintIndexes: seq<u32>)

  datatype Classifier = PaintIndexMap(paintRules: seq<PaintRule>) | PaintSeedMap(items: seq<SeedItemRule>)

  datatype Bucket = Bucket(key: string, patternTier: u32)

  datatype SpecialFamily = SpecialFamily(matchers: seq<Matcher>, buckets: seq<Bucket>, classifier: Classifier)

  datatype CatalogResolver = CatalogResolver(
    items: seq<CatalogItem>,
    families: seq<SpecialFamily>,
    exactIndex: map<string, seq<nat>>,
    familyIndex: map<FamilyKey, seq<nat>>,
    staticCounts: map<nat, nat>)

  // Keys ------------------------------------------------------------------------------------

  function FamilyKeyOf(item: CatalogItem): Option<FamilyKey> {
    if item.weaponType.Some? && item.patternName.Some? && item.exterior.Some? then
      Some(FamilyKey(item.weaponType.value, item.patternName.value, item.exterior.value, item.statTrak, item.souvenir))
    else None
  }

  function InventoryFamilyKey(item: InventoryItem): Option<FamilyKey> {
    match Names.ParseFamily(item.marketHashName)
    case None => None
    case Some((weapon, pattern)) =>
      if item.exterior.None? then None
      else Some(FamilyKey(weapon, pattern, item.exterior.value, item.isStattrak, item.isSouvenir))
  }

  /** An item named after a catalog entry's weapon and pattern, with its exterior and flags, has the entry's key. */
  lemma FamilyKeyReadBack(entry: CatalogItem, item: InventoryItem, v: Names.Variant, starred: bool, named: string)
    requires entry.weaponType.Some? && entry.patternName.Some? && entry.exterior.Some?
    requires Names.Trimmed(entry.weaponType.value) && Names.Trimmed(entry.patternName.value)
    requires !(Names.STAR_PREFIX <= entry.weaponType.value)
    requires var stem := Names.Star(starred) + entry.weaponType.value;
      var base := stem + " | " + entry.patternName.value;
      && Names.Undecorated(base, named) && item.marketHashName == Names.Decorated(v, base, named)
      && forall j :: 0 <= j < |stem| ==> !Search.OccursAt(base, " | ", j)
    requires item.exterior == entry.exterior && item.isStattrak == entry.statTrak && item.isSouvenir == entry.souvenir
    ensures InventoryFamilyKey(item) == FamilyKeyOf(entry)
  {
    Names.FamilyRoundTrip(v, starred, entry.weaponType.value, entry.patternName.value, named);
  }

  function SteamQuality(souvenir: bool, statTrak: bool): u32 { if souvenir then 12 else if statTrak then 9 else 4 }

  function CatalogQuality(item: CatalogItem): u32 { SteamQuality(item.souvenir, item.statTrak) }

  function InventoryQuality(item: InventoryItem): u32 { SteamQuality(item.isSouvenir, item.isStattrak) }

  function OrZero(n: Option<u32>): u32 { if n.Some? then n.value else 0 }

  const GRAFFITI := "graffiti"
  const STICKER_SLAB := "sticker_slab"

  /** What an unpainted entry is counted as. */
  function EntryAttributes(item: CatalogItem): Attributes
    requires item.defindex.Some?
  {
    Attributes(0, 0.0, item.defindex.value, 0, CatalogQuality(item), OrZero(item.tintId), 0, item.itemType == STICKER_SLAB)
  }

  function StaticKey(item: CatalogItem): Option<nat> {
    if item.defindex.None? || OrZero(item.paintindex) > 0 then None else Some(EncodeWord(EntryAttributes(item)))
  }

  // Indexes against linear scans --------------------------------------------------------------

  /** The ascending positions of a key, by scanning. */
  function Positions<K(==)>(keys: seq<Option<K>>, key: K): seq<nat> {
    if keys == [] then []
    else
      var n := |keys| - 1;
      Positions(keys[..n], key) + if keys[n] == Some(key) then [n] else []
  }

  /** `PositionsStep` is the definition read forwards: one more key appends at most its own position. */
  lemma PositionsStep<K>(keys: seq<Option<K>>, n: nat, key: K)
    requires n < |keys|
    ensures Positions(keys[..n + 1], key) == Positions(keys[..n], key) + if keys[n] == Some(key) then [n] else []
  {
    var longer := keys[..n + 1];
    assert longer[..n] == keys[..n] && longer[n] == keys[n];
  }

  ghost predicate Ascending(ps: seq<nat>) { forall i, j :: 0 <= i < j < |ps| ==> ps[i] < ps[j] }

  lemma AppendAscending(ps: seq<nat>, n: nat)
    requires Ascending(ps) && forall i :: 0 <= i < |ps| ==> ps[i] < n
    ensures Ascending(ps + [n])
  {}

  lemma {:induction false} PositionsMember<K>(keys: seq<Option<K>>, key: K, p: nat)
    ensures p in Positions(keys, key) <==> p < |keys| && keys[p] == Some(key)
  {
    if keys != [] {
      PositionsMember(keys[..|keys| - 1], key, p);
    }
  }

  lemma {:induction false} PositionsAscending<K>(keys: seq<Option<K>>, key: K)
    ensures Ascending(Positions(keys, key))
  {
    if keys != [] {
      var n := |keys| - 1;
      var before := Positions(keys[..n], key);
      PositionsAscending(keys[..n], key);
      forall i | 0 <= i < |before| ensures before[i] < n {
        PositionsMember(keys[..n], key, before[i]);
      }
      AppendAscending(before, n);
    }
  }

  lemma PositionsExact<K>(keys: seq<Option<K>>, key: K)
    ensures forall p: nat :: p in Positions(keys, key) <==> p < |keys| && keys[p] == Some(key)
    ensures Ascending(Positions(keys, key))
  {
    forall p: nat ensures p in Positions(keys, key) <==> p < |keys| && keys[p] == Some(key) {
      PositionsMember(keys, key, p);
    }
    PositionsAscending(keys, key);
  }

  function Lookup<K(==)>(index: map<K, seq<nat>>, key: K): seq<nat> { if key in index then index[key] else [] }

  function LookupCount<K(==)>(counts: map<K, nat>, key: K): nat { if key in counts then counts[key] else 0 }

  ghost predicate Indexes<K(!new)>(index: map<K, seq<nat>>, keys: seq<Option<K>>) {
    forall key :: Lookup(index, key) == Positions(keys, key)
  }

  ghost predicate Counts<K(!new)>(counts: map<K, nat>, keys: seq<Option<K>>) {
    forall key :: LookupCount(counts, key) == |Positions(keys, key)|
  }

  function NameKeys(items: seq<CatalogItem>): (keys: seq<Option<string>>)
    ensures |keys| == |items|
  {
    seq(|items|, i requires 0 <= i < |items| => Some(items[i].marketHashName))
  }

  function FamilyKeys(items: seq<CatalogItem>): (keys: seq<Option<FamilyKey>>)
    ensures |keys| == |items|
  {
    seq(|items|, i requires 0 <= i < |items| => FamilyKeyOf(items[i]))
  }

  function StaticKeys(items: seq<CatalogItem>): (keys: seq<Option<nat>>)
    ensures |keys| == |items|
  {
    seq(|items|, i requires 0 <= i < |items| => StaticKey(items[i]))
  }

  ghost predicate NoEmptyEntry<K>(index: map<K, seq<nat>>) { forall key :: key in index ==> index[key] != [] }

  /** All three indexes agree with scanning the whole catalog. */
  ghost predicate Loaded(r: CatalogResolver) {
    && Indexes(r.exactIndex, NameKeys(r.items))
    && Indexes(r.familyIndex, FamilyKeys(r.items)) && NoEmptyEntry(r.familyIndex)
    && Counts(r.staticCounts, StaticKeys(r.items))
  }

  lemma IndexExtends<K(!new)>(index: map<K, seq<nat>>, keys: seq<Option<K>>, n: nat)
    requires n < |keys| && Indexes(index, keys[..n])
    ensures keys[n].None? ==> Indexes(index, keys[..n + 1])
    ensures keys[n].Some? ==> Indexes(index[keys[n].value := Lookup(index, keys[n].value) + [n]], keys[..n + 1])
  {
    var after := if keys[n].Some? then index[keys[n].value := Lookup(index, keys[n].value) + [n]] else index;
    forall key ensures Lookup(after, key) == Positions(keys[..n + 1], key) {
      PositionsStep(keys, n, key);
      assert Lookup(index, key) == Positions(keys[..n], key);
    }
  }

  lemma CountExtends<K(!new)>(counts: map<K, nat>, keys: seq<Option<K>>, n: nat)
    requires n < |keys| && Counts(counts, keys[..n])
    ensures keys[n].None? ==> Counts(counts, keys[..n + 1])
    ensures keys[n].Some? ==> Counts(counts[keys[n].value := LookupCount(counts, keys[n].value) + 1], keys[..n + 1])
  {
    var after := if keys[n].Some? then counts[keys[n].value := LookupCount(counts, keys[n].value) + 1] else counts;
    forall key ensures LookupCount(after, key) == |Positions(keys[..n + 1], key)| {
      PositionsStep(keys, n, key);
      assert LookupCount(counts, key) == |Positions(keys[..n], key)|;
    }
  }

  method Load(items: seq<CatalogItem>, families: seq<SpecialFamily>) returns (r: CatalogResolver)
    ensures Loaded(r) && r.items == items && r.families == families
  {
    var exactIndex: map<string, seq<nat>> := map[];
    var familyIndex: map<FamilyKey, seq<nat>> := map[];
    var staticCounts: map<nat, nat> := map[];
    ghost var names, keys, words := NameKeys(items), FamilyKeys(items), StaticKeys(items);
    for index := 0 to |items|
      invariant Indexes(exactIndex, names[..index])
      invariant Indexes(familyIndex, keys[..index]) && NoEmptyEntry(familyIndex)
      invariant Counts(staticCounts, words[..index])
    {
      var item := items[index];
      IndexExtends(exactIndex, names, index);
      IndexExtends(familyIndex, keys, index);
      CountExtends(staticCounts, words, index);
      exactIndex := exactIndex[item.marketHashName := Lookup(exactIndex, item.marketHashName) + [index]];
      var key := FamilyKeyOf(item);
      if key.Some? { familyIndex := familyIndex[key.value := Lookup(familyIndex, key.value) + [index]]; }
      var word := StaticKey(item);
      if word.Some? { staticCounts := staticCounts[word.value := LookupCount(staticCounts, word.value) + 1]; }
    }
    assert names[..|items|] == names && keys[..|items|] == keys && words[..|items|] == words;
    r := CatalogResolver(items, families, exactIndex, familyIndex, staticCounts);
  }

  // Resolution of an entry ------------------------------------------------------------------

  predicate HasFinish(items: seq<CatalogItem>, p: nat, finish: u32) {
    p < |items| && items[p].paintindex == Some(finish)
  }

  function FirstWith(items: seq<CatalogItem>, candidates: seq<nat>, finish: u32): Option<nat> {
    if candidates == [] then None
    else if HasFinish(items, candidates[0], finish) then Some(candidates[0])
    else FirstWith(items, candidates[1..], finish)
  }

  function AllWith(items: seq<CatalogItem>, candidates: seq<nat>, finish: u32): seq<nat> {
    if candidates == [] then []
    else (if HasFinish(items, candidates[0], finish) then [candidates[0]] else []) + AllWith(items, candidates[1..], finish)
  }

  function Single(candidates: seq<nat>, none: ResolveError): Result<nat, ResolveError> {
    if |candidates| == 1 then Ok(candidates[0])
    else if candidates == [] then Err(none)
    else Err(AmbiguousCatalogIdentity(|candidates|))
  }

  /** `resolve_catalog_item`, through the indexes; the result is the position of the entry. */
  function ResolveCatalogItem(r: CatalogResolver, item: InventoryItem, finish: Option<u32>): Result<nat, ResolveError> {
    var exact := Lookup(r.exactIndex, item.marketHashName);
    match finish
    case None => Single(exact, CatalogMiss)
    case Some(f) =>
      if exact != [] then
        var candidate := FirstWith(r.items, exact, f);
        if candidate.Some? then Ok(candidate.value) else Err(UnsupportedFinishCatalog(f))
      else
        var key := InventoryFamilyKey(item);
        if key.None? || key.value !in r.familyIndex then Err(CatalogMiss)
        else Single(AllWith(r.items, r.familyIndex[key.value], f), UnsupportedFinishCatalog(f))
  }

  // The same by sets of positions: no index, no order of search

  ghost function Named(items: seq<CatalogItem>, name: string): set<nat> {
    set p: nat | p < |items| && items[p].marketHashName == name
  }

  ghost function Kin(items: seq<CatalogItem>, key: Option<FamilyKey>): set<nat> {
    set p: nat | p < |items| && key.Some? && FamilyKeyOf(items[p]) == key
  }

  ghost function Finished(items: seq<CatalogItem>, among: set<nat>, finish: u32): set<nat> {
    set p | p in among && p < |items| && items[p].paintindex == Some(finish)
  }

  ghost predicate Least(p: nat, s: set<nat>) { p in s && forall q | q in s :: p <= q }

  /** Without a finish: the one entry of that name. */
  ghost predicate ResolvedByName(named: set<nat>, r: Result<nat, ResolveError>) {
    match r
    case Ok(p) => named == {p}
    case Err(CatalogMiss) => named == {}
    case Err(AmbiguousCatalogIdentity(n)) => |named| == n >= 2
    case _ => false
  }

  /** With a finish: the first entry of that name that has it; failing any such name, the one entry of the family. */
  ghost predicate ResolvedByFinish(items: seq<CatalogItem>, named: set<nat>, kin: set<nat>, f: u32, r: Result<nat, ResolveError>) {
    match r
    case Ok(p) => if named != {} then Least(p, Finished(items, named, f)) else Finished(items, kin, f) == {p}
    case Err(CatalogMiss) => named == {} && kin == {}
    case Err(UnsupportedFinishCatalog(g)) => f == g && named + kin != {} && Finished(items, if named != {} then named else kin, f) == {}
    case Err(AmbiguousCatalogIdentity(n)) => named == {} && |Finished(items, kin, f)| == n >= 2
    case _ => false
  }

  /** What an inventory item resolves to, outcome by outcome. */
  ghost predicate Resolved(items: seq<CatalogItem>, item: InventoryItem, finish: Option<u32>, r: Result<nat, ResolveError>) {
    var named := Named(items, item.marketHashName);
    match finish
    case None => ResolvedByName(named, r)
    case Some(f) => ResolvedByFinish(items, named, Kin(items, InventoryFamilyKey(item)), f, r)
  }

  ghost function SetOf(ps: seq<nat>): set<nat> { set p | p in ps }

  lemma {:induction false} AscendingCount(ps: seq<nat>)
    requires Ascending(ps)
    ensures |SetOf(ps)| == |ps|
  {
    if ps != [] {
      var front, last := ps[..|ps| - 1], ps[|ps| - 1];
      AscendingCount(front);
      assert SetOf(ps) == SetOf(front) + {last};
    }
  }

  lemma {:induction false} FirstWithExact(items: seq<CatalogItem>, candidates: seq<nat>, finish: u32)
    requires Ascending(candidates)
    ensures match FirstWith(items, candidates, finish)
            case Some(p) => Least(p, Finished(items, SetOf(candidates), finish))
            case None => Finished(items, SetOf(candidates), finish) == {}
  {
    if candidates != [] {
      var rest := candidates[1..];
      FirstWithExact(items, rest, finish);
      assert SetOf(candidates) == {candidates[0]} + SetOf(rest);
      forall q | q in rest ensures candidates[0] < q {
        var i :| 0 <= i < |rest| && rest[i] == q;
        assert candidates[i + 1] == q;
      }
      assert Finished(items, SetOf(candidates), finish)
          == (if HasFinish(items, candidates[0], finish) then {candidates[0]} else {}) + Finished(items, SetOf(rest), finish);
    }
  }

  lemma {:induction false} AllWithExact(items: seq<CatalogItem>, candidates: seq<nat>, finish: u32)
    requires Ascending(candidates)
    ensures SetOf(AllWith(items, candidates, finish)) == Finished(items, SetOf(candidates), finish)
    ensures Ascending(AllWith(items, candidates, finish))
  {
    if candidates != [] {
      var rest := candidates[1..];
      AllWithExact(items, rest, finish);
      assert SetOf(candidates) == {candidates[0]} + SetOf(rest);
      var kept := AllWith(items, rest, finish);
      forall i | 0 <= i < |kept| ensures candidates[0] < kept[i] {
        assert kept[i] in SetOf(kept);
      }
      if HasFinish(items, candidates[0], finish) {
        assert AllWith(items, candidates, finish) == [candidates[0]] + kept;
        assert SetOf([candidates[0]] + kept) == {candidates[0]} + SetOf(kept);
      } else {
        assert AllWith(items, candidates, finish) == kept;
      }
    }
  }

  lemma SingleByName(candidates: seq<nat>)
    requires Ascending(candidates)
    ensures ResolvedByName(SetOf(candidates), Single(candidates, CatalogMiss))
  {
    AscendingCount(candidates);
  }

  lemma FirstByFinish(items: seq<CatalogItem>, exact: seq<nat>, kin: set<nat>, f: u32)
    requires exact != [] && Ascending(exact)
    ensures var candidate := FirstWith(items, exact, f);
      ResolvedByFinish(items, SetOf(exact), kin, f,
                       if candidate.Some? then Ok(candidate.value) else Err(UnsupportedFinishCatalog(f)))
  {
    assert exact[0] in SetOf(exact);
    FirstWithExact(items, exact, f);
  }

  lemma SingleByFinish(items: seq<CatalogItem>, kin: set<nat>, kept: seq<nat>, f: u32)
    requires kin != {} && Ascending(kept) && SetOf(kept) == Finished(items, kin, f)
    ensures ResolvedByFinish(items, {}, kin, f, Single(kept, UnsupportedFinishCatalog(f)))
  {
    AscendingCount(kept);
  }

  lemma NameIndexed(r: CatalogResolver, name: string)
    requires Loaded(r)
    ensures Ascending(Lookup(r.exactIndex, name)) && SetOf(Lookup(r.exactIndex, name)) == Named(r.items, name)
  {
    PositionsExact(NameKeys(r.items), name);
  }

  lemma FamilyIndexed(r: CatalogResolver, key: FamilyKey)
    requires Loaded(r)
    ensures Ascending(Lookup(r.familyIndex, key)) && SetOf(Lookup(r.familyIndex, key)) == Kin(r.items, Some(key))
  {
    PositionsExact(FamilyKeys(r.items), key);
  }

  /** Exactly one outcome satisfies the sets, and it is what the indexes give. */
  lemma ResolveExact(r: CatalogResolver, item: InventoryItem, finish: Option<u32>, outcome: Result<nat, ResolveError>)
    requires Loaded(r)
    ensures outcome == ResolveCatalogItem(r, item, finish) <==> Resolved(r.items, item, finish, outcome)
  {
    ResolveSound(r, item, finish);
    if Resolved(r.items, item, finish, outcome) {
      ResolvedUnique(r.items, item, finish, outcome, ResolveCatalogItem(r, item, finish));
    }
  }

  lemma ResolvedUnique(items: seq<CatalogItem>, item: InventoryItem, finish: Option<u32>,
                       a: Result<nat, ResolveError>, b: Result<nat, ResolveError>)
    requires Resolved(items, item, finish, a) && Resolved(items, item, finish, b)
    ensures a == b
  {
    if a.Ok? && b.Ok? {
      assert a.value in {a.value} && b.value in {b.value};
    }
  }

  lemma ResolveSound(r: CatalogResolver, item: InventoryItem, finish: Option<u32>)
    requires Loaded(r)
    ensures Resolved(r.items, item, finish, ResolveCatalogItem(r, item, finish))
  {
    var exact := Lookup(r.exactIndex, item.marketHashName);
    NameIndexed(r, item.marketHashName);
    match finish
    case None => SingleByName(exact);
    case Some(f) =>
      var key := InventoryFamilyKey(item);
      var kin := Kin(r.items, key);
      if exact != [] {
        FirstByFinish(r.items, exact, kin, f);
      } else {
        ResolveInFamily(r, key, f);
        if kin != {} { SingleByFinish(r.items, kin, AllWith(r.items, r.familyIndex[key.value], f), f); }
      }
  }

  lemma ResolveInFamily(r: CatalogResolver, key: Option<FamilyKey>, f: u32)
    requires Loaded(r)
    ensures key.None? || key.value !in r.familyIndex <==> Kin(r.items, key) == {}
    ensures key.Some? && key.value in r.familyIndex ==>
              var kept := AllWith(r.items, r.familyIndex[key.value], f);
              Ascending(kept) && SetOf(kept) == Finished(r.items, Kin(r.items, key), f)
  {
    if key.Some? {
      var candidates := Lookup(r.familyIndex, key.value);
      FamilyIndexed(r, key.value);
      AllWithExact(r.items, candidates, f);
      if candidates != [] { assert candidates[0] in Kin(r.items, key); }
    }
  }
}
