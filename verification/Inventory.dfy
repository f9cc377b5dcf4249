/** steam_inventory.rs: finding one asset in a paginated inventory, and the proxies pages are fetched through. */
module Inventory {
  import opened Prelude
  import Decimal
  import Names

  const MAX_PAGES := 50
  const MAX_RETRIES_WITHOUT_PROXY := 3
  const MAX_PROXY_ATTEMPTS := 10

  // Records ---------------------------------------------------------------------------------

  datatype AssetEntry = AssetEntry(assetid: bytes, classid: bytes, instanceid: bytes)

  datatype Tag = Tag(category: string, localizedTagName: string)

  datatype Description = Description(classid: bytes, instanceid: bytes, marketHashName: Option<string>, tags: seq<Tag>)

  datatype Property = Property(propertyid: u32, intValue: Option<bytes>, floatValue: Option<bytes>, stringValue: Option<string>)

  datatype AssetProperties = AssetProperties(assetid: bytes, properties: seq<Property>)

  datatype Page = Page(
    assets: seq<AssetEntry>,
    descriptions: seq<Description>,
    assetProperties: seq<AssetProperties>,
    moreItems: Option<u32>,
    lastAssetid: Option<bytes>)

  datatype InventoryError =
    | PrivateInventory
    | AssetNotFound(assetId: u64)
    | SteamApiError(message: string)
    | RequestFailed(message: string)

  datatype SteamEvidence = SteamEvidence(
    floatvalue: Option<real>,
    paintseed: Option<u32>,
    finishCatalog: Option<u32>,
    itemCertificate: Option<string>)

  datatype InventoryItem = InventoryItem(
    marketHashName: string,
    exterior: Option<string>,
    isStattrak: bool,
    isSouvenir: bool,
    steamEvidence: Option<SteamEvidence>)

  /** How a float is read from its text (`str::parse::<f32>`, finite values). */
  type FloatReader = bytes -> Option<real>

  // The joins of one page -------------------------------------------------------------------

  type ClassKey = (bytes, bytes)

  function ClassOf(d: Description): ClassKey { (d.classid, d.instanceid) }

  function DescriptionMap(ds: seq<Description>): map<ClassKey, Description> {
    if ds == [] then map[]
    else
      var d := ds[|ds| - 1];
      DescriptionMap(ds[..|ds| - 1])[ClassOf(d) := d]
  }

  function PropertiesById(ps: seq<Property>): map<u32, Property> {
    if ps == [] then map[]
    else
      var p := ps[|ps| - 1];
      PropertiesById(ps[..|ps| - 1])[p.propertyid := p]
  }

  type PropertyMap = map<bytes, map<u32, Property>>

  function AddProperties(m: PropertyMap, entry: AssetProperties): PropertyMap {
    if entry.properties == [] then m else m[entry.assetid := PropertiesById(entry.properties)]
  }

  function AssetPropertyMap(entries: seq<AssetProperties>): PropertyMap {
    if entries == [] then map[] else AddProperties(AssetPropertyMap(entries[..|entries| - 1]), entries[|entries| - 1])
  }

  method BuildAssetPropertyMap(entries: seq<AssetProperties>) returns (m: PropertyMap)
    ensures m == AssetPropertyMap(entries)
  {
    m := map[];
    for i := 0 to |entries|
      invariant m == AssetPropertyMap(entries[..i])
    {
      assert entries[..i + 1][..i] == entries[..i];
      if entries[i].properties == [] { continue; }
      m := m[entries[i].assetid := PropertiesById(entries[i].properties)];
    }
    assert entries[..|entries|] == entries;
  }

  ghost predicate LastDescription(ds: seq<Description>, key: ClassKey, i: nat) {
    i < |ds| && ClassOf(ds[i]) == key && forall j :: i < j < |ds| ==> ClassOf(ds[j]) != key
  }

  lemma {:induction false} LastDescriptionWins(ds: seq<Description>, key: ClassKey, i: nat)
    requires LastDescription(ds, key, i)
    ensures key in DescriptionMap(ds) && DescriptionMap(ds)[key] == ds[i]
  {
    if i < |ds| - 1 {
      assert ClassOf(ds[|ds| - 1]) != key;
      LastDescriptionWins(ds[..|ds| - 1], key, i);
    }
  }

  lemma {:induction false} DescribedKeysOccur(ds: seq<Description>, key: ClassKey)
    requires key in DescriptionMap(ds)
    ensures exists i :: LastDescription(ds, key, i)
  {
    var n := |ds| - 1;
    if ClassOf(ds[n]) == key {
      assert LastDescription(ds, key, n);
    } else {
      DescribedKeysOccur(ds[..n], key);
      var i :| LastDescription(ds[..n], key, i);
      assert LastDescription(ds, key, i);
    }
  }

  predicate Supplies(entry: AssetProperties, id: bytes) { entry.assetid == id && entry.properties != [] }

  ghost predicate LastProperties(entries: seq<AssetProperties>, id: bytes, i: nat) {
    i < |entries| && Supplies(entries[i], id) && forall j :: i < j < |entries| ==> !Supplies(entries[j], id)
  }

  lemma AddedProperties(m: PropertyMap, entry: AssetProperties, id: bytes)
    ensures Supplies(entry, id) ==> id in AddProperties(m, entry) && AddProperties(m, entry)[id] == PropertiesById(entry.properties)
    ensures !Supplies(entry, id) ==> (id in AddProperties(m, entry) <==> id in m)
    ensures !Supplies(entry, id) && id in m ==> AddProperties(m, entry)[id] == m[id]
  {}

  lemma {:induction false} LastPropertiesWin(entries: seq<AssetProperties>, id: bytes, i: nat)
    requires LastProperties(entries, id, i)
    ensures id in AssetPropertyMap(entries) && AssetPropertyMap(entries)[id] == PropertiesById(entries[i].properties)
  {
    var n := |entries| - 1;
    AddedProperties(AssetPropertyMap(entries[..n]), entries[n], id);
    if i < n {
      assert !Supplies(entries[n], id);
      LastPropertiesWin(entries[..n], id, i);
    }
  }

  lemma {:induction false} SuppliedAssetsOccur(entries: seq<AssetProperties>, id: bytes)
    requires id in AssetPropertyMap(entries)
    ensures exists i :: LastProperties(entries, id, i)
  {
    var n := |entries| - 1;
    AddedProperties(AssetPropertyMap(entries[..n]), entries[n], id);
    if Supplies(entries[n], id) {
      assert LastProperties(entries, id, n);
    } else {
      SuppliedAssetsOccur(entries[..n], id);
      var i :| LastProperties(entries[..n], id, i);
      assert LastProperties(entries, id, i);
    }
  }

  function ExteriorOf(tags: seq<Tag>): Option<string> {
    if tags == [] then None
    else if tags[0].category == "Exterior" then Some(tags[0].localizedTagName)
    else ExteriorOf(tags[1..])
  }

  predicate HasQualityTag(tags: seq<Tag>, name: string) { exists t :: t in tags && t.localizedTagName == name }

  function ReadU32(text: Option<bytes>): Option<u32> {
    if text.None? then None else Decimal.ParseUnsigned(text.value, U32_MAX)
  }

  function ReadFloat(text: Option<bytes>, readFloat: FloatReader): Option<real> {
    if text.None? then None else readFloat(text.value)
  }

  function EvidenceOf(properties: map<u32, Property>, readFloat: FloatReader): Option<SteamEvidence> {
    var e := SteamEvidence(
      if 2 in properties then ReadFloat(properties[2].floatValue, readFloat) else None,
      if 1 in properties then ReadU32(properties[1].intValue) else None,
      if 7 in properties then ReadU32(properties[7].intValue) else None,
      if 6 in properties then properties[6].stringValue else None);
    if e.floatvalue.Some? || e.paintseed.Some? || e.finishCatalog.Some? || e.itemCertificate.Some? then Some(e) else None
  }

  function BuildItem(d: Description, properties: Option<map<u32, Property>>, readFloat: FloatReader): InventoryItem {
    var name := if d.marketHashName.Some? then d.marketHashName.value else "";
    InventoryItem(
      name,
      ExteriorOf(d.tags),
      Names.STATTRAK_PREFIX <= name || HasQualityTag(d.tags, Names.STATTRAK_TAG),
      Names.SOUVENIR_PREFIX <= name || HasQualityTag(d.tags, "Souvenir"),
      if properties.None? then None else EvidenceOf(properties.value, readFloat))
  }

  /** The answer for an asset found on a page. */
  function Join(page: Page, asset: AssetEntry, readFloat: FloatReader): Result<InventoryItem, InventoryError> {
    var descriptions := DescriptionMap(page.descriptions);
    var properties := AssetPropertyMap(page.assetProperties);
    var key := (asset.classid, asset.instanceid);
    if key !in descriptions then Err(SteamApiError("Asset found but no matching description"))
    else
      Ok(BuildItem(descriptions[key], if asset.assetid in properties then Some(properties[asset.assetid]) else None, readFloat))
  }

  // The cursor chain, whatever is searched for ----------------------------------------------

  /** Replies by request number and cursor: the same cursor may be answered differently later. */
  type Fetch = (nat, Option<bytes>) -> Result<Page, InventoryError>

  datatype End = Terminal | Failed(error: InventoryError) | Exceeded

  datatype Chain = Chain(pages: seq<Page>, end: End)

  function NextCursor(page: Page): Option<bytes> { if page.moreItems == Some(1) then page.lastAssetid else None }

  /** All pages that following cursors from request `n` on would give, at most MAX_PAGES requests in all. */
  function Follow(fetch: Fetch, n: nat, cursor: Option<bytes>): (c: Chain)
    requires n <= MAX_PAGES
    ensures n + |c.pages| <= MAX_PAGES
    decreases MAX_PAGES - n
  {
    if n == MAX_PAGES then Chain([], Exceeded)
    else
      match fetch(n, cursor)
      case Err(e) => Chain([], Failed(e))
      case Ok(page) =>
        if NextCursor(page).None? then Chain([page], Terminal)
        else
          var rest := Follow(fetch, n + 1, NextCursor(page));
          Chain([page] + rest.pages, rest.end)
  }

  // Flat search -----------------------------------------------------------------------------

  /** The first asset of a page that has the id. */
  function FirstAsset(assets: seq<AssetEntry>, id: bytes): (r: Option<nat>)
    ensures r.Some? ==> r.value < |assets| && assets[r.value].assetid == id && forall j :: 0 <= j < r.value ==> assets[j].assetid != id
    ensures r.None? ==> forall j :: 0 <= j < |assets| ==> assets[j].assetid != id
  {
    if assets == [] then None
    else if assets[0].assetid == id then Some(0)
    else
      var r := FirstAsset(assets[1..], id);
      if r.Some? then Some(r.value + 1) else None
  }

  predicate Holds(page: Page, id: bytes) { FirstAsset(page.assets, id).Some? }

  function FirstHolding(pages: seq<Page>, id: bytes): (r: Option<nat>)
    ensures r.Some? ==> r.value < |pages| && Holds(pages[r.value], id) && forall j :: 0 <= j < r.value ==> !Holds(pages[j], id)
    ensures r.None? ==> forall j :: 0 <= j < |pages| ==> !Holds(pages[j], id)
  {
    if pages == [] then None
    else if Holds(pages[0], id) then Some(0)
    else
      var r := FirstHolding(pages[1..], id);
      if r.Some? then Some(r.value + 1) else None
  }

  function Located(page: Page, id: bytes): AssetEntry
    requires Holds(page, id)
  {
    page.assets[FirstAsset(page.assets, id).value]
  }

  function EndError(end: End, assetId: u64): InventoryError {
    match end
    case Terminal => AssetNotFound(assetId)
    case Failed(e) => e
    case Exceeded => SteamApiError("Inventory pagination exceeded limit")
  }

  /** Searching all pages of the chain at once; the end of the chain matters only when no page holds the asset. */
  function Search(chain: Chain, assetId: u64, readFloat: FloatReader): Result<InventoryItem, InventoryError> {
    var id := Decimal.Print(assetId);
    match FirstHolding(chain.pages, id)
    case Some(i) => Join(chain.pages[i], Located(chain.pages[i], id), readFloat)
    case None => Err(EndError(chain.end, assetId))
  }

  /** How many requests the page loop makes: it stops at the first page that holds the asset. */
  function Requests(chain: Chain, id: bytes): nat {
    match FirstHolding(chain.pages, id)
    case Some(i) => i + 1
    case None => |chain.pages| + if chain.end.Failed? then 1 else 0
  }

  lemma SearchStep(page: Page, rest: Chain, assetId: u64, readFloat: FloatReader)
    ensures var chain := Chain([page] + rest.pages, rest.end); var id := Decimal.Print(assetId);
      && (Holds(page, id) ==> Search(chain, assetId, readFloat) == Join(page, Located(page, id), readFloat)
                              && Requests(chain, id) == 1)
      && (!Holds(page, id) ==> Search(chain, assetId, readFloat) == Search(rest, assetId, readFloat)
                               && Requests(chain, id) == 1 + Requests(rest, id))
  {
    assert ([page] + rest.pages)[1..] == rest.pages;
  }

  /** The loop over one page's assets. */
  method FindOnPage(page: Page, id: bytes, readFloat: FloatReader)
    returns (r: Option<Result<InventoryItem, InventoryError>>)
    ensures r == if Holds(page, id) then Some(Join(page, Located(page, id), readFloat)) else None
  {
    var descriptions := DescriptionMap(page.descriptions);
    var properties := BuildAssetPropertyMap(page.assetProperties);
    for i := 0 to |page.assets|
      invariant forall j :: 0 <= j < i ==> page.assets[j].assetid != id
    {
      var asset := page.assets[i];
      if asset.assetid == id {
        assert FirstAsset(page.assets, id) == Some(i);
        if (asset.classid, asset.instanceid) !in descriptions {
          return Some(Err(SteamApiError("Asset found but no matching description")));
        }
        return Some(Ok(BuildItem(descriptions[(asset.classid, asset.instanceid)],
                                 if asset.assetid in properties then Some(properties[asset.assetid]) else None, readFloat)));
      }
    }
    r := None;
  }

  /** The page loop; `requests` counts the pages asked for. */
  method FindAsset(fetch: Fetch, assetId: u64, readFloat: FloatReader)
    returns (r: Result<InventoryItem, InventoryError>, requests: nat)
    ensures r == Search(Follow(fetch, 0, None), assetId, readFloat)
    ensures requests == Requests(Follow(fetch, 0, None), Decimal.Print(assetId)) <= 50
  {
    var id := Decimal.Print(assetId);
    var cursor: Option<bytes> := None;
    requests := 0;
    while true
      invariant requests <= MAX_PAGES
      invariant var rest := Follow(fetch, requests, cursor); var whole := Follow(fetch, 0, None);
        && Search(whole, assetId, readFloat) == Search(rest, assetId, readFloat)
        && Requests(whole, id) == requests + Requests(rest, id)
      decreases MAX_PAGES - requests
    {
      if requests == MAX_PAGES { return Err(SteamApiError("Inventory pagination exceeded limit")), requests; }
      var reply := fetch(requests, cursor);
      requests := requests + 1;
      if reply.Err? { return Err(reply.error), requests; }
      var page := reply.value;
      ghost var next := NextCursor(page);
      ghost var rest := if next.None? then Chain([], Terminal) else Follow(fetch, requests, next);
      assert Follow(fetch, requests - 1, cursor) == Chain([page] + rest.pages, rest.end);
      SearchStep(page, rest, assetId, readFloat);
      var found := FindOnPage(page, id, readFloat);
      if found.Some? { return found.value, requests; }
      if page.moreItems == Some(1) && page.lastAssetid.Some? {
        cursor := page.lastAssetid;
      } else {
        return Err(AssetNotFound(assetId)), requests;
      }
    }
  }

  // What the flat search means --------------------------------------------------------------

  function CursorAt(pages: seq<Page>, k: nat, first: Option<bytes>): Option<bytes>
    requires k <= |pages|
  {
    if k == 0 then first else NextCursor(pages[k - 1])
  }

  /** Page `k` answers the cursor of the page before, at its own request number. */
  ghost predicate LinkedAt(fetch: Fetch, n: nat, first: Option<bytes>, pages: seq<Page>, k: nat)
    requires k < |pages|
  {
    && fetch(n + k, CursorAt(pages, k, first)) == Ok(pages[k])
    && (k > 0 ==> CursorAt(pages, k, first).Some?)
  }

  ghost predicate Linked(fetch: Fetch, n: nat, first: Option<bytes>, pages: seq<Page>) {
    forall k :: 0 <= k < |pages| ==> LinkedAt(fetch, n, first, pages, k)
  }

  /** Why there are no more pages: no cursor, no answer, or no request left. */
  ghost predicate EndsRightly(fetch: Fetch, n: nat, first: Option<bytes>, c: Chain) {
    var k := |c.pages|;
    match c.end
    case Terminal => k > 0 && CursorAt(c.pages, k, first).None?
    case Failed(e) =>
      && (k > 0 ==> CursorAt(c.pages, k, first).Some?)
      && n + k < MAX_PAGES && fetch(n + k, CursorAt(c.pages, k, first)) == Err(e)
    case Exceeded => (k > 0 ==> CursorAt(c.pages, k, first).Some?) && n + k == MAX_PAGES
  }

  lemma CursorsShift(pages: seq<Page>, page: Page, k: nat, first: Option<bytes>)
    requires k <= |pages|
    ensures CursorAt([page] + pages, k + 1, first) == CursorAt(pages, k, NextCursor(page))
  {}

  lemma LinkShifts(fetch: Fetch, n: nat, first: Option<bytes>, page: Page, rest: seq<Page>, k: nat)
    requires NextCursor(page).Some? && k < |rest| && LinkedAt(fetch, n + 1, NextCursor(page), rest, k)
    ensures LinkedAt(fetch, n, first, [page] + rest, k + 1)
  {
    CursorsShift(rest, page, k, first);
    assert n + (k + 1) == n + 1 + k;
  }

  lemma PrependPage(fetch: Fetch, n: nat, first: Option<bytes>, page: Page, rest: seq<Page>)
    requires fetch(n, first) == Ok(page) && NextCursor(page).Some?
    requires Linked(fetch, n + 1, NextCursor(page), rest)
    ensures Linked(fetch, n, first, [page] + rest)
  {
    var pages := [page] + rest;
    forall k | 0 <= k < |pages| ensures LinkedAt(fetch, n, first, pages, k) {
      if k > 0 { LinkShifts(fetch, n, first, page, rest, k - 1); }
    }
  }

  lemma PrependEnd(fetch: Fetch, n: nat, first: Option<bytes>, page: Page, rest: Chain)
    requires EndsRightly(fetch, n + 1, NextCursor(page), rest) && NextCursor(page).Some?
    ensures EndsRightly(fetch, n, first, Chain([page] + rest.pages, rest.end))
  {
    CursorsShift(rest.pages, page, |rest.pages|, first);
    assert n + |[page] + rest.pages| == n + 1 + |rest.pages|;
  }

  lemma FollowOn(fetch: Fetch, n: nat, first: Option<bytes>, page: Page)
    requires n < MAX_PAGES && fetch(n, first) == Ok(page) && NextCursor(page).Some?
    ensures var rest := Follow(fetch, n + 1, NextCursor(page));
      Follow(fetch, n, first) == Chain([page] + rest.pages, rest.end)
  {}

  lemma LastPage(fetch: Fetch, n: nat, first: Option<bytes>)
    requires n == MAX_PAGES || fetch(n, first).Err? || NextCursor(fetch(n, first).value).None?
    requires n <= MAX_PAGES
    ensures Linked(fetch, n, first, Follow(fetch, n, first).pages)
    ensures EndsRightly(fetch, n, first, Follow(fetch, n, first))
  {}

  lemma {:induction false} FollowIsLinked(fetch: Fetch, n: nat, first: Option<bytes>, c: Chain)
    requires n <= MAX_PAGES && c == Follow(fetch, n, first)
    ensures Linked(fetch, n, first, c.pages) && EndsRightly(fetch, n, first, c)
    decreases MAX_PAGES - n
  {
    if n < MAX_PAGES && fetch(n, first).Ok? && NextCursor(fetch(n, first).value).Some? {
      var page := fetch(n, first).value;
      var rest := Follow(fetch, n + 1, NextCursor(page));
      FollowIsLinked(fetch, n + 1, NextCursor(page), rest);
      PrependPage(fetch, n, first, page, rest.pages);
      PrependEnd(fetch, n, first, page, rest);
      FollowOn(fetch, n, first, page);
    } else {
      LastPage(fetch, n, first);
    }
  }

  ghost predicate AssetAt(pages: seq<Page>, id: bytes, i: nat, j: nat) {
    i < |pages| && j < |pages[i].assets| && pages[i].assets[j].assetid == id
  }

  ghost predicate Absent(pages: seq<Page>, id: bytes) { forall i, j :: !AssetAt(pages, id, i, j) }

  lemma HoldsIff(pages: seq<Page>, id: bytes, i: nat)
    requires i < |pages|
    ensures Holds(pages[i], id) <==> exists j :: AssetAt(pages, id, i, j)
    ensures Holds(pages[i], id) ==> AssetAt(pages, id, i, FirstAsset(pages[i].assets, id).value)
  {
    var j := FirstAsset(pages[i].assets, id);
    assert j.Some? ==> AssetAt(pages, id, i, j.value);
  }

  /** The answer is the join of the first match in page order, whatever follows it. */
  lemma FirstMatchAnswers(chain: Chain, assetId: u64, i: nat, j: nat, readFloat: FloatReader)
    requires AssetAt(chain.pages, Decimal.Print(assetId), i, j)
    requires forall k, l | AssetAt(chain.pages, Decimal.Print(assetId), k, l) :: i < k || (i == k && j <= l)
    ensures Search(chain, assetId, readFloat) == Join(chain.pages[i], chain.pages[i].assets[j], readFloat)
  {
    var id := Decimal.Print(assetId);
    HoldsIff(chain.pages, id, i);
    var p := FirstHolding(chain.pages, id).value;
    HoldsIff(chain.pages, id, p);
    assert p == i;
    assert FirstAsset(chain.pages[i].assets, id) == Some(j);
  }

  lemma JoinNeverMisses(page: Page, asset: AssetEntry, readFloat: FloatReader, assetId: u64)
    ensures Join(page, asset, readFloat) != Err(AssetNotFound(assetId))
  {}

  /** AssetNotFound exactly after a terminal page, with no match on any page of the chain. */
  lemma NotFoundIff(chain: Chain, assetId: u64, readFloat: FloatReader)
    requires chain.end != Failed(AssetNotFound(assetId))
    ensures Search(chain, assetId, readFloat) == Err(AssetNotFound(assetId))
       <==> chain.end.Terminal? && Absent(chain.pages, Decimal.Print(assetId))
  {
    var id := Decimal.Print(assetId);
    var p := FirstHolding(chain.pages, id);
    if p.Some? {
      HoldsIff(chain.pages, id, p.value);
      JoinNeverMisses(chain.pages[p.value], Located(chain.pages[p.value], id), readFloat, assetId);
      assert !Absent(chain.pages, id);
    } else {
      forall i, j ensures !AssetAt(chain.pages, id, i, j) {
        if AssetAt(chain.pages, id, i, j) { HoldsIff(chain.pages, id, i); }
      }
    }
  }

  // What an item says of its description and properties -------------------------------------

  ghost predicate LastProperty(ps: seq<Property>, id: u32, i: nat) {
    i < |ps| && ps[i].propertyid == id && forall j :: i < j < |ps| ==> ps[j].propertyid != id
  }

  lemma {:induction false} LastPropertyWins(ps: seq<Property>, id: u32, i: nat)
    requires LastProperty(ps, id, i)
    ensures id in PropertiesById(ps) && PropertiesById(ps)[id] == ps[i]
  {
    if i < |ps| - 1 {
      assert ps[|ps| - 1].propertyid != id;
      LastPropertyWins(ps[..|ps| - 1], id, i);
    }
  }

  lemma {:induction false} PropertyIdsOccur(ps: seq<Property>, id: u32)
    requires id in PropertiesById(ps)
    ensures exists i: nat :: LastProperty(ps, id, i)
  {
    var n := |ps| - 1;
    if ps[n].propertyid == id {
      assert LastProperty(ps, id, n);
    } else {
      PropertyIdsOccur(ps[..n], id);
      var i: nat :| LastProperty(ps[..n], id, i);
      assert LastProperty(ps, id, i);
    }
  }

  /** The number that the last property of an id gives, if its text is one of at most 32 bits. */
  ghost predicate GivesNumber(ps: seq<Property>, id: u32, n: u32) {
    exists i: nat, text :: LastProperty(ps, id, i) && ps[i].intValue == Some(text) && Decimal.ParseUnsigned(text, 0xFFFF_FFFF) == Some(n)
  }

  ghost predicate GivesFloat(ps: seq<Property>, id: u32, readFloat: FloatReader, f: real) {
    exists i: nat, text :: LastProperty(ps, id, i) && ps[i].floatValue == Some(text) && readFloat(text) == Some(f)
  }

  ghost predicate GivesText(ps: seq<Property>, id: u32, text: string) {
    exists i: nat :: LastProperty(ps, id, i) && ps[i].stringValue == Some(text)
  }

  /** Property 1 is the seed, 2 the float, 6 the certificate, 7 the finish. */
  ghost predicate EvidenceDescribes(e: SteamEvidence, ps: seq<Property>, readFloat: FloatReader) {
    && (forall n: u32 :: e.paintseed == Some(n) <==> GivesNumber(ps, 1, n))
    && (forall f :: e.floatvalue == Some(f) <==> GivesFloat(ps, 2, readFloat, f))
    && (forall text :: e.itemCertificate == Some(text) <==> GivesText(ps, 6, text))
    && (forall n: u32 :: e.finishCatalog == Some(n) <==> GivesNumber(ps, 7, n))
  }

  const NO_EVIDENCE := SteamEvidence(None, None, None, None)

  /** What a description and properties say of an item; no evidence is the same as evidence of nothing. */
  ghost predicate ItemDescribes(item: InventoryItem, d: Description, ps: seq<Property>, readFloat: FloatReader) {
    && item.marketHashName == (if d.marketHashName.Some? then d.marketHashName.value else "")
    && (forall name :: item.exterior == Some(name) <==> FirstExterior(d.tags, name))
    && (item.isStattrak <==> "StatTrak\U{2122} " <= item.marketHashName || Tagged(d.tags, "StatTrak\U{2122}"))
    && (item.isSouvenir <==> "Souvenir " <= item.marketHashName || Tagged(d.tags, "Souvenir"))
    && item.steamEvidence != Some(NO_EVIDENCE)
    && EvidenceDescribes(if item.steamEvidence.Some? then item.steamEvidence.value else NO_EVIDENCE, ps, readFloat)
  }

  ghost predicate ExteriorAt(tags: seq<Tag>, i: nat, name: string) {
    i < |tags| && tags[i].category == "Exterior" && tags[i].localizedTagName == name
    && forall j :: 0 <= j < i ==> tags[j].category != "Exterior"
  }

  ghost predicate FirstExterior(tags: seq<Tag>, name: string) { exists i: nat :: ExteriorAt(tags, i, name) }

  ghost predicate Tagged(tags: seq<Tag>, name: string) { exists i :: 0 <= i < |tags| && tags[i].localizedTagName == name }

  lemma {:induction false} ExteriorIsFirst(tags: seq<Tag>, name: string)
    ensures ExteriorOf(tags) == Some(name) <==> FirstExterior(tags, name)
  {
    if tags != [] {
      ExteriorIsFirst(tags[1..], name);
      if tags[0].category == "Exterior" {
        assert ExteriorAt(tags, 0, tags[0].localizedTagName);
      } else {
        forall i: nat ensures ExteriorAt(tags[1..], i, name) <==> ExteriorAt(tags, i + 1, name) {
          assert i + 1 < |tags| ==> tags[1..][i] == tags[i + 1];
          assert ExteriorAt(tags, i + 1, name) ==> forall j :: 0 <= j < i ==> tags[1..][j] == tags[j + 1];
        }
        forall i: nat | ExteriorAt(tags, i, name) ensures i > 0 && ExteriorAt(tags[1..], i - 1, name) {
          assert i > 0;
          assert ExteriorAt(tags, (i - 1) + 1, name);
        }
      }
    }
  }

  lemma NumberGiven(ps: seq<Property>, id: u32, n: u32)
    ensures (id in PropertiesById(ps) && ReadU32(PropertiesById(ps)[id].intValue) == Some(n)) <==> GivesNumber(ps, id, n)
  {
    if i: nat, text :| LastProperty(ps, id, i) && ps[i].intValue == Some(text) && Decimal.ParseUnsigned(text, 0xFFFF_FFFF) == Some(n) {
      LastPropertyWins(ps, id, i);
    }
    if id in PropertiesById(ps) {
      PropertyIdsOccur(ps, id);
      var i: nat :| LastProperty(ps, id, i);
      LastPropertyWins(ps, id, i);
    }
  }

  lemma FloatGiven(ps: seq<Property>, id: u32, readFloat: FloatReader, f: real)
    ensures (id in PropertiesById(ps) && ReadFloat(PropertiesById(ps)[id].floatValue, readFloat) == Some(f))
       <==> GivesFloat(ps, id, readFloat, f)
  {
    if i: nat, text :| LastProperty(ps, id, i) && ps[i].floatValue == Some(text) && readFloat(text) == Some(f) {
      LastPropertyWins(ps, id, i);
    }
    if id in PropertiesById(ps) {
      PropertyIdsOccur(ps, id);
      var i: nat :| LastProperty(ps, id, i);
      LastPropertyWins(ps, id, i);
    }
  }

  lemma TextGiven(ps: seq<Property>, id: u32, text: string)
    ensures (id in PropertiesById(ps) && PropertiesById(ps)[id].stringValue == Some(text)) <==> GivesText(ps, id, text)
  {
    if i: nat :| LastProperty(ps, id, i) && ps[i].stringValue == Some(text) {
      LastPropertyWins(ps, id, i);
    }
    if id in PropertiesById(ps) {
      PropertyIdsOccur(ps, id);
      var i: nat :| LastProperty(ps, id, i);
      LastPropertyWins(ps, id, i);
    }
  }

  lemma EvidenceIsDescribed(ps: seq<Property>, readFloat: FloatReader)
    ensures var e := EvidenceOf(PropertiesById(ps), readFloat);
      && e != Some(NO_EVIDENCE)
      && EvidenceDescribes(if e.Some? then e.value else NO_EVIDENCE, ps, readFloat)
  {
    forall n: u32 ensures (1 in PropertiesById(ps) && ReadU32(PropertiesById(ps)[1].intValue) == Some(n)) <==> GivesNumber(ps, 1, n) {
      NumberGiven(ps, 1, n);
    }
    forall n: u32 ensures (7 in PropertiesById(ps) && ReadU32(PropertiesById(ps)[7].intValue) == Some(n)) <==> GivesNumber(ps, 7, n) {
      NumberGiven(ps, 7, n);
    }
    forall f
      ensures (2 in PropertiesById(ps) && ReadFloat(PropertiesById(ps)[2].floatValue, readFloat) == Some(f))
         <==> GivesFloat(ps, 2, readFloat, f)
    {
      FloatGiven(ps, 2, readFloat, f);
    }
    forall text ensures (6 in PropertiesById(ps) && PropertiesById(ps)[6].stringValue == Some(text)) <==> GivesText(ps, 6, text) {
      TextGiven(ps, 6, text);
    }
  }

  /** What is built from a description and properties is what they describe. */
  lemma BuildItemDescribes(d: Description, ps: seq<Property>, readFloat: FloatReader)
    ensures ItemDescribes(BuildItem(d, Some(PropertiesById(ps)), readFloat), d, ps, readFloat)
    ensures ItemDescribes(BuildItem(d, None, readFloat), d, [], readFloat)
  {
    forall name ensures ExteriorOf(d.tags) == Some(name) <==> FirstExterior(d.tags, name) {
      ExteriorIsFirst(d.tags, name);
    }
    forall name ensures HasQualityTag(d.tags, name) <==> Tagged(d.tags, name) {
      TagFound(d.tags, name);
    }
    EvidenceIsDescribed(ps, readFloat);
  }

  lemma TagFound(tags: seq<Tag>, name: string)
    ensures HasQualityTag(tags, name) <==> Tagged(tags, name)
  {
    if i :| 0 <= i < |tags| && tags[i].localizedTagName == name { assert tags[i] in tags; }
  }

  /** And that is one item only. */
  lemma DescribedOnce(a: InventoryItem, b: InventoryItem, d: Description, ps: seq<Property>, readFloat: FloatReader)
    requires ItemDescribes(a, d, ps, readFloat) && ItemDescribes(b, d, ps, readFloat)
    ensures a == b
  {
    var x := if a.steamEvidence.Some? then a.steamEvidence.value else NO_EVIDENCE;
    var y := if b.steamEvidence.Some? then b.steamEvidence.value else NO_EVIDENCE;
    assert a.exterior.Some? ==> FirstExterior(d.tags, a.exterior.value);
    assert b.exterior.Some? ==> FirstExterior(d.tags, b.exterior.value);
    assert x.paintseed.Some? ==> GivesNumber(ps, 1, x.paintseed.value);
    assert y.paintseed.Some? ==> GivesNumber(ps, 1, y.paintseed.value);
    assert x.floatvalue.Some? ==> GivesFloat(ps, 2, readFloat, x.floatvalue.value);
    assert y.floatvalue.Some? ==> GivesFloat(ps, 2, readFloat, y.floatvalue.value);
    assert x.itemCertificate.Some? ==> GivesText(ps, 6, x.itemCertificate.value);
    assert y.itemCertificate.Some? ==> GivesText(ps, 6, y.itemCertificate.value);
    assert x.finishCatalog.Some? ==> GivesNumber(ps, 7, x.finishCatalog.value);
    assert y.finishCatalog.Some? ==> GivesNumber(ps, 7, y.finishCatalog.value);
  }

  /** The join: the last description of the asset's class, with its last nonempty property entry. */
  lemma JoinExact(page: Page, asset: AssetEntry, d: nat, readFloat: FloatReader)
    requires LastDescription(page.descriptions, (asset.classid, asset.instanceid), d)
    ensures var joined := Join(page, asset, readFloat);
      && joined.Ok?
      && (forall e: nat | LastProperties(page.assetProperties, asset.assetid, e) ::
            ItemDescribes(joined.value, page.descriptions[d], page.assetProperties[e].properties, readFloat))
      && ((forall e: nat :: !LastProperties(page.assetProperties, asset.assetid, e)) ==>
            ItemDescribes(joined.value, page.descriptions[d], [], readFloat))
  {
    LastDescriptionWins(page.descriptions, (asset.classid, asset.instanceid), d);
    forall e: nat | LastProperties(page.assetProperties, asset.assetid, e)
      ensures ItemDescribes(Join(page, asset, readFloat).value, page.descriptions[d], page.assetProperties[e].properties, readFloat)
    {
      LastPropertiesWin(page.assetProperties, asset.assetid, e);
      BuildItemDescribes(page.descriptions[d], page.assetProperties[e].properties, readFloat);
    }
    if asset.assetid in AssetPropertyMap(page.assetProperties) {
      SuppliedAssetsOccur(page.assetProperties, asset.assetid);
    } else {
      BuildItemDescribes(page.descriptions[d], [], readFloat);
    }
  }

  lemma NoDescriptionIff(page: Page, asset: AssetEntry, readFloat: FloatReader)
    ensures Join(page, asset, readFloat).Err?
       <==> forall d :: 0 <= d < |page.descriptions| ==> ClassOf(page.descriptions[d]) != (asset.classid, asset.instanceid)
  {
    var key := (asset.classid, asset.instanceid);
    if key in DescriptionMap(page.descriptions) {
      DescribedKeysOccur(page.descriptions, key);
    } else {
      forall d | 0 <= d < |page.descriptions| ensures ClassOf(page.descriptions[d]) != key {
        if ClassOf(page.descriptions[d]) == key {
          var last := LastOfClass(page.descriptions, key, d);
          LastDescriptionWins(page.descriptions, key, last);
        }
      }
    }
  }

  ghost function LastOfClass(ds: seq<Description>, key: ClassKey, d: nat): (last: nat)
    requires d < |ds| && ClassOf(ds[d]) == key
    ensures LastDescription(ds, key, last)
  {
    var n := |ds| - 1;
    if ClassOf(ds[n]) == key then n
    else
      var last := LastOfClass(ds[..n], key, d);
      assert forall j :: last < j < n ==> ClassOf(ds[j]) == ClassOf(ds[..n][j]);
      last
  }

  // Retries over proxies --------------------------------------------------------------------

  /** One attempt: no response at all, or a response already read (a 429 reads as an error). */
  datatype Reply = Unreachable(message: string) | Answered(rateLimited: bool, outcome: Result<Page, InventoryError>)

  /** Replies by attempt and proxy used; no proxy means a direct request. */
  type Network<!P> = (nat, Option<P>) -> Reply

  function Advance(i: nat, n: nat): (next: nat)
    requires i < n
    ensures next < n
  {
    (i + 1) % n
  }

  lemma AdvanceWraps(i: nat, n: nat)
    requires i < n
    ensures Advance(i, n) == if i + 1 == n then 0 else i + 1
  {
    if i + 1 < n {
      SmallModulo(i + 1, n);
    }
  }

  lemma SmallModulo(a: nat, n: nat)
    requires a < n
    ensures a % n == a
  {}

  /** The pool's position after `k` uses. */
  function After(i: nat, n: nat, k: nat): (position: nat)
    requires i < n
    ensures position < n
  {
    if k == 0 then i else Advance(After(i, n, k - 1), n)
  }

  lemma {:induction false} AfterWraps(i: nat, n: nat, k: nat)
    requires i < n && k <= n
    ensures After(i, n, k) == if i + k < n then i + k else i + k - n
  {
    if k > 0 {
      AfterWraps(i, n, k - 1);
      AdvanceWraps(After(i, n, k - 1), n);
    }
  }

  /** Round robin: within one turn round the pool no proxy is used twice, and the turn ends where it began. */
  lemma RoundRobin(i: nat, n: nat)
    requires i < n
    ensures forall k, l :: 0 <= k < l < n ==> After(i, n, k) != After(i, n, l)
    ensures After(i, n, n) == i
  {
    forall k, l | 0 <= k < l < n ensures After(i, n, k) != After(i, n, l) {
      AfterWraps(i, n, k);
      AfterWraps(i, n, l);
    }
    AfterWraps(i, n, n);
  }

  class ProxyPool<P(!new)> {
    const clients: seq<P>
    var current: nat

    ghost predicate Valid() reads this { current < |clients| }

    constructor (clients: seq<P>)
      requires clients != []
      ensures Valid() && this.clients == clients && current == 0
    {
      this.clients := clients;
      current := 0;
    }

    method Next() returns (client: P)
      requires Valid()
      modifies this
      ensures Valid() && client == clients[old(current)] && current == Advance(old(current), |clients|)
    {
      client := clients[current];
      current := (current + 1) % |clients|;
    }
  }

  function Attempts(pool: Option<nat>): nat {
    match pool
    case None => MAX_RETRIES_WITHOUT_PROXY
    case Some(n) => 1 + if n < MAX_PROXY_ATTEMPTS then n else MAX_PROXY_ATTEMPTS
  }

  /** A reply that ends the attempts: any response, save a 429 before the last attempt. */
  predicate Final(reply: Reply, attempt: nat, max: nat) { reply.Answered? && !(reply.rateLimited && attempt < max - 1) }

  /** The client of attempt `a` when the pool stands at `start`: the first goes direct, the rest take turns. */
  function Via<P>(clients: seq<P>, start: nat, a: nat): Option<P>
    requires clients != [] ==> start < |clients|
  {
    if clients == [] || a == 0 then None else Some(clients[After(start, |clients|, a - 1)])
  }

  function ReplyTo<P>(network: Network<P>, clients: seq<P>, start: nat, a: nat): Reply
    requires clients != [] ==> start < |clients|
  {
    network(a, Via(clients, start, a))
  }

  /** The attempt loop. The reply to the last attempt made decides: every earlier one was worth a retry. */
  method FetchInventoryResponse<P(!new)>(pool: ProxyPool?<P>, network: Network<P>)
    returns (r: Result<Page, InventoryError>, attempts: nat)
    requires pool != null ==> pool.Valid()
    modifies pool
    ensures pool != null ==> pool.Valid()
    ensures var clients, start := if pool == null then [] else pool.clients, if pool == null then 0 else old(pool.current);
      var max := Attempts(if pool == null then None else Some(|pool.clients|));
      && 1 <= attempts <= max == (if clients == [] then 3 else if |clients| < 10 then 1 + |clients| else 11)
      && (forall a :: 0 <= a < attempts - 1 ==> !Final(ReplyTo(network, clients, start, a), a, max))
      && (var last := ReplyTo(network, clients, start, attempts - 1);
          if Final(last, attempts - 1, max) then r == last.outcome
          else attempts == max && last.Unreachable? && r == Err(RequestFailed(last.message)))
      && (pool != null ==> pool.current == After(start, |clients|, attempts - 1))
  {
    ghost var clients, start := if pool == null then [] else pool.clients, if pool == null then 0 else pool.current;
    var max := Attempts(if pool == null then None else Some(|pool.clients|));
    var lastError: Option<InventoryError> := None;
    attempts := 0;
    while attempts < max
      invariant 0 <= attempts <= max
      invariant pool != null ==> pool.Valid() && pool.current == After(start, |clients|, if attempts == 0 then 0 else attempts - 1)
      invariant forall a :: 0 <= a < attempts ==> !Final(ReplyTo(network, clients, start, a), a, max)
      invariant attempts == max ==> var last := ReplyTo(network, clients, start, max - 1);
        last.Unreachable? && lastError == Some(RequestFailed(last.message))
    {
      var via: Option<P> := None;
      if pool != null && attempts > 0 {
        var client := pool.Next();
        via := Some(client);
      }
      var reply := network(attempts, via);
      assert via == Via(clients, start, attempts);
      attempts := attempts + 1;
      match reply
      case Unreachable(message) => lastError := Some(RequestFailed(message));
      case Answered(rateLimited, outcome) =>
        if !(rateLimited && attempts < max) { return outcome, attempts; }
    }
    r := Err(if lastError.Some? then lastError.value else RequestFailed("All Steam inventory attempts failed"));
  }
}
