/**
 * The inventory fetcher of inventory.py: it pages through the external
 * inventory API, merges assets with their item descriptions, flattens each
 * pair into a snapshot row and replaces the stored rows of (steamid, appid)
 * by a delete followed by a bulk insert.
 *
 * The external API is a script of page responses, read in order; the
 * user_inventory table is a sequence of rows; the clock is the parameter `now`.
 */
module Inventory {
  import opened Wrappers
  import KeyedUpdates

  type Timestamp = int

  /** One tag of a description; a field is None when its key is absent. */
  datatype Tag = Tag(category: Option<string>, name: Option<string>)

  /** One owned unit, as the inventory API lists it. */
  datatype Asset = Asset(appid: int, assetid: string, classid: string, instanceid: string)

  /** Descriptions are shared by every asset with the same (classid, instanceid). */
  type DescKey = (string, string)

  datatype Description = Description(
    classid: string,
    instanceid: string,
    marketHashName: Option<string>,
    tradable: Option<int>,
    marketable: Option<int>,
    kind: Option<string>,
    tags: seq<Tag>,
    iconUrl: Option<string>)

  /** One page of the inventory API; `assets` and `descriptions` are empty when absent. */
  datatype Page = Page(
    assets: seq<Asset>,
    descriptions: seq<Description>,
    moreItems: bool,
    lastAssetid: Option<string>)

  /** What one request yields: a transport, status or JSON failure, or a page. */
  datatype PageResponse = RequestFailed | Received(page: Page)

  /** A row of the user_inventory table. */
  datatype Row = Row(
    steamid: string,
    appid: int,
    assetid: string,
    classid: string,
    instanceid: string,
    marketHashName: Option<string>,
    tradable: Option<int>,
    marketable: Option<int>,
    kind: Option<string>,
    categories: string,
    tags: string,
    iconUrl: Option<string>,
    updatedAt: Timestamp)

  // ---------------------------------------------------------------------
  // parse_tags
  // ---------------------------------------------------------------------

  /** A tag is kept when both its category and its name are present. */
  predicate HasBoth(t: Tag) {
    t.category.Some? && t.name.Some?
  }

  /** Indices of the kept tags, in input order. */
  function KeptIndices(tags: seq<Tag>): (ix: seq<nat>)
    ensures forall j :: 0 <= j < |ix| ==> ix[j] < |tags| && HasBoth(tags[ix[j]])
    ensures forall j, k :: 0 <= j < k < |ix| ==> ix[j] < ix[k]
    ensures forall i :: 0 <= i < |tags| && HasBoth(tags[i]) ==> i in ix
    decreases |tags|
  {
    if tags == [] then []
    else
      var n := |tags| - 1;
      var prev := KeptIndices(tags[..n]);
      assert forall i :: 0 <= i < n ==> tags[..n][i] == tags[i];
      prev + (if HasBoth(tags[n]) then [n] else [])
  }

  /** The categories of the kept tags, in input order. */
  function TagCategories(tags: seq<Tag>): seq<string>
    decreases |tags|
  {
    if tags == [] then []
    else
      var t := tags[|tags| - 1];
      TagCategories(tags[..|tags| - 1]) + (if HasBoth(t) then [t.category.value] else [])
  }

  /** The names of the kept tags, in input order. */
  function TagNames(tags: seq<Tag>): seq<string>
    decreases |tags|
  {
    if tags == [] then []
    else
      var t := tags[|tags| - 1];
      TagNames(tags[..|tags| - 1]) + (if HasBoth(t) then [t.name.value] else [])
  }

  /**
   * The two lists are aligned: entry j of each comes from the j-th kept tag,
   * and the kept tags are exactly those with both fields, in input order.
   */
  lemma {:induction false} TagListsAligned(tags: seq<Tag>)
    ensures |TagCategories(tags)| == |TagNames(tags)| == |KeptIndices(tags)|
    ensures forall j :: 0 <= j < |KeptIndices(tags)| ==>
              TagCategories(tags)[j] == tags[KeptIndices(tags)[j]].category.value &&
              TagNames(tags)[j] == tags[KeptIndices(tags)[j]].name.value
    decreases |tags|
  {
    if tags != [] {
      var n := |tags| - 1;
      TagListsAligned(tags[..n]);
      TagListsStep(tags);
    }
  }

  /** The last tag extends the three lists together, or none of them. */
  lemma TagListsStep(tags: seq<Tag>)
    requires tags != []
    requires var p := tags[..|tags| - 1];
             |TagCategories(p)| == |TagNames(p)| == |KeptIndices(p)| &&
             forall j :: 0 <= j < |KeptIndices(p)| ==>
               TagCategories(p)[j] == p[KeptIndices(p)[j]].category.value &&
               TagNames(p)[j] == p[KeptIndices(p)[j]].name.value
    ensures |TagCategories(tags)| == |TagNames(tags)| == |KeptIndices(tags)|
    ensures forall j :: 0 <= j < |KeptIndices(tags)| ==>
              TagCategories(tags)[j] == tags[KeptIndices(tags)[j]].category.value &&
              TagNames(tags)[j] == tags[KeptIndices(tags)[j]].name.value
  {
    var n := |tags| - 1;
    var p := tags[..n];
    assert forall i :: 0 <= i < n ==> p[i] == tags[i];
    var ix := KeptIndices(tags);
    assert ix == KeptIndices(p) + (if HasBoth(tags[n]) then [n] else []);
    forall j | 0 <= j < |ix|
      ensures TagCategories(tags)[j] == tags[ix[j]].category.value &&
              TagNames(tags)[j] == tags[ix[j]].name.value
    {
      if j < |KeptIndices(p)| {
        assert ix[j] == KeptIndices(p)[j] < n;
      }
    }
  }

  /** `";".join(parts)`: the text shows a `;` exactly when there are two parts or more, or a part holds one. */
  function Join(parts: seq<string>): (r: string)
    ensures ';' in r <==> |parts| >= 2 || exists i :: 0 <= i < |parts| && ';' in parts[i]
    decreases |parts|
  {
    if parts == [] then ""
    else if |parts| == 1 then parts[0]
    else parts[0] + ";" + Join(parts[1..])
  }

  /** `s.split(";")`, which readers of the joined columns use. */
  function Split(s: string): (parts: seq<string>)
    ensures |parts| >= 1
    decreases |s|
  {
    if s == [] then [""]
    else if s[0] == ';' then [""] + Split(s[1..])
    else
      var rest := Split(s[1..]);
      [[s[0]] + rest[0]] + rest[1..]
  }

  lemma {:induction false} SplitPlain(a: string)
    requires ';' !in a
    ensures Split(a) == [a]
    decreases |a|
  {
    if a != [] {
      SplitPlain(a[1..]);
      assert [a[0]] + a[1..] == a;
    }
  }

  lemma {:induction false} SplitAfterPlain(a: string, b: string)
    requires ';' !in a
    ensures Split(a + ";" + b) == [a] + Split(b)
    decreases |a|
  {
    if a == [] {
      assert a + ";" + b == [';'] + b;
      assert ([';'] + b)[1..] == b;
    } else {
      assert (a + ";" + b)[1..] == a[1..] + ";" + b;
      SplitAfterPlain(a[1..], b);
      assert [a[0]] + a[1..] == a;
    }
  }

  /**
   * Splitting a joined list gives the list back, provided the list is not
   * empty and no entry contains the separator (the join is lossy otherwise).
   */
  lemma {:induction false} SplitJoin(parts: seq<string>)
    requires |parts| >= 1
    requires forall j :: 0 <= j < |parts| ==> ';' !in parts[j]
    ensures Split(Join(parts)) == parts
    decreases |parts|
  {
    if |parts| == 1 {
      SplitPlain(parts[0]);
    } else {
      SplitJoin(parts[1..]);
      SplitAfterPlain(parts[0], Join(parts[1..]));
      assert [parts[0]] + parts[1..] == parts;
    }
  }

  /** The round trip of SplitJoin, for any list that meets its conditions. */
  lemma SplitJoinWhenPlain(parts: seq<string>)
    ensures parts != [] && (forall j :: 0 <= j < |parts| ==> ';' !in parts[j]) ==> Split(Join(parts)) == parts
  {
    if parts != [] && (forall j :: 0 <= j < |parts| ==> ';' !in parts[j]) {
      SplitJoin(parts);
    }
  }

  /** parse_tags: the joined categories and the joined names of the kept tags. */
  method ParseTags(tags: seq<Tag>) returns (categories: string, names: string)
    ensures categories == Join(TagCategories(tags))
    ensures names == Join(TagNames(tags))
  {
    var cats: seq<string> := [];
    var vals: seq<string> := [];
    for i := 0 to |tags|
      invariant cats == TagCategories(tags[..i])
      invariant vals == TagNames(tags[..i])
    {
      assert tags[..i + 1][..i] == tags[..i];
      var t := tags[i];
      if t.category.Some? && t.name.Some? {
        cats := cats + [t.category.value];
        vals := vals + [t.name.value];
      }
    }
    assert tags[..|tags|] == tags;
    categories := Join(cats);
    names := Join(vals);
  }

  // ---------------------------------------------------------------------
  // Pagination
  // ---------------------------------------------------------------------

  /** Another page is requested only when more_items and last_assetid are both truthy. */
  predicate Continues(p: Page) {
    p.moreItems && p.lastAssetid.Some? && p.lastAssetid.value != ""
  }

  /**
   * The number of requests the loop makes: it stops after a failed request,
   * after a page that does not continue, or when the script runs out (that
   * last request counts as a failed one).
   */
  function RequestCount(pages: seq<PageResponse>): (n: nat)
    ensures 1 <= n <= |pages| + 1
    decreases |pages|
  {
    if |pages| == 0 || pages[0].RequestFailed? || !Continues(pages[0].page) then 1
    else 1 + RequestCount(pages[1..])
  }

  /** The fetch completes when its last request returned a page. */
  predicate FetchSucceeds(pages: seq<PageResponse>) {
    RequestCount(pages) <= |pages| && pages[RequestCount(pages) - 1].Received?
  }

  function AssetsOf(r: PageResponse): seq<Asset> {
    if r.Received? then r.page.assets else []
  }

  /** The concatenation of the assets of the pages, in page order. */
  function PageAssets(ps: seq<PageResponse>): seq<Asset>
    decreases |ps|
  {
    if ps == [] then [] else PageAssets(ps[..|ps| - 1]) + AssetsOf(ps[|ps| - 1])
  }

  function KeyOf(d: Description): DescKey {
    (d.classid, d.instanceid)
  }

  /** The (key, description) writes of one list of descriptions. */
  function DescWrites(ds: seq<Description>): (kvs: seq<(DescKey, Description)>)
    ensures |kvs| == |ds|
    ensures forall i :: 0 <= i < |ds| ==> kvs[i] == (KeyOf(ds[i]), ds[i])
  {
    seq(|ds|, i requires 0 <= i < |ds| => (KeyOf(ds[i]), ds[i]))
  }

  /** The (key, description) writes of the pages, in page order. */
  function PageDescWrites(ps: seq<PageResponse>): seq<(DescKey, Description)>
    decreases |ps|
  {
    if ps == [] then []
    else
      var last := ps[|ps| - 1];
      PageDescWrites(ps[..|ps| - 1]) + (if last.Received? then DescWrites(last.page.descriptions) else [])
  }

  /** The descriptions dictionary after the pages: the last description seen for each key. */
  function PageDescriptions(ps: seq<PageResponse>): map<DescKey, Description> {
    KeyedUpdates.Upsert(map[], PageDescWrites(ps))
  }

  /** Accumulating one more received page extends the assets and the description writes. */
  lemma PageStep(pages: seq<PageResponse>, i: nat)
    requires i < |pages| && pages[i].Received?
    ensures PageAssets(pages[..i + 1]) == PageAssets(pages[..i]) + pages[i].page.assets
    ensures PageDescriptions(pages[..i + 1]) ==
            KeyedUpdates.Upsert(PageDescriptions(pages[..i]), DescWrites(pages[i].page.descriptions))
  {
    assert pages[..i + 1][..i] == pages[..i];
    KeyedUpdates.UpsertAppend(map[], PageDescWrites(pages[..i]), DescWrites(pages[i].page.descriptions));
  }

  /** The inner loop writing one page's descriptions into the dictionary. */
  method MergeDescriptions(descs: map<DescKey, Description>, ds: seq<Description>) returns (merged: map<DescKey, Description>)
    ensures merged == KeyedUpdates.Upsert(descs, DescWrites(ds))
  {
    merged := descs;
    for j := 0 to |ds|
      invariant merged == KeyedUpdates.Upsert(descs, DescWrites(ds[..j]))
    {
      var d := ds[j];
      assert DescWrites(ds[..j + 1]) == DescWrites(ds[..j]) + [(KeyOf(d), d)];
      merged := merged[(d.classid, d.instanceid) := d];
    }
    assert ds[..|ds|] == ds;
  }

  /**
   * The start_assetid values of the first n requests: none on the first,
   * then the last_assetid of each page before.
   */
  ghost function CursorsSent(pages: seq<PageResponse>, n: nat): (cs: seq<Option<string>>)
    requires n <= |pages| + 1
    requires forall j :: 0 <= j < n - 1 ==> pages[j].Received?
  {
    if n == 0 then []
    else if n == 1 then [None]
    else CursorsSent(pages, n - 1) + [pages[n - 2].page.lastAssetid]
  }

  /**
   * The first request carries no cursor and each later one carries the
   * last_assetid of the page before it, which asked for more.
   */
  predicate CursorsFollowPages(pages: seq<PageResponse>, cursors: seq<Option<string>>) {
    |cursors| > 0 && cursors[0] == None &&
    forall i :: 1 <= i < |cursors| ==>
      i - 1 < |pages| && pages[i - 1].Received? && Continues(pages[i - 1].page) &&
      cursors[i] == pages[i - 1].page.lastAssetid
  }

  /** The cursors sent on the first n requests follow the pages. */
  lemma {:induction false} CursorsSentFollow(pages: seq<PageResponse>, n: nat)
    requires 0 < n <= |pages| + 1
    requires forall j :: 0 <= j < n - 1 ==> pages[j].Received? && Continues(pages[j].page)
    ensures |CursorsSent(pages, n)| == n
    ensures CursorsFollowPages(pages, CursorsSent(pages, n))
  {
    if n > 1 {
      CursorsSentFollow(pages, n - 1);
      var cs := CursorsSent(pages, n);
      assert cs == CursorsSent(pages, n - 1) + [pages[n - 2].page.lastAssetid];
      forall i | 1 <= i < n
        ensures cs[i] == pages[i - 1].page.lastAssetid
      {
        if i < n - 1 {
          assert cs[i] == CursorsSent(pages, n - 1)[i];
        }
      }
    }
  }

  /** What a completed fetch accumulated. */
  datatype Harvest = Harvest(assets: seq<Asset>, descriptions: map<DescKey, Description>)

  /**
   * The pagination loop of load_and_store_inventory. `cursors` records the
   * start_assetid sent with each request (None: no cursor); the result is
   * None when a request failed.
   */
  method FetchAll(pages: seq<PageResponse>) returns (result: Option<Harvest>, cursors: seq<Option<string>>)
    ensures |cursors| == RequestCount(pages)
    ensures CursorsFollowPages(pages, cursors)
    ensures result.Some? <==> FetchSucceeds(pages)
    ensures result.Some? ==>
              result.value.assets == PageAssets(pages[..|cursors|]) &&
              result.value.descriptions == PageDescriptions(pages[..|cursors|])
  {
    var cursor: Option<string> := None;
    var assets: seq<Asset> := [];
    var descs: map<DescKey, Description> := map[];
    var i := 0;
    cursors := [];
    while true
      invariant 0 <= i <= |pages|
      invariant |cursors| == i
      invariant forall j :: 0 <= j < i ==> pages[j].Received? && Continues(pages[j].page)
      invariant cursors == CursorsSent(pages, i)
      invariant cursor == if i == 0 then None else pages[i - 1].page.lastAssetid
      invariant assets == PageAssets(pages[..i])
      invariant descs == PageDescriptions(pages[..i])
      invariant RequestCount(pages) == i + RequestCount(pages[i..])
      decreases |pages| - i
    {
      cursors := cursors + [cursor];
      assert cursors == CursorsSent(pages, i + 1) && CursorsFollowPages(pages, cursors) by {
        CursorsSentFollow(pages, i + 1);
      }
      if i == |pages| || pages[i].RequestFailed? {
        assert RequestCount(pages) == i + 1 && !FetchSucceeds(pages) by {
          FetchStopsAt(pages, i);
        }
        return None, cursors;
      }
      var p := pages[i].page;
      assert assets + p.assets == PageAssets(pages[..i + 1]) by {
        PageStep(pages, i);
      }
      var merged := MergeDescriptions(descs, p.descriptions);
      assert merged == PageDescriptions(pages[..i + 1]) by {
        PageStep(pages, i);
      }
      assets, descs := assets + p.assets, merged;
      if Continues(p) {
        assert RequestCount(pages[i..]) == 1 + RequestCount(pages[i + 1..]) by {
          assert pages[i..][1..] == pages[i + 1..];
        }
        forall j | 0 <= j < i + 1
          ensures pages[j].Received? && Continues(pages[j].page)
        {
        }
        cursor := p.lastAssetid;
        i := i + 1;
      } else {
        assert RequestCount(pages) == i + 1 && FetchSucceeds(pages) by {
          FetchStopsAt(pages, i);
        }
        i := i + 1;
        result := Some(Harvest(assets, descs));
        return;
      }
    }
  }

  /** The fetch stops with request i + 1 when page i is missing, failed or the last one. */
  lemma FetchStopsAt(pages: seq<PageResponse>, i: nat)
    requires i <= |pages|
    requires RequestCount(pages) == i + RequestCount(pages[i..])
    requires i == |pages| || pages[i].RequestFailed? || !Continues(pages[i].page)
    ensures RequestCount(pages) == i + 1
    ensures FetchSucceeds(pages) <==> i < |pages| && pages[i].Received?
  {
    assert RequestCount(pages[i..]) == 1;
  }

  // ---------------------------------------------------------------------
  // Row flattening
  // ---------------------------------------------------------------------

  function AssetKey(a: Asset): DescKey {
    (a.classid, a.instanceid)
  }

  /**
   * The row of one asset joined with its description, stamped with the batch
   * time. Its tag columns split back on `;` into the kept categories and
   * names, unless no tag was kept or a kept value holds a `;` itself.
   */
  function FlattenRow(steamid: string, a: Asset, d: Description, now: Timestamp): (r: Row)
    ensures r.steamid == steamid && r.appid == a.appid && r.assetid == a.assetid && r.updatedAt == now
    ensures (r.classid, r.instanceid) == AssetKey(a)
    ensures r.marketHashName == d.marketHashName && r.tradable == d.tradable && r.marketable == d.marketable &&
            r.kind == d.kind && r.iconUrl == d.iconUrl
    ensures var cats := TagCategories(d.tags);
            cats != [] && (forall j :: 0 <= j < |cats| ==> ';' !in cats[j]) ==> Split(r.categories) == cats
    ensures var names := TagNames(d.tags);
            names != [] && (forall j :: 0 <= j < |names| ==> ';' !in names[j]) ==> Split(r.tags) == names
  {
    SplitJoinWhenPlain(TagCategories(d.tags));
    SplitJoinWhenPlain(TagNames(d.tags));
    Row(steamid, a.appid, a.assetid, a.classid, a.instanceid,
        d.marketHashName, d.tradable, d.marketable, d.kind,
        Join(TagCategories(d.tags)), Join(TagNames(d.tags)), d.iconUrl, now)
  }

  /** The rows of a batch: one per asset that has a description, in asset order. */
  function RowsFor(steamid: string, assets: seq<Asset>, descs: map<DescKey, Description>, now: Timestamp): (rows: seq<Row>)
    ensures |rows| <= |assets|
    ensures forall i :: 0 <= i < |rows| ==>
              rows[i].steamid == steamid && rows[i].updatedAt == now &&
              (rows[i].classid, rows[i].instanceid) in descs
    decreases |assets|
  {
    if assets == [] then []
    else
      var a := assets[|assets| - 1];
      RowsFor(steamid, assets[..|assets| - 1], descs, now) +
      (if AssetKey(a) in descs then [FlattenRow(steamid, a, descs[AssetKey(a)], now)] else [])
  }

  /**
   * Each row of a batch is the flattening of one of its assets with that
   * asset's own description: its ids come from the asset, and its name,
   * flags, type, icon and tag columns from the description.
   */
  lemma {:induction false} RowsForOrigin(steamid: string, assets: seq<Asset>, descs: map<DescKey, Description>, now: Timestamp, i: int)
    requires 0 <= i < |RowsFor(steamid, assets, descs, now)|
    ensures exists j :: 0 <= j < |assets| && AssetKey(assets[j]) in descs &&
              RowsFor(steamid, assets, descs, now)[i] == FlattenRow(steamid, assets[j], descs[AssetKey(assets[j])], now)
    decreases |assets|
  {
    var front, a := assets[..|assets| - 1], assets[|assets| - 1];
    var earlier := RowsFor(steamid, front, descs, now);
    if i < |earlier| {
      RowsForOrigin(steamid, front, descs, now, i);
      var j :| 0 <= j < |front| && AssetKey(front[j]) in descs &&
               earlier[i] == FlattenRow(steamid, front[j], descs[AssetKey(front[j])], now);
      assert front[j] == assets[j];
    } else {
      assert |assets| - 1 < |assets| && assets[|assets| - 1] == a;
    }
  }

  /** Rows follow asset order: the rows of a + b are the rows of a, then those of b. */
  lemma {:induction false} RowsForAppend(steamid: string, a: seq<Asset>, b: seq<Asset>, descs: map<DescKey, Description>, now: Timestamp)
    ensures RowsFor(steamid, a + b, descs, now) == RowsFor(steamid, a, descs, now) + RowsFor(steamid, b, descs, now)
    decreases |b|
  {
    if b == [] {
      assert a + b == a;
    } else {
      assert (a + b)[..|a + b| - 1] == a + b[..|b| - 1];
      RowsForAppend(steamid, a, b[..|b| - 1], descs, now);
    }
  }

  /** Number of assets that have a description. */
  function CountDescribed(assets: seq<Asset>, descs: map<DescKey, Description>): nat
    decreases |assets|
  {
    if assets == [] then 0
    else CountDescribed(assets[..|assets| - 1], descs) + (if AssetKey(assets[|assets| - 1]) in descs then 1 else 0)
  }

  /** Exactly one row per described asset; none at all when no asset is described. */
  lemma {:induction false} RowsForCount(steamid: string, assets: seq<Asset>, descs: map<DescKey, Description>, now: Timestamp)
    ensures |RowsFor(steamid, assets, descs, now)| == CountDescribed(assets, descs)
    ensures (forall i :: 0 <= i < |assets| ==> AssetKey(assets[i]) !in descs) ==> RowsFor(steamid, assets, descs, now) == []
    decreases |assets|
  {
    if assets != [] {
      var n := |assets| - 1;
      assert forall i :: 0 <= i < n ==> assets[..n][i] == assets[i];
      RowsForCount(steamid, assets[..n], descs, now);
    }
  }

  /** Rows take their appid from the asset: if every asset carries `appid`, so does every row. */
  lemma {:induction false} RowsForKeyed(steamid: string, appid: int, assets: seq<Asset>, descs: map<DescKey, Description>, now: Timestamp)
    requires forall i :: 0 <= i < |assets| ==> assets[i].appid == appid
    ensures forall i :: 0 <= i < |RowsFor(steamid, assets, descs, now)| ==> RowsFor(steamid, assets, descs, now)[i].appid == appid
    decreases |assets|
  {
    if assets != [] {
      var n := |assets| - 1;
      assert forall i :: 0 <= i < n ==> assets[..n][i] == assets[i];
      RowsForKeyed(steamid, appid, assets[..n], descs, now);
    }
  }

  /** The row-building loop of load_and_store_inventory. */
  method BuildRows(steamid: string, assets: seq<Asset>, descs: map<DescKey, Description>, now: Timestamp) returns (rows: seq<Row>)
    ensures rows == RowsFor(steamid, assets, descs, now)
  {
    rows := [];
    for i := 0 to |assets|
      invariant rows == RowsFor(steamid, assets[..i], descs, now)
    {
      assert assets[..i + 1][..i] == assets[..i];
      var asset := assets[i];
      var key := (asset.classid, asset.instanceid);
      if key !in descs {
        continue;
      }
      var desc := descs[key];
      var catStr, valStr := ParseTags(desc.tags);
      rows := rows + [Row(steamid, asset.appid, asset.assetid, asset.classid, asset.instanceid,
                          desc.marketHashName, desc.tradable, desc.marketable, desc.kind,
                          catStr, valStr, desc.iconUrl, now)];
    }
    assert assets[..|assets|] == assets;
  }

  // ---------------------------------------------------------------------
  // The user_inventory table
  // ---------------------------------------------------------------------

  predicate KeyedBy(r: Row, steamid: string, appid: int) {
    r.steamid == steamid && r.appid == appid
  }

  /** The table after `DELETE ... WHERE steamid = $1 AND appid = $2`. */
  function Without(t: seq<Row>, steamid: string, appid: int): seq<Row>
    decreases |t|
  {
    if t == [] then []
    else Without(t[..|t| - 1], steamid, appid) + (if KeyedBy(t[|t| - 1], steamid, appid) then [] else [t[|t| - 1]])
  }

  /** The rows of the table stored under (steamid, appid), in table order. */
  function View(t: seq<Row>, steamid: string, appid: int): seq<Row>
    decreases |t|
  {
    if t == [] then []
    else View(t[..|t| - 1], steamid, appid) + (if KeyedBy(t[|t| - 1], steamid, appid) then [t[|t| - 1]] else [])
  }

  /** The table after the delete for (steamid, appid) and the insert of `rows`. */
  function Replaced(t: seq<Row>, steamid: string, appid: int, rows: seq<Row>): seq<Row> {
    Without(t, steamid, appid) + rows
  }

  lemma {:induction false} WithoutAppend(a: seq<Row>, b: seq<Row>, s: string, p: int)
    ensures Without(a + b, s, p) == Without(a, s, p) + Without(b, s, p)
    decreases |b|
  {
    if b == [] {
      assert a + b == a;
    } else {
      assert (a + b)[..|a + b| - 1] == a + b[..|b| - 1];
      WithoutAppend(a, b[..|b| - 1], s, p);
    }
  }

  lemma {:induction false} ViewAppend(a: seq<Row>, b: seq<Row>, s: string, p: int)
    ensures View(a + b, s, p) == View(a, s, p) + View(b, s, p)
    decreases |b|
  {
    if b == [] {
      assert a + b == a;
    } else {
      assert (a + b)[..|a + b| - 1] == a + b[..|b| - 1];
      ViewAppend(a, b[..|b| - 1], s, p);
    }
  }

  /** Deleting the rows of one key removes them all and leaves the other keys' rows as they were. */
  lemma {:induction false} ViewOfWithout(t: seq<Row>, s: string, p: int, s': string, p': int)
    ensures View(Without(t, s, p), s', p') == if (s, p) == (s', p') then [] else View(t, s', p')
    decreases |t|
  {
    if t != [] {
      var n := |t| - 1;
      ViewOfWithout(t[..n], s, p, s', p');
      var tail := if KeyedBy(t[n], s, p) then [] else [t[n]];
      ViewAppend(Without(t[..n], s, p), tail, s', p');
      assert View(tail, s', p') == (if KeyedBy(t[n], s, p) then [] else View([t[n]], s', p'));
      assert [t[n]][..0] == [];
    }
  }

  /** A batch whose rows all carry (s, p) is entirely in the view of (s, p) and in no other. */
  lemma {:induction false} ViewOfKeyed(rows: seq<Row>, s: string, p: int, s': string, p': int)
    requires forall i :: 0 <= i < |rows| ==> KeyedBy(rows[i], s, p)
    ensures View(rows, s', p') == if (s, p) == (s', p') then rows else []
    decreases |rows|
  {
    if rows != [] {
      var n := |rows| - 1;
      ViewOfKeyed(rows[..n], s, p, s', p');
      assert rows[..n] + [rows[n]] == rows;
    }
  }

  lemma {:induction false} WithoutIdempotent(t: seq<Row>, s: string, p: int)
    ensures Without(Without(t, s, p), s, p) == Without(t, s, p)
    decreases |t|
  {
    if t != [] {
      var n := |t| - 1;
      WithoutIdempotent(t[..n], s, p);
      var tail := if KeyedBy(t[n], s, p) then [] else [t[n]];
      WithoutAppend(Without(t[..n], s, p), tail, s, p);
      assert [t[n]][..0] == [];
    }
  }

  lemma {:induction false} WithoutEmptyIff(rows: seq<Row>, s: string, p: int)
    ensures Without(rows, s, p) == [] <==> forall i :: 0 <= i < |rows| ==> KeyedBy(rows[i], s, p)
    decreases |rows|
  {
    if rows != [] {
      var n := |rows| - 1;
      var front := rows[..n];
      WithoutEmptyIff(front, s, p);
      assert Without(rows, s, p) == Without(front, s, p) + (if KeyedBy(rows[n], s, p) then [] else [rows[n]]);
      assert forall i :: 0 <= i < n ==> front[i] == rows[i];
    }
  }

  /**
   * After a replacement with a batch keyed by (s, p), the view of (s, p) is
   * exactly the batch (empty when the batch is empty) and every other key's
   * view is unchanged.
   */
  lemma ReplacedViews(t: seq<Row>, s: string, p: int, rows: seq<Row>, s': string, p': int)
    requires forall i :: 0 <= i < |rows| ==> KeyedBy(rows[i], s, p)
    ensures View(Replaced(t, s, p, rows), s', p') == if (s, p) == (s', p') then rows else View(t, s', p')
  {
    ViewAppend(Without(t, s, p), rows, s', p');
    ViewOfWithout(t, s, p, s', p');
    ViewOfKeyed(rows, s, p, s', p');
  }

  /**
   * Replacing twice with the same batch is the same as replacing once
   * exactly when every row of the batch carries the key that the delete
   * uses; a row stored under another appid survives the next delete and is
   * inserted again.
   */
  lemma ReplaceIdempotentIff(t: seq<Row>, s: string, p: int, rows: seq<Row>)
    ensures Replaced(Replaced(t, s, p, rows), s, p, rows) == Replaced(t, s, p, rows)
            <==> forall i :: 0 <= i < |rows| ==> KeyedBy(rows[i], s, p)
  {
    WithoutAppend(Without(t, s, p), rows, s, p);
    WithoutIdempotent(t, s, p);
    WithoutEmptyIff(rows, s, p);
    var once := Replaced(t, s, p, rows);
    var twice := Replaced(once, s, p, rows);
    assert twice == Without(t, s, p) + Without(rows, s, p) + rows;
    if twice == once {
      assert |Without(rows, s, p)| == 0;
    }
  }

  /** Where the database call fails, if it does. */
  datatype DbFault =
    | NoFault
    | FailBeforeDelete  // connect, CREATE TABLE or the DELETE itself raises
    | FailAtInsert      // the DELETE ran; the bulk INSERT raises and inserts nothing
    | FailAtClose       // both statements ran; closing the connection raises

  datatype StoreResult = StoreResult(ok: bool, table: seq<Row>)

  /** True when the fetch completed with at least one asset, so the database is written. */
  predicate WillWrite(pages: seq<PageResponse>) {
    FetchSucceeds(pages) && |PageAssets(pages[..RequestCount(pages)])| > 0
  }

  /** The rows a completed fetch produces. */
  function FetchedRows(steamid: string, pages: seq<PageResponse>, now: Timestamp): seq<Row>
    requires FetchSucceeds(pages)
  {
    var fetched := pages[..RequestCount(pages)];
    RowsFor(steamid, PageAssets(fetched), PageDescriptions(fetched), now)
  }

  /**
   * The returned flag and the table after load_and_store_inventory: True
   * only when the fetch gave assets and no statement failed, and the table is
   * the old one, the old one after the DELETE, or the old one after DELETE
   * plus INSERT.
   */
  function StoreOutcome(t: seq<Row>, steamid: string, appid: int, pages: seq<PageResponse>, now: Timestamp, fault: DbFault): (r: StoreResult)
    ensures r.ok <==> WillWrite(pages) && fault == NoFault
    ensures r.table == t || r.table == Without(t, steamid, appid) ||
            (WillWrite(pages) && r.table == Replaced(t, steamid, appid, FetchedRows(steamid, pages, now)))
  {
    if !WillWrite(pages) then StoreResult(false, t)
    else
      var rows := FetchedRows(steamid, pages, now);
      match fault
      case FailBeforeDelete => StoreResult(false, t)
      case FailAtInsert => StoreResult(false, Without(t, steamid, appid))
      case FailAtClose => StoreResult(false, Replaced(t, steamid, appid, rows))
      case NoFault => StoreResult(true, Replaced(t, steamid, appid, rows))
  }

  /**
   * A reported success leaves exactly the fetched rows under (steamid, appid)
   * and every other key's rows untouched, provided the API tagged every asset
   * with the requested appid; this holds even when no asset had a description
   * and the batch is empty.
   */
  lemma SuccessIsExactSnapshot(t: seq<Row>, steamid: string, appid: int, pages: seq<PageResponse>, now: Timestamp, fault: DbFault, s': string, p': int)
    requires FetchSucceeds(pages)
    requires forall i :: 0 <= i < |PageAssets(pages[..RequestCount(pages)])| ==> PageAssets(pages[..RequestCount(pages)])[i].appid == appid
    ensures var r := StoreOutcome(t, steamid, appid, pages, now, fault);
            r.ok ==> View(r.table, s', p') == if (steamid, appid) == (s', p') then FetchedRows(steamid, pages, now) else View(t, s', p')
  {
    var fetched := pages[..RequestCount(pages)];
    RowsForKeyed(steamid, appid, PageAssets(fetched), PageDescriptions(fetched), now);
    ReplacedViews(t, steamid, appid, FetchedRows(steamid, pages, now), s', p');
  }

  /**
   * A reported failure leaves the table untouched, except when the INSERT
   * fails after the DELETE has run: then the old snapshot of (steamid, appid)
   * is gone although nothing new was stored, while every other key keeps its
   * rows; and except when closing the connection fails after both statements
   * ran, so the new snapshot is stored although False is returned. A fetch
   * that fails or yields no assets writes nothing, whatever the database
   * would have done.
   */
  lemma FailureEffects(t: seq<Row>, steamid: string, appid: int, pages: seq<PageResponse>, now: Timestamp, fault: DbFault, s': string, p': int)
    ensures !WillWrite(pages) ==> StoreOutcome(t, steamid, appid, pages, now, fault) == StoreResult(false, t)
    ensures var r := StoreOutcome(t, steamid, appid, pages, now, fault);
            !r.ok && fault != FailAtInsert && fault != FailAtClose ==> r.table == t
    ensures var r := StoreOutcome(t, steamid, appid, pages, now, fault);
            WillWrite(pages) && fault == FailAtInsert ==>
              !r.ok && View(r.table, steamid, appid) == [] &&
              ((s', p') != (steamid, appid) ==> View(r.table, s', p') == View(t, s', p'))
    ensures var r := StoreOutcome(t, steamid, appid, pages, now, fault);
            WillWrite(pages) && fault == FailAtClose ==>
              !r.ok && r.table == Replaced(t, steamid, appid, FetchedRows(steamid, pages, now))
  {
    ViewOfWithout(t, steamid, appid, steamid, appid);
    ViewOfWithout(t, steamid, appid, s', p');
  }

  /** The user_inventory table, mutated statement by statement. */
  class InventoryStore {
    var table: seq<Row>

    constructor (initial: seq<Row>)
      ensures table == initial
    {
      table := initial;
    }

    /** DELETE FROM user_inventory WHERE steamid = $1 AND appid = $2. */
    method DeleteFor(steamid: string, appid: int)
      modifies this
      ensures table == Without(old(table), steamid, appid)
    {
      table := Without(table, steamid, appid);
    }

    /** The bulk INSERT of a batch. */
    method InsertMany(rows: seq<Row>)
      modifies this
      ensures table == old(table) + rows
    {
      table := table + rows;
    }
  }

  /** load_and_store_inventory. */
  method LoadAndStoreInventory(store: InventoryStore, steamid: string, appid: int, pages: seq<PageResponse>, now: Timestamp, fault: DbFault)
    returns (ok: bool)
    modifies store
    ensures StoreResult(ok, store.table) == StoreOutcome(old(store.table), steamid, appid, pages, now, fault)
  {
    var fetched, cursors := FetchAll(pages);
    if fetched.None? {
      return false;
    }
    var allAssets := fetched.value.assets;
    if |allAssets| == 0 {
      return false;
    }
    var rows := BuildRows(steamid, allAssets, fetched.value.descriptions, now);
    if fault == FailBeforeDelete {
      return false;
    }
    store.DeleteFor(steamid, appid);
    if fault == FailAtInsert {
      return false;
    }
    store.InsertMany(rows);
    if fault == FailAtClose {
      return false;
    }
    return true;
  }

  /** The responses of GET /inventory/{steamid}/{appid}. */
  datatype EndpointResponse = Unauthorized | Saved | Failed

  /**
   * inventory_endpoint: any session that holds a steamid may load any user's
   * inventory; without one the request is refused before any fetch.
   */
  method InventoryEndpoint(store: InventoryStore, session: Option<string>, steamid: string, appid: int,
                           pages: seq<PageResponse>, now: Timestamp, fault: DbFault)
    returns (resp: EndpointResponse)
    modifies store
    ensures session.None? ==> resp == Unauthorized && store.table == old(store.table)
    ensures session.Some? ==>
              var r := StoreOutcome(old(store.table), steamid, appid, pages, now, fault);
              store.table == r.table && resp == (if r.ok then Saved else Failed)
  {
    if session.None? {
      return Unauthorized;
    }
    var success := LoadAndStoreInventory(store, steamid, appid, pages, now, fault);
    resp := if success then Saved else Failed;
  }
}
