/**
 * The pricing composer of routers/inventory_json.py: it groups a user's
 * stored rows, looks each group's USD price up in the market price catalog,
 * converts it into every currency of the rate table and emits one JSON record
 * per group.
 *
 * The database reads become parameters: the user_inventory table, the rows of
 * steamapis_items and the curse table (currency code to roubles per unit).
 */
module InventoryJson {
  import opened Wrappers
  import KeyedUpdates
  import Numeric
  import Inventory

  type Row = Inventory.Row
  type Timestamp = Inventory.Timestamp

  // ---------------------------------------------------------------------
  // _get_user_inventory: GROUP BY appid, market_hash_name, tradable, marketable, icon_url
  // ---------------------------------------------------------------------

  datatype GroupKey = GroupKey(
    appid: int,
    marketHashName: Option<string>,
    tradable: Option<int>,
    marketable: Option<int>,
    iconUrl: Option<string>)

  /** One result row of the grouping query: MAX(updated_at) and COUNT(*) of its key. */
  datatype Group = Group(key: GroupKey, updatedAt: Timestamp, count: nat)

  function GroupKeyOf(r: Row): GroupKey {
    GroupKey(r.appid, r.marketHashName, r.tradable, r.marketable, r.iconUrl)
  }

  /** WHERE steamid = $1. */
  function UserRows(table: seq<Row>, steamid: string): (rows: seq<Row>)
    ensures forall i :: 0 <= i < |rows| ==> rows[i].steamid == steamid
    decreases |table|
  {
    if table == [] then []
    else
      var r := table[|table| - 1];
      UserRows(table[..|table| - 1], steamid) + (if r.steamid == steamid then [r] else [])
  }

  /** The group `g` after one more row of its key. */
  function Bump(g: Group, r: Row): Group {
    Group(g.key, if r.updatedAt > g.updatedAt then r.updatedAt else g.updatedAt, g.count + 1)
  }

  predicate HasGroup(gs: seq<Group>, k: GroupKey) {
    exists i :: 0 <= i < |gs| && gs[i].key == k
  }

  /** Accounts for one more row: its group is bumped, or a new group is appended. */
  function AddRow(gs: seq<Group>, r: Row): seq<Group> {
    if HasGroup(gs, GroupKeyOf(r)) then
      seq(|gs|, i requires 0 <= i < |gs| => if gs[i].key == GroupKeyOf(r) then Bump(gs[i], r) else gs[i])
    else
      gs + [Group(GroupKeyOf(r), r.updatedAt, 1)]
  }

  /** The groups of `rows`, in order of first occurrence of their key; never more groups than rows, and none only for no rows. */
  function GroupRows(rows: seq<Row>): (gs: seq<Group>)
    ensures |gs| <= |rows|
    ensures gs == [] <==> rows == []
    decreases |rows|
  {
    if rows == [] then [] else AddRow(GroupRows(rows[..|rows| - 1]), rows[|rows| - 1])
  }

  /**
   * _get_user_inventory: one group per distinct key among the user's rows,
   * with the number of those rows and the latest of their update times.
   */
  function UserInventory(table: seq<Row>, steamid: string): (gs: seq<Group>)
    ensures Summarises(gs, UserRows(table, steamid))
  {
    GroupRowsSummarises(UserRows(table, steamid));
    GroupRows(UserRows(table, steamid))
  }

  /** Number of rows of key `k`. */
  function CountKey(rows: seq<Row>, k: GroupKey): nat
    decreases |rows|
  {
    if rows == [] then 0
    else CountKey(rows[..|rows| - 1], k) + (if GroupKeyOf(rows[|rows| - 1]) == k then 1 else 0)
  }

  /** `t` is the largest updated_at among the rows of key `k`. */
  ghost predicate IsLatest(rows: seq<Row>, k: GroupKey, t: Timestamp) {
    (exists i :: 0 <= i < |rows| && GroupKeyOf(rows[i]) == k && rows[i].updatedAt == t) &&
    (forall i :: 0 <= i < |rows| && GroupKeyOf(rows[i]) == k ==> rows[i].updatedAt <= t)
  }

  /** `gs` is the grouping of `rows`: one group per distinct key, with its count and latest time. */
  ghost predicate Summarises(gs: seq<Group>, rows: seq<Row>) {
    (forall i, j :: 0 <= i < j < |gs| ==> gs[i].key != gs[j].key) &&
    (forall i :: 0 <= i < |gs| ==> gs[i].count == CountKey(rows, gs[i].key) && IsLatest(rows, gs[i].key, gs[i].updatedAt)) &&
    (forall i :: 0 <= i < |rows| ==> HasGroup(gs, GroupKeyOf(rows[i])))
  }

  function SumCounts(gs: seq<Group>): nat
    decreases |gs|
  {
    if gs == [] then 0 else SumCounts(gs[..|gs| - 1]) + gs[|gs| - 1].count
  }

  lemma {:induction false} CountKeySnoc(rows: seq<Row>, r: Row, k: GroupKey)
    ensures CountKey(rows + [r], k) == CountKey(rows, k) + (if GroupKeyOf(r) == k then 1 else 0)
  {
    assert (rows + [r])[..|rows|] == rows;
  }

  lemma {:induction false} CountKeyZero(rows: seq<Row>, k: GroupKey)
    requires forall i :: 0 <= i < |rows| ==> GroupKeyOf(rows[i]) != k
    ensures CountKey(rows, k) == 0
    decreases |rows|
  {
    if rows != [] {
      var n := |rows| - 1;
      assert forall i :: 0 <= i < n ==> rows[..n][i] == rows[i];
      CountKeyZero(rows[..n], k);
    }
  }

  lemma {:induction false} AddRowSummarises(gs: seq<Group>, rows: seq<Row>, r: Row)
    requires Summarises(gs, rows)
    ensures Summarises(AddRow(gs, r), rows + [r])
  {
    var rows' := rows + [r];
    var gs' := AddRow(gs, r);
    forall i | 0 <= i < |gs'|
      ensures gs'[i].count == CountKey(rows', gs'[i].key) && IsLatest(rows', gs'[i].key, gs'[i].updatedAt)
    {
      if i < |gs| {
        AddRowKeepsGroup(gs, rows, r, i);
      } else {
        var k := GroupKeyOf(r);
        assert !HasGroup(gs, k);
        assert forall j :: 0 <= j < |rows| ==> GroupKeyOf(rows[j]) != k by {
          forall j | 0 <= j < |rows|
            ensures GroupKeyOf(rows[j]) != k
          {
            assert HasGroup(gs, GroupKeyOf(rows[j]));
          }
        }
        AddRowNewGroup(gs, rows, r);
      }
    }
    AddRowCovers(gs, rows, r);
  }

  /** AddRow at an existing position: bumped when the row has its key, unchanged otherwise. */
  lemma {:induction false} AddRowAt(gs: seq<Group>, r: Row, i: nat)
    requires i < |gs|
    ensures var gs' := AddRow(gs, r);
            i < |gs'| && gs'[i] == if gs[i].key == GroupKeyOf(r) then Bump(gs[i], r) else gs[i]
  {
    if !HasGroup(gs, GroupKeyOf(r)) {
      assert gs[i].key != GroupKeyOf(r);
    }
  }

  /** One more row moves the latest time of its key up to the row's time when that is later. */
  lemma {:induction false} LatestSnoc(rows: seq<Row>, r: Row, k: GroupKey, t: Timestamp)
    requires IsLatest(rows, k, t)
    ensures IsLatest(rows + [r], k, if GroupKeyOf(r) == k && r.updatedAt > t then r.updatedAt else t)
  {
    var rows' := rows + [r];
    var w :| 0 <= w < |rows| && GroupKeyOf(rows[w]) == k && rows[w].updatedAt == t;
    if GroupKeyOf(r) == k && r.updatedAt > t {
      assert rows'[|rows|] == r;
    } else {
      assert rows'[w] == rows[w];
    }
    forall j | 0 <= j < |rows'| && GroupKeyOf(rows'[j]) == k
      ensures rows'[j].updatedAt <= if GroupKeyOf(r) == k && r.updatedAt > t then r.updatedAt else t
    {
      if j < |rows| {
        assert rows'[j] == rows[j];
      }
    }
  }

  /** An existing group is bumped by a row of its key and untouched by any other row. */
  lemma {:induction false} AddRowKeepsGroup(gs: seq<Group>, rows: seq<Row>, r: Row, i: nat)
    requires i < |gs| && gs[i].count == CountKey(rows, gs[i].key) && IsLatest(rows, gs[i].key, gs[i].updatedAt)
    ensures var gs' := AddRow(gs, r);
            i < |gs'| && gs'[i].key == gs[i].key &&
            gs'[i].count == CountKey(rows + [r], gs'[i].key) && IsLatest(rows + [r], gs'[i].key, gs'[i].updatedAt)
  {
    var g := gs[i];
    assert AddRow(gs, r)[i] == if g.key == GroupKeyOf(r) then Bump(g, r) else g by {
      AddRowAt(gs, r, i);
    }
    assert CountKey(rows + [r], g.key) == g.count + (if GroupKeyOf(r) == g.key then 1 else 0) by {
      CountKeySnoc(rows, r, g.key);
    }
    assert IsLatest(rows + [r], g.key, if GroupKeyOf(r) == g.key && r.updatedAt > g.updatedAt then r.updatedAt else g.updatedAt) by {
      LatestSnoc(rows, r, g.key, g.updatedAt);
    }
  }

  /** A row of a new key opens a group of count 1 holding its time. */
  lemma {:induction false} AddRowNewGroup(gs: seq<Group>, rows: seq<Row>, r: Row)
    requires !HasGroup(gs, GroupKeyOf(r))
    requires forall j :: 0 <= j < |rows| ==> GroupKeyOf(rows[j]) != GroupKeyOf(r)
    ensures var gs' := AddRow(gs, r);
            |gs'| == |gs| + 1 &&
            gs'[|gs|].count == CountKey(rows + [r], gs'[|gs|].key) && IsLatest(rows + [r], gs'[|gs|].key, gs'[|gs|].updatedAt)
  {
    var k := GroupKeyOf(r);
    assert AddRow(gs, r)[|gs|] == Group(k, r.updatedAt, 1);
    assert CountKey(rows + [r], k) == 1 by {
      CountKeyZero(rows, k);
      CountKeySnoc(rows, r, k);
    }
    assert IsLatest(rows + [r], k, r.updatedAt) by {
      var rows' := rows + [r];
      assert rows'[|rows|] == r;
      assert forall j :: 0 <= j < |rows| ==> rows'[j] == rows[j];
    }
  }

  /** AddRow keeps the key at every existing position, and appends only a key it did not have. */
  lemma {:induction false} AddRowKeys(gs: seq<Group>, r: Row)
    ensures var gs' := AddRow(gs, r);
            |gs| <= |gs'| <= |gs| + 1 &&
            (forall j :: 0 <= j < |gs| ==> gs'[j].key == gs[j].key) &&
            (|gs'| > |gs| ==> !HasGroup(gs, GroupKeyOf(r)) && gs'[|gs|].key == GroupKeyOf(r)) &&
            (|gs'| == |gs| ==> HasGroup(gs, GroupKeyOf(r)))
  {
    forall j | 0 <= j < |gs|
      ensures AddRow(gs, r)[j].key == gs[j].key
    {
      AddRowAt(gs, r, j);
    }
  }

  /** Keys stay distinct, and every row, the new one included, has a group. */
  lemma {:induction false} AddRowCovers(gs: seq<Group>, rows: seq<Row>, r: Row)
    requires forall i, j :: 0 <= i < j < |gs| ==> gs[i].key != gs[j].key
    requires forall i :: 0 <= i < |rows| ==> HasGroup(gs, GroupKeyOf(rows[i]))
    ensures var gs' := AddRow(gs, r);
            (forall i, j :: 0 <= i < j < |gs'| ==> gs'[i].key != gs'[j].key) &&
            (forall i :: 0 <= i < |rows + [r]| ==> HasGroup(gs', GroupKeyOf((rows + [r])[i])))
  {
    var rows' := rows + [r];
    var gs' := AddRow(gs, r);
    var k := GroupKeyOf(r);
    AddRowKeys(gs, r);
    forall i | 0 <= i < |rows'|
      ensures HasGroup(gs', GroupKeyOf(rows'[i]))
    {
      var key := if i < |rows| then GroupKeyOf(rows[i]) else k;
      assert GroupKeyOf(rows'[i]) == key;
      if HasGroup(gs, key) {
        var j :| 0 <= j < |gs| && gs[j].key == key;
        assert gs'[j].key == key;
      } else {
        assert gs'[|gs|].key == k;
      }
    }
  }

  /**
   * The grouping query yields one group per distinct key of the user's rows,
   * each with the number of its rows and their latest updated_at.
   */
  lemma {:induction false} GroupRowsSummarises(rows: seq<Row>)
    ensures Summarises(GroupRows(rows), rows)
    decreases |rows|
  {
    if rows != [] {
      var n := |rows| - 1;
      GroupRowsSummarises(rows[..n]);
      AddRowSummarises(GroupRows(rows[..n]), rows[..n], rows[n]);
      assert rows[..n] + [rows[n]] == rows;
    }
  }

  lemma {:induction false} SumCountsBumped(gs: seq<Group>, r: Row)
    requires HasGroup(gs, GroupKeyOf(r))
    requires forall i, j :: 0 <= i < j < |gs| ==> gs[i].key != gs[j].key
    ensures SumCounts(AddRow(gs, r)) == SumCounts(gs) + 1
    decreases |gs|
  {
    var n := |gs| - 1;
    var gs' := AddRow(gs, r);
    var k := GroupKeyOf(r);
    assert gs'[..n] == AddRow(gs[..n], r) || gs[n].key == k;
    if gs[n].key == k {
      assert !HasGroup(gs[..n], k);
      assert gs'[..n] == gs[..n];
    } else {
      assert HasGroup(gs[..n], k) by {
        var j :| 0 <= j < |gs| && gs[j].key == k;
        assert gs[..n][j] == gs[j];
      }
      SumCountsBumped(gs[..n], r);
      assert gs'[..n] == AddRow(gs[..n], r);
    }
  }

  /** The counts of the groups add up to the number of the user's rows. */
  lemma {:induction false} GroupCountsSumToRows(rows: seq<Row>)
    ensures SumCounts(GroupRows(rows)) == |rows|
    decreases |rows|
  {
    if rows != [] {
      var n := |rows| - 1;
      GroupCountsSumToRows(rows[..n]);
      var gs := GroupRows(rows[..n]);
      if HasGroup(gs, GroupKeyOf(rows[n])) {
        GroupRowsSummarises(rows[..n]);
        SumCountsBumped(gs, rows[n]);
      } else {
        assert (gs + [Group(GroupKeyOf(rows[n]), rows[n].updatedAt, 1)])[..|gs|] == gs;
      }
    }
  }

  // ---------------------------------------------------------------------
  // _get_price_map
  // ---------------------------------------------------------------------

  /** A row of steamapis_items as the composer reads it; None is a NULL column. */
  datatype CatalogEntry = CatalogEntry(
    appid: int,
    marketHashName: Option<string>,
    prise24h: Option<real>,
    prise7d: Option<real>,
    avg: Option<real>)

  type PriceKey = (int, Option<string>)

  /** Python truthiness of a nullable number. */
  predicate Truthy(x: Option<real>) {
    x.Some? && x.value != 0.0
  }

  /**
   * `prise_24h or prise_7d or avg or 0`: the freshest non-zero price of the
   * entry, and 0 exactly when none of the three is non-zero.
   */
  function RepresentativePrice(e: CatalogEntry): (p: real)
    ensures p == 0.0 <==> !(Truthy(e.prise24h) || Truthy(e.prise7d) || Truthy(e.avg))
    ensures Truthy(e.prise24h) ==> p == e.prise24h.value
    ensures !Truthy(e.prise24h) && Truthy(e.prise7d) ==> p == e.prise7d.value
    ensures !Truthy(e.prise24h) && !Truthy(e.prise7d) && Truthy(e.avg) ==> p == e.avg.value
    ensures p != 0.0 ==> p in [e.prise24h.GetOr(0.0), e.prise7d.GetOr(0.0), e.avg.GetOr(0.0)]
  {
    if Truthy(e.prise24h) then e.prise24h.value
    else if Truthy(e.prise7d) then e.prise7d.value
    else if Truthy(e.avg) then e.avg.value
    else 0.0
  }

  /** A zero 24h price falls through to the 7-day price, not to the average. */
  lemma FallbackSkipsZero()
    ensures RepresentativePrice(CatalogEntry(730, Some("AK-47 | Redline"), Some(0.0), Some(5.5), Some(3.0))) == 5.5
  {
  }

  function PriceKeyOf(e: CatalogEntry): PriceKey {
    (e.appid, e.marketHashName)
  }

  function PriceWrites(entries: seq<CatalogEntry>): (kvs: seq<(PriceKey, real)>)
    ensures |kvs| == |entries|
    ensures forall i :: 0 <= i < |entries| ==> kvs[i] == (PriceKeyOf(entries[i]), RepresentativePrice(entries[i]))
  {
    seq(|entries|, i requires 0 <= i < |entries| => (PriceKeyOf(entries[i]), RepresentativePrice(entries[i])))
  }

  /** The price map of the catalog rows: it has exactly the catalog's keys. */
  function PriceMapOf(entries: seq<CatalogEntry>): (m: map<PriceKey, real>)
    ensures forall k :: k in m <==> exists i :: 0 <= i < |entries| && PriceKeyOf(entries[i]) == k
  {
    var m := KeyedUpdates.Upsert(map[], PriceWrites(entries));
    assert forall k :: k in m <==> exists i :: 0 <= i < |entries| && PriceKeyOf(entries[i]) == k by {
      forall k ensures k in m <==> exists i :: 0 <= i < |entries| && PriceKeyOf(entries[i]) == k {
        KeyedUpdates.UpsertLastWins(map[], PriceWrites(entries), k);
        if k in m {
          var i :| 0 <= i < |entries| && PriceWrites(entries)[i].0 == k;
        }
      }
    }
    m
  }

  /**
   * _get_price_map: every catalog key is present, and a key shared by
   * several rows holds the price of the LAST of them.
   */
  method BuildPriceMap(entries: seq<CatalogEntry>) returns (prices: map<PriceKey, real>)
    ensures prices == PriceMapOf(entries)
    ensures forall k :: k in prices <==> exists i :: 0 <= i < |entries| && PriceKeyOf(entries[i]) == k
    ensures forall i :: 0 <= i < |entries| && (forall j :: i < j < |entries| ==> PriceKeyOf(entries[j]) != PriceKeyOf(entries[i])) ==>
              prices[PriceKeyOf(entries[i])] == RepresentativePrice(entries[i])
  {
    prices := map[];
    for i := 0 to |entries|
      invariant prices == KeyedUpdates.Upsert(map[], PriceWrites(entries[..i]))
    {
      var r := entries[i];
      assert PriceWrites(entries[..i + 1]) == PriceWrites(entries[..i]) + [(PriceKeyOf(r), RepresentativePrice(r))];
      var price := if r.prise24h.Some? && r.prise24h.value != 0.0 then r.prise24h.value
                   else if r.prise7d.Some? && r.prise7d.value != 0.0 then r.prise7d.value
                   else if r.avg.Some? && r.avg.value != 0.0 then r.avg.value
                   else 0.0;
      prices := prices[(r.appid, r.marketHashName) := price];
    }
    assert entries[..|entries|] == entries;
    PriceMapLastWins(entries);
  }

  /** A key's price comes from the last catalog row of that key. */
  lemma PriceMapLastWins(entries: seq<CatalogEntry>)
    ensures forall i :: 0 <= i < |entries| && (forall j :: i < j < |entries| ==> PriceKeyOf(entries[j]) != PriceKeyOf(entries[i])) ==>
              PriceKeyOf(entries[i]) in PriceMapOf(entries) &&
              PriceMapOf(entries)[PriceKeyOf(entries[i])] == RepresentativePrice(entries[i])
  {
    forall i | 0 <= i < |entries| && (forall j :: i < j < |entries| ==> PriceKeyOf(entries[j]) != PriceKeyOf(entries[i]))
      ensures PriceKeyOf(entries[i]) in PriceMapOf(entries) &&
              PriceMapOf(entries)[PriceKeyOf(entries[i])] == RepresentativePrice(entries[i])
    {
      KeyedUpdates.UpsertLastWins(map[], PriceWrites(entries), PriceKeyOf(entries[i]));
    }
  }

  // ---------------------------------------------------------------------
  // _get_currency_factors
  // ---------------------------------------------------------------------

  datatype ComposeError = MissingUsdRate | ZeroRate

  /** The rate table can anchor the conversion: USD is present and non-zero, and no rate is zero. */
  predicate Anchorable(rubPer: map<string, real>) {
    "USD" in rubPer && rubPer["USD"] != 0.0 &&
    forall c :: c in rubPer ==> rubPer[c] != 0.0
  }

  /**
   * Units of each currency per US dollar: the same currencies as the rate
   * table, 1 for USD, and for every currency the factor times its rouble
   * rate is the rouble rate of USD.
   */
  function AnchoredFactors(rubPer: map<string, real>): (f: map<string, real>)
    requires Anchorable(rubPer)
    ensures f.Keys == rubPer.Keys
    ensures f["USD"] == 1.0
    ensures forall c :: c in f ==> f[c] * rubPer[c] == rubPer["USD"]
  {
    map c | c in rubPer :: if c == "USD" then 1.0 else rubPer["USD"] / rubPer[c]
  }

  /**
   * _get_currency_factors: fails when USD is missing or zero (RuntimeError)
   * or when another currency's rate is zero (division by zero); otherwise the
   * factors have exactly the table's currencies, 1 for USD and
   * roubles-per-USD over roubles-per-unit for the others.
   */
  method CurrencyFactors(rubPer: map<string, real>) returns (r: Result<map<string, real>, ComposeError>)
    ensures r.Failure? <==> !Anchorable(rubPer)
    ensures r.Failure? && ("USD" !in rubPer || rubPer["USD"] == 0.0) ==> r.error == MissingUsdRate
    ensures r.Success? ==>
              r.value.Keys == rubPer.Keys && r.value["USD"] == 1.0 &&
              (forall c :: c in rubPer && c != "USD" ==> r.value[c] == rubPer["USD"] / rubPer[c])
    ensures r.Success? ==> r.value == AnchoredFactors(rubPer)
  {
    if "USD" !in rubPer || rubPer["USD"] == 0.0 {
      return Failure(MissingUsdRate);
    }
    var usd := rubPer["USD"];
    var factors := map["USD" := 1.0];
    var todo := rubPer.Keys - {"USD"};
    while todo != {}
      invariant todo <= rubPer.Keys - {"USD"}
      invariant factors.Keys == rubPer.Keys - todo
      invariant factors["USD"] == 1.0
      invariant forall c :: c in factors && c != "USD" ==> rubPer[c] != 0.0 && factors[c] == usd / rubPer[c]
      decreases todo
    {
      var c :| c in todo;
      if rubPer[c] == 0.0 {
        return Failure(ZeroRate);
      }
      factors := factors[c := usd / rubPer[c]];
      todo := todo - {c};
    }
    return Success(factors);
  }

  /** With 90 roubles per USD and 100 per EUR, one USD is 0.9 EUR. */
  lemma EuroFactorExample()
    ensures AnchoredFactors(map["USD" := 90.0, "EUR" := 100.0])["EUR"] == 0.9
  {
  }

  // ---------------------------------------------------------------------
  // _compose_item_json
  // ---------------------------------------------------------------------

  /** One record of the exported document. */
  datatype ItemJson = ItemJson(
    appid: int,
    marketHashName: Option<string>,
    tradable: Option<int>,
    marketable: Option<int>,
    count: nat,
    iconUrl: Option<string>,
    updatedAt: Timestamp,
    prices: map<string, real>)

  /**
   * The record of one group: its fields copied, and per currency the USD
   * price times the factor, rounded to within half a thousandth.
   */
  function ComposeItemJson(g: Group, priceUsd: real, factors: map<string, real>): (j: ItemJson)
    ensures j.appid == g.key.appid && j.marketHashName == g.key.marketHashName
    ensures j.tradable == g.key.tradable && j.marketable == g.key.marketable
    ensures j.count == g.count && j.iconUrl == g.key.iconUrl && j.updatedAt == g.updatedAt
    ensures j.prices.Keys == factors.Keys
    ensures forall c :: c in factors ==> -0.0005 <= j.prices[c] - priceUsd * factors[c] <= 0.0005
  {
    ItemJson(g.key.appid, g.key.marketHashName, g.key.tradable, g.key.marketable, g.count,
             g.key.iconUrl, g.updatedAt,
             map c | c in factors :: Numeric.Round3(priceUsd * factors[c]))
  }

  /** A group the catalog does not price is listed at 0 in every currency. */
  lemma UnpricedItemIsFree(g: Group, factors: map<string, real>, c: string)
    requires c in factors
    ensures ComposeItemJson(g, 0.0, factors).prices[c] == 0.0
  {
    assert 0.0 * factors[c] == 0.0;
  }

  /** `price_map.get((appid, market_hash_name), 0.0)`. */
  function PriceFor(prices: map<PriceKey, real>, g: Group): real {
    var k := (g.key.appid, g.key.marketHashName);
    if k in prices then prices[k] else 0.0
  }

  // ---------------------------------------------------------------------
  // generate_json_inventory
  // ---------------------------------------------------------------------

  /** The export loop: one record per group, in order, each priced from the map. */
  method ComposeAll(groups: seq<Group>, prices: map<PriceKey, real>, factors: map<string, real>)
    returns (items: seq<ItemJson>)
    ensures |items| == |groups|
    ensures forall i :: 0 <= i < |groups| ==>
              items[i] == ComposeItemJson(groups[i], PriceFor(prices, groups[i]), factors)
  {
    items := [];
    for i := 0 to |groups|
      invariant |items| == i
      invariant forall j :: 0 <= j < i ==> items[j] == ComposeItemJson(groups[j], PriceFor(prices, groups[j]), factors)
    {
      var g := groups[i];
      var key := (g.key.appid, g.key.marketHashName);
      var priceUsd := if key in prices then prices[key] else 0.0;
      items := items + [ComposeItemJson(g, priceUsd, factors)];
    }
  }

  datatype ExportResponse =
    | ExportUnauthorized         // 401
    | ExportIOFailed             // 500: the database or the JSON file raised
    | ExportFailed(error: ComposeError)  // 500
    | Exported(items: seq<ItemJson>)

  /**
   * generate_json_inventory: only the session's own steamid may export. A
   * failure of the database or of the file write (`ioFails`, a parameter
   * since I/O is outside the model) and a rate table that cannot anchor the
   * conversion both end in a 500; otherwise there is one record per group,
   * in the order of `UserInventory`.
   */
  method GenerateJsonInventory(session: Option<string>, steamid: string, table: seq<Row>,
                               catalog: seq<CatalogEntry>, rubPer: map<string, real>, ioFails: bool)
    returns (resp: ExportResponse)
    ensures resp == ExportUnauthorized <==> session != Some(steamid)
    ensures session == Some(steamid) ==> (resp == ExportIOFailed <==> ioFails)
    ensures session == Some(steamid) && !ioFails ==> (resp.ExportFailed? <==> !Anchorable(rubPer))
    ensures resp.Exported? ==>
              var groups := UserInventory(table, steamid);
              Anchorable(rubPer) && |resp.items| == |groups| &&
              forall i :: 0 <= i < |groups| ==>
                resp.items[i] == ComposeItemJson(groups[i], PriceFor(PriceMapOf(catalog), groups[i]), AnchoredFactors(rubPer))
  {
    if session != Some(steamid) {
      return ExportUnauthorized;
    }
    if ioFails {
      return ExportIOFailed;
    }
    var userItems := UserInventory(table, steamid);
    var priceMap := BuildPriceMap(catalog);
    var factors := CurrencyFactors(rubPer);
    if factors.Failure? {
      return ExportFailed(factors.error);
    }
    var outItems := ComposeAll(userItems, priceMap, factors.value);
    return Exported(outItems);
  }
}
