/**
 * The market price catalog refresh of item_steam_apis.py: each item of the
 * market API is normalised into a catalog row with defaults for every absent
 * field, the rows of every game are written into steamapis_items_tmp, and the
 * tmp table is swapped in as steamapis_items, the previous live table being
 * kept as steamapis_items_old.
 *
 * The market API is one response per game; the three tables are fields of a
 * class, None meaning that the table does not exist.
 */
module SteamApis {
  import opened Wrappers
  import Text

  /**
   * The member names of the market API's objects that normalize_item reads,
   * each constructor standing for the JSON name it spells out in snake case
   * (NameId is "nameID", PriseLast24h is "prise_last_24h", Last7d is
   * "last_7d"); Other is any member the normaliser never reads.
   */
  datatype Key =
    | MarketHashName | NameId | Prices | UpdatedAt | Quality | Rarity | Hero | Image
    | Latest | Min | Avg | Max | Mean | Median | SafeTs | Sold | Unstable | UnstableReason
    | PriseLast24h | PriseLast7d | PriseLast30d | PriseLast90d
    | SoldLast24h | SoldLast7d | SoldLast30d | SoldLast90d
    | Last24h | Last7d | Last30d | Last90d | AvgDailyVolume
    | Other(name: string)

  /** A JSON value as the market API sends it. */
  datatype Json = JNull | JBool(b: bool) | JNum(n: real) | JStr(s: string) | JArr(items: seq<Json>) | JObj(fields: map<Key, Json>)

  /** One element of the API's "data" list. */
  type Item = map<Key, Json>

  /** `d.get(key, default)`: key presence decides, whatever the stored value. */
  function Get(d: map<Key, Json>, key: Key, default: Json): Json {
    if key in d then d[key] else default
  }

  /** `d.get(preferred, d.get(alternate, 0))`. */
  function Fallback(d: map<Key, Json>, preferred: Key, alternate: Key): Json {
    Get(d, preferred, Get(d, alternate, JNum(0.0)))
  }

  /** `v` is the value of `preferred` if that key is present, else of `alternate` if present, else 0. */
  predicate ChosenByPresence(d: map<Key, Json>, preferred: Key, alternate: Key, v: Json) {
    if preferred in d then v == d[preferred]
    else if alternate in d then v == d[alternate]
    else v == JNum(0.0)
  }

  /** `v` is the value stored under `key` if present, else `default`. */
  predicate Defaulted(d: map<Key, Json>, key: Key, default: Json, v: Json) {
    (key in d ==> v == d[key]) && (key !in d ==> v == default)
  }

  /** A row of steamapis_items. */
  datatype CatalogRow = CatalogRow(
    appid: int,
    marketHashName: Json,
    nameid: Json,
    latest: Json,
    min: Json,
    avg: Json,
    max: Json,
    mean: Json,
    median: Json,
    prise24h: Json,
    prise7d: Json,
    prise30d: Json,
    prise90d: Json,
    sold24h: Json,
    sold7d: Json,
    sold30d: Json,
    sold90d: Json,
    soldAvg: Json,
    unstable: Json,
    unstableReason: Json,
    updatedAt: Json,
    quality: Json,
    rarity: Json,
    hero: Json,
    image: Json)

  /**
   * `.get` is only defined on dictionaries: Prices must be absent or an
   * object, and so must its SafeTs and "sold"; otherwise normalize_item
   * raises. format_unix divides "updated_at" by 1000, which raises unless it
   * is absent, a number or a boolean.
   */
  predicate WellShaped(item: Item) {
    ObjectOrAbsent(item, Prices) &&
    (Prices in item ==> ObjectOrAbsent(item[Prices].fields, SafeTs) && ObjectOrAbsent(item[Prices].fields, Sold)) &&
    (UpdatedAt in item ==> item[UpdatedAt].JNum? || item[UpdatedAt].JBool?)
  }

  /** `d.get(key, {})` is an object. */
  predicate ObjectOrAbsent(d: map<Key, Json>, key: Key) {
    key in d ==> d[key].JObj?
  }

  /** The members of `d.get(key, {})`. */
  function ObjectAt(d: map<Key, Json>, key: Key): map<Key, Json>
    requires ObjectOrAbsent(d, key)
  {
    if key in d then d[key].fields else map[]
  }

  function PricesOf(item: Item): map<Key, Json>
    requires WellShaped(item)
  {
    ObjectAt(item, Prices)
  }

  function SafeTsOf(item: Item): map<Key, Json>
    requires WellShaped(item)
  {
    ObjectAt(PricesOf(item), SafeTs)
  }

  function SoldOf(item: Item): map<Key, Json>
    requires WellShaped(item)
  {
    ObjectAt(PricesOf(item), Sold)
  }

  /**
   * normalize_item; None exactly when it raises (a field of the wrong JSON
   * type), and otherwise a row of the requested game.
   */
  function NormalizeItem(appid: int, item: Item): (r: Option<CatalogRow>)
    ensures r.Some? <==> WellShaped(item)
    ensures r.Some? ==> r.value.appid == appid
  {
    if WellShaped(item) then Some(Normalized(appid, item)) else None
  }

  /** The row normalize_item builds from a well-shaped item. */
  function Normalized(appid: int, item: Item): (row: CatalogRow)
    requires WellShaped(item)
    ensures row.appid == appid
  {
    var pf, st, sd := PricesOf(item), SafeTsOf(item), SoldOf(item);
    CatalogRow(
      appid,
      Get(item, MarketHashName, JNull),
      Get(item, NameId, JStr("")),
      Get(pf, Latest, JNum(0.0)),
      Get(pf, Min, JNum(0.0)),
      Get(pf, Avg, JNum(0.0)),
      Get(pf, Max, JNum(0.0)),
      Get(pf, Mean, JNum(0.0)),
      Get(pf, Median, JNum(0.0)),
      Fallback(st, PriseLast24h, Last24h),
      Fallback(st, PriseLast7d, Last7d),
      Fallback(st, PriseLast30d, Last30d),
      Fallback(st, PriseLast90d, Last90d),
      Fallback(sd, SoldLast24h, Last24h),
      Fallback(sd, SoldLast7d, Last7d),
      Fallback(sd, SoldLast30d, Last30d),
      Fallback(sd, SoldLast90d, Last90d),
      Get(sd, AvgDailyVolume, JNum(0.0)),
      Get(pf, Unstable, JBool(false)),
      Get(pf, UnstableReason, JBool(false)),
      Get(item, UpdatedAt, JNum(0.0)),
      Get(item, Quality, JStr("none")),
      Get(item, Rarity, JStr("none")),
      Get(item, Hero, JStr("none")),
      Get(item, Image, JStr("")))
  }

  /**
   * normalize_item fills every field of a well-shaped item: the appid
   * passes through; each prise_*
   * and sold_* field is chosen by key presence (prise_last_* or sold_last_*,
   * then last_*, then 0); every other field is the value under its key when
   * present, else its default: 0 for the plain prices and the daily volume,
   * "" for nameid and image, "none" for quality, rarity and hero, false for
   * unstable and unstable_reason, null for market_hash_name and 0 for
   * updated_at.
   */
  lemma NormalizedFields(appid: int, item: Item)
    ensures WellShaped(item) ==>
            var row := NormalizeItem(appid, item).value;
            row.appid == appid &&
            (ChosenByPresence(SafeTsOf(item), PriseLast24h, Last24h, row.prise24h) &&
              ChosenByPresence(SafeTsOf(item), PriseLast7d, Last7d, row.prise7d) &&
              ChosenByPresence(SafeTsOf(item), PriseLast30d, Last30d, row.prise30d) &&
              ChosenByPresence(SafeTsOf(item), PriseLast90d, Last90d, row.prise90d)) &&
            (ChosenByPresence(SoldOf(item), SoldLast24h, Last24h, row.sold24h) &&
              ChosenByPresence(SoldOf(item), SoldLast7d, Last7d, row.sold7d) &&
              ChosenByPresence(SoldOf(item), SoldLast30d, Last30d, row.sold30d) &&
              ChosenByPresence(SoldOf(item), SoldLast90d, Last90d, row.sold90d)) &&
            (Defaulted(SoldOf(item), AvgDailyVolume, JNum(0.0), row.soldAvg) &&
              Defaulted(PricesOf(item), Latest, JNum(0.0), row.latest) &&
              Defaulted(PricesOf(item), Min, JNum(0.0), row.min) &&
              Defaulted(PricesOf(item), Avg, JNum(0.0), row.avg) &&
              Defaulted(PricesOf(item), Max, JNum(0.0), row.max) &&
              Defaulted(PricesOf(item), Mean, JNum(0.0), row.mean) &&
              Defaulted(PricesOf(item), Median, JNum(0.0), row.median) &&
              Defaulted(PricesOf(item), Unstable, JBool(false), row.unstable) &&
              Defaulted(PricesOf(item), UnstableReason, JBool(false), row.unstableReason)) &&
            (Defaulted(item, MarketHashName, JNull, row.marketHashName) &&
              Defaulted(item, NameId, JStr(""), row.nameid) &&
              Defaulted(item, UpdatedAt, JNum(0.0), row.updatedAt) &&
              Defaulted(item, Quality, JStr("none"), row.quality) &&
              Defaulted(item, Rarity, JStr("none"), row.rarity) &&
              Defaulted(item, Hero, JStr("none"), row.hero) &&
              Defaulted(item, Image, JStr(""), row.image)) &&
            (Prices !in item ==>
              row.latest == row.min == row.avg == row.max == row.mean == row.median == JNum(0.0) &&
              row.prise24h == row.prise7d == row.prise30d == row.prise90d == JNum(0.0) &&
              row.sold24h == row.sold7d == row.sold30d == row.sold90d == row.soldAvg == JNum(0.0) &&
              row.unstable == JBool(false))
  {
  }

  /** A present prise_last_24h wins even when it is 0 or null: presence, not truthiness. */
  lemma PresenceBeatsTruthiness(appid: int, v: Json, w: Json)
    ensures var item := map[Prices := JObj(map[SafeTs := JObj(map[PriseLast24h := v, Last24h := w])])];
            NormalizeItem(appid, item).Some? && NormalizeItem(appid, item).value.prise24h == v
  {
  }

  /** An "updated_at" that format_unix cannot divide makes the item raise; a numeric one is read. */
  lemma UpdatedAtMustBeNumeric(appid: int, v: Json)
    ensures NormalizeItem(appid, map[UpdatedAt := v]).Some? <==> v.JNum? || v.JBool?
  {
  }

  // ---------------------------------------------------------------------
  // atomic_refresh_data
  // ---------------------------------------------------------------------

  /** The GAMES dictionary, in its iteration order. */
  const Games: seq<(string, int)> := [("csgo", 730), ("dota2", 570), ("rust", 252490), ("tf2", 440)]

  /** The market API's answer for one game: a failed request or response, or the "data" list. */
  datatype GameResponse = RequestFailed | Payload(items: seq<Item>)

  /** What one game leaves in the tmp table, and whether all its items got there. */
  datatype GameLoad = GameLoad(rows: seq<CatalogRow>, complete: bool)

  /** normalize_item applied to each of a game's items; None where it raises. */
  function NormalizeAll(appid: int, items: seq<Item>): (norms: seq<Option<CatalogRow>>)
    ensures |norms| == |items|
    ensures forall i :: 0 <= i < |items| ==> norms[i] == NormalizeItem(appid, items[i])
  {
    seq(|items|, i requires 0 <= i < |items| => NormalizeItem(appid, items[i]))
  }

  /**
   * psycopg2 adapts a parameter to SQL unless it is a dictionary or a list
   * holding one; then `cur.execute` raises before anything reaches the
   * server, so the transaction stays usable.
   */
  predicate Adaptable(v: Json)
    decreases v
  {
    match v
    case JObj(_) => false
    case JArr(items) => forall i :: 0 <= i < |items| ==> Adaptable(items[i])
    case _ => true
  }

  /**
   * The parameters of the row's INSERT that come from the item. updated_at
   * is not among them: format_unix has already turned it into a string.
   */
  function ItemParams(row: CatalogRow): (ps: seq<Json>)
    ensures |ps| == 23
  {
    [row.marketHashName, row.nameid, row.latest, row.min, row.avg, row.max, row.mean, row.median,
     row.prise24h, row.prise7d, row.prise30d, row.prise90d,
     row.sold24h, row.sold7d, row.sold30d, row.sold90d, row.soldAvg,
     row.unstable, row.unstableReason, row.quality, row.rarity, row.hero, row.image]
  }

  /** Every parameter of the row's INSERT can be adapted. */
  predicate RowAdaptable(row: CatalogRow) {
    forall i :: 0 <= i < |ItemParams(row)| ==> Adaptable(ItemParams(row)[i])
  }

  /** An item's INSERT goes through: normalize_item did not raise and psycopg2 can adapt the row. */
  predicate Insertable(norm: Option<CatalogRow>) {
    norm.Some? && RowAdaptable(norm.value)
  }

  /**
   * The rows of one game are inserted in order; the first item that raises,
   * in normalize_item or in the INSERT, ends the game, and the rows inserted
   * before it stay.
   */
  function InsertUntilFailure(norms: seq<Option<CatalogRow>>): (g: GameLoad)
    ensures |g.rows| <= |norms|
    ensures forall i :: 0 <= i < |g.rows| ==> norms[i] == Some(g.rows[i]) && RowAdaptable(g.rows[i])
    ensures g.complete <==> forall i :: 0 <= i < |norms| ==> Insertable(norms[i])
    ensures g.complete ==> |g.rows| == |norms|
    ensures !g.complete ==> |g.rows| < |norms| && !Insertable(norms[|g.rows|])
    decreases |norms|
  {
    if norms == [] then GameLoad([], true)
    else if !Insertable(norms[0]) then GameLoad([], false)
    else
      var rest := InsertUntilFailure(norms[1..]);
      assert forall i :: 1 <= i < |norms| ==> norms[1..][i - 1] == norms[i];
      GameLoad([norms[0].value] + rest.rows, rest.complete)
  }

  /**
   * The inserts of a game are determined by the prefix of items that
   * normalised and could be inserted: once the first k rows are in, the
   * game ends with exactly those rows if there is no further item, or if
   * the next one raised.
   */
  lemma {:induction false} InsertedPrefix(norms: seq<Option<CatalogRow>>, inserted: seq<CatalogRow>)
    requires |inserted| <= |norms|
    requires forall i :: 0 <= i < |inserted| ==> norms[i] == Some(inserted[i]) && RowAdaptable(inserted[i])
    ensures |inserted| == |norms| ==> InsertUntilFailure(norms) == GameLoad(inserted, true)
    ensures |inserted| < |norms| && !Insertable(norms[|inserted|]) ==> InsertUntilFailure(norms) == GameLoad(inserted, false)
    decreases |inserted|
  {
    if inserted != [] {
      InsertedPrefix(norms[1..], inserted[1..]);
      assert [inserted[0]] + inserted[1..] == inserted;
    }
  }

  /**
   * An item whose "prices" holds an object under "latest" is well shaped,
   * but psycopg2 cannot adapt that object: the game ends at it, and a game
   * of this one item inserts nothing and adds nothing to total_count.
   */
  lemma DictColumnEndsGame()
    ensures var item: Item := map[Prices := JObj(map[Latest := JObj(map[])])];
            WellShaped(item) && LoadGame(730, [item]) == GameLoad([], false) && GameCount(730, Payload([item])) == 0
  {
    var item: Item := map[Prices := JObj(map[Latest := JObj(map[])])];
    var row := Normalized(730, item);
    assert row.latest == JObj(map[]);
    assert !Adaptable(ItemParams(row)[2]);
    assert NormalizeAll(730, [item]) == [Some(row)];
  }

  /** What one game's items leave in the tmp table. */
  function LoadGame(appid: int, items: seq<Item>): GameLoad {
    InsertUntilFailure(NormalizeAll(appid, items))
  }

  function GameRows(appid: int, resp: GameResponse): seq<CatalogRow> {
    match resp
    case RequestFailed => []
    case Payload(items) => LoadGame(appid, items).rows
  }

  /** `len(items)` when the game completed, else nothing is added to total_count. */
  function GameCount(appid: int, resp: GameResponse): nat {
    match resp
    case RequestFailed => 0
    case Payload(items) => if LoadGame(appid, items).complete then |items| else 0
  }

  /** Each game's appid with its response. */
  function GamePairs(responses: seq<GameResponse>): (games: seq<(int, GameResponse)>)
    requires |responses| == |Games|
    ensures |games| == |Games|
    ensures forall i :: 0 <= i < |Games| ==> games[i] == (Games[i].1, responses[i])
  {
    seq(|Games|, i requires 0 <= i < |Games| => (Games[i].1, responses[i]))
  }

  /** The tmp table's contents after the games, in game order. */
  function RefreshRows(games: seq<(int, GameResponse)>): seq<CatalogRow>
    decreases |games|
  {
    if games == [] then []
    else
      var g := games[|games| - 1];
      RefreshRows(games[..|games| - 1]) + GameRows(g.0, g.1)
  }

  /** total_count after the games. */
  function CompletedCount(games: seq<(int, GameResponse)>): nat
    decreases |games|
  {
    if games == [] then 0
    else
      var g := games[|games| - 1];
      CompletedCount(games[..|games| - 1]) + GameCount(g.0, g.1)
  }

  lemma RefreshLast(games: seq<(int, GameResponse)>)
    requires games != []
    ensures var g := games[|games| - 1];
            RefreshRows(games) == RefreshRows(games[..|games| - 1]) + GameRows(g.0, g.1)
  {
  }

  lemma {:induction false} RefreshAppend(a: seq<(int, GameResponse)>, b: seq<(int, GameResponse)>)
    ensures RefreshRows(a + b) == RefreshRows(a) + RefreshRows(b)
    decreases |b|
  {
    if b == [] {
      assert a + b == a;
    } else {
      var ab, front, last := a + b, b[..|b| - 1], b[|b| - 1];
      var rows := GameRows(last.0, last.1);
      assert RefreshRows(ab) == RefreshRows(a + front) + rows by {
        assert ab[..|ab| - 1] == a + front;
        assert ab[|ab| - 1] == last;
        RefreshLast(ab);
      }
      assert RefreshRows(a + front) == RefreshRows(a) + RefreshRows(front) by {
        RefreshAppend(a, front);
      }
      assert RefreshRows(b) == RefreshRows(front) + rows by {
        RefreshLast(b);
      }
      Text.Associative(RefreshRows(a), RefreshRows(front), rows);
    }
  }

  lemma {:induction false} CountAppend(a: seq<(int, GameResponse)>, b: seq<(int, GameResponse)>)
    ensures CompletedCount(a + b) == CompletedCount(a) + CompletedCount(b)
    decreases |b|
  {
    if b == [] {
      assert a + b == a;
    } else {
      var ab := a + b;
      assert ab[..|ab| - 1] == a + b[..|b| - 1];
      assert ab[|ab| - 1] == b[|b| - 1];
      CountAppend(a, b[..|b| - 1]);
    }
  }

  /** One more game appends its rows and adds its count. */
  lemma RefreshStep(games: seq<(int, GameResponse)>, g: int)
    requires 0 <= g < |games|
    ensures RefreshRows(games[..g + 1]) == RefreshRows(games[..g]) + GameRows(games[g].0, games[g].1)
    ensures CompletedCount(games[..g + 1]) == CompletedCount(games[..g]) + GameCount(games[g].0, games[g].1)
  {
    assert games[..g + 1][..g] == games[..g];
    assert games[..g + 1][g] == games[g];
  }

  /**
   * A game whose request fails is skipped: the games before and after it
   * contribute their rows and counts exactly as if it were not there.
   */
  lemma FailedGameSkipped(before: seq<(int, GameResponse)>, appid: int, after: seq<(int, GameResponse)>)
    ensures RefreshRows(before + [(appid, RequestFailed)] + after) == RefreshRows(before) + RefreshRows(after)
    ensures CompletedCount(before + [(appid, RequestFailed)] + after) == CompletedCount(before) + CompletedCount(after)
  {
    var skipped := [(appid, RequestFailed)];
    assert skipped[..0] == [];
    assert RefreshRows(skipped) == [];
    assert CompletedCount(skipped) == 0;
    RefreshAppend(before + skipped, after);
    RefreshAppend(before, skipped);
    CountAppend(before + skipped, after);
    CountAppend(before, skipped);
    assert RefreshRows(before + skipped) == RefreshRows(before);
  }

  /**
   * total_count never exceeds the number of rows committed: a game that
   * raises part-way counts nothing yet leaves its earlier rows in the table.
   */
  lemma {:induction false} CountAtMostRows(games: seq<(int, GameResponse)>)
    ensures CompletedCount(games) <= |RefreshRows(games)|
    decreases |games|
  {
    if games != [] {
      CountAtMostRows(games[..|games| - 1]);
    }
  }

  /** The three catalog tables; None means the table does not exist. */
  class CatalogTables {
    var tmpTable: Option<seq<CatalogRow>>
    var liveTable: Option<seq<CatalogRow>>
    var oldTable: Option<seq<CatalogRow>>

    constructor (live: Option<seq<CatalogRow>>, previous: Option<seq<CatalogRow>>)
      ensures tmpTable.None? && liveTable == live && oldTable == previous
    {
      tmpTable, liveTable, oldTable := None, live, previous;
    }

    /** The inner loop over one game's items: normalise, insert, stop at the first that raises. */
    method InsertGameItems(appid: int, items: seq<Item>) returns (complete: bool)
      requires tmpTable.Some?
      modifies this
      ensures tmpTable == Some(old(tmpTable).value + LoadGame(appid, items).rows)
      ensures complete == LoadGame(appid, items).complete
      ensures liveTable == old(liveTable) && oldTable == old(oldTable)
    {
      ghost var norms := NormalizeAll(appid, items);
      ghost var inserted: seq<CatalogRow> := [];
      assert old(tmpTable).value + inserted == old(tmpTable).value;
      var k := 0;
      while k < |items|
        invariant 0 <= k <= |items|
        invariant |inserted| == k
        invariant forall i :: 0 <= i < k ==> norms[i] == Some(inserted[i]) && RowAdaptable(inserted[i])
        invariant tmpTable == Some(old(tmpTable).value + inserted)
        invariant liveTable == old(liveTable) && oldTable == old(oldTable)
      {
        var norm := NormalizeItem(appid, items[k]);
        if norm.None? || !RowAdaptable(norm.value) {
          InsertedPrefix(norms, inserted);
          return false;
        }
        Text.Associative(old(tmpTable).value, inserted, [norm.value]);
        tmpTable := Some(tmpTable.value + [norm.value]);
        inserted := inserted + [norm.value];
        k := k + 1;
      }
      InsertedPrefix(norms, inserted);
      return true;
    }

    /** One game of the outer loop: a failed request is skipped, otherwise its items are inserted. */
    method LoadOneGame(appid: int, resp: GameResponse) returns (count: nat)
      requires tmpTable.Some?
      modifies this
      ensures tmpTable == Some(old(tmpTable).value + GameRows(appid, resp))
      ensures count == GameCount(appid, resp)
      ensures liveTable == old(liveTable) && oldTable == old(oldTable)
    {
      count := 0;
      match resp {
        case RequestFailed =>
          assert old(tmpTable).value + [] == old(tmpTable).value;
        case Payload(items) =>
          var complete := InsertGameItems(appid, items);
          if complete {
            count := |items|;
          }
      }
    }

    /** The outer loop over the games: tmp receives each game's rows in turn, and the completed games are counted. */
    method LoadGames(games: seq<(int, GameResponse)>) returns (totalCount: nat)
      requires tmpTable == Some([])
      modifies this
      ensures tmpTable == Some(RefreshRows(games))
      ensures totalCount == CompletedCount(games)
      ensures liveTable == old(liveTable) && oldTable == old(oldTable)
    {
      totalCount := 0;
      for g := 0 to |games|
        invariant tmpTable == Some(RefreshRows(games[..g]))
        invariant totalCount == CompletedCount(games[..g])
        invariant liveTable == old(liveTable) && oldTable == old(oldTable)
      {
        RefreshStep(games, g);
        var count := LoadOneGame(games[g].0, games[g].1);
        totalCount := totalCount + count;
      }
      assert games[..|games|] == games;
    }

    /**
     * atomic_refresh_data. The whole run is one transaction: when a database
     * statement fails nothing is committed. Otherwise the tmp table becomes
     * the live table, the previous live table (if any) becomes the old one
     * and replaces any earlier old table, even when every game failed.
     */
    method AtomicRefreshData(responses: seq<GameResponse>, dbFails: bool) returns (totalCount: nat)
      requires |responses| == |Games|
      modifies this
      ensures totalCount == CompletedCount(GamePairs(responses))
      ensures dbFails ==> tmpTable == old(tmpTable) && liveTable == old(liveTable) && oldTable == old(oldTable)
      ensures !dbFails ==>
                tmpTable.None? &&
                liveTable == Some(RefreshRows(GamePairs(responses))) &&
                oldTable == (if old(liveTable).Some? then old(liveTable) else old(oldTable))
    {
      var savedTmp, savedLive, savedOld := tmpTable, liveTable, oldTable;
      tmpTable := Some([]);
      totalCount := LoadGames(GamePairs(responses));
      var liveExists := liveTable.Some?;
      if dbFails {
        tmpTable, liveTable, oldTable := savedTmp, savedLive, savedOld;
        return;
      }
      if liveExists {
        oldTable := None;
        oldTable := liveTable;
        liveTable := None;
      }
      liveTable := tmpTable;
      tmpTable := None;
    }
  }
}
