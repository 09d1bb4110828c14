# Steam inventory and pricing pipeline: a Dafny model

This project models the sequential core of a Steam inventory service.
Around that core sit HTTP clients, two PostgreSQL drivers and a FastAPI
application. The model covers five pieces:

- **Inventory fetcher** (`inventory.py`, module `Inventory`). It pages
  through the external inventory API with a `start_assetid` cursor,
  concatenates the assets and merges the item descriptions (last write
  wins per `(classid, instanceid)`). It flattens every described asset into
  a row with `;`-joined tag lists, then replaces the stored rows of
  `(steamid, appid)` with a DELETE followed by a bulk INSERT. The API is a
  script of page responses. The `user_inventory` table is a class
  `InventoryStore` whose `table` field the methods update. Database
  failures are a parameter saying where the write fails.
- **Pricing composer** (`routers/inventory_json.py`, module
  `InventoryJson`). It groups a user's rows by the SQL `GROUP BY` key,
  with a count and the latest time per group. The query has no `ORDER BY`,
  so the database promises no order of the groups. The model lists them in
  order of first occurrence, which is its own choice. It builds the USD price map
  with the `prise_24h or prise_7d or avg or 0` chain, builds the currency
  factors anchored at USD, and emits one record per group with one rounded
  price per currency.
- **Price catalog refresh** (`item_steam_apis.py`, module `SteamApis`).
  `normalize_item` is modelled over a small JSON value type whose
  dictionary keys are an enumeration of the keys the code reads.
  `atomic_refresh_data` is a class `CatalogTables` holding the tmp, live and
  old tables. It loads each game into tmp. A failed request skips the
  game. An item that normalize_item or psycopg2's parameter adaptation
  rejects ends its game, and the game's earlier rows stay. Then it swaps
  the tables.
- **Currency-rate sync** (`curse_sync.py`, module `CurseSync`).
  `extract_median_price` is modelled character by character, as written:
  the regex filter, the one-dot-one-comma rule, `rstrip` and `float()` on
  the result. A corrected separator handling sits beside it, to contrast the
  two on the inputs under "## Findings".
  `main` is a method over a class `RateTable` whose `rows` map is keyed by
  the primary key `valute`.
- **Steam-ID resolver** (`routers/steamid_resolver.py`, module
  `SteamIdResolver`). It checks the appid whitelist, then classifies the
  user's text as a 17-digit id, a profile URL, a vanity URL or a bare
  vanity name. It applies the success check of the vanity-URL service and
  schedules the inventory load.

Shared modules:

- `Wrappers`: `Option` and `Result`.
- `Text`: digits, decimal values, character counts, associativity of concatenation.
- `Numeric`: Python's `round(x, 3)` on exact reals.
- `KeyedUpdates`: the effect of `d[k] = v` in a loop.

External services become parameters:

- the inventory API's pages;
- the market API's per-game answers;
- the priceoverview answers;
- the vanity-URL service, as a function from name to reply.

The clock is a parameter `now`.

## Model

| member | source | states |
|---|---|---|
| Inventory.KeptIndices | inventory.py:44-50 | The kept tags are exactly the tags that carry both a category and a name, in input order. |
| Inventory.TagListsAligned | inventory.py:44-50 | The category list and the name list have the same length as the kept tags. Entry j of each comes from the j-th kept tag. |
| Inventory.TagListsStep | inventory.py:46-48 | One more tag keeps both lists aligned with the kept tags: a tag with both fields appends its category and its name, and any other tag appends nothing. |
| Inventory.SplitJoin | inventory.py:50 | Splitting the `;`-joined string on `;` gives back the parts, provided there is at least one part and no part contains `;`. With no kept tags the round trip fails: `";".join([])` is "" and "" splits into one empty entry. |
| Inventory.Join | inventory.py:50 | The joined text contains `;` exactly when there are two parts or more, or some part contains `;` itself. |
| Inventory.SplitPlain | inventory.py:50 | A text without `;` splits into itself alone. |
| Inventory.SplitAfterPlain | inventory.py:50 | Splitting `a;b` with no `;` in `a` gives `a` followed by the split of `b`. |
| Inventory.ParseTags | inventory.py:44-50 | The loop returns the joined categories and the joined names of the kept tags. |
| Inventory.FlattenRow | inventory.py:99-123 | A row carries the requested steamid, the asset's appid, assetid, classid and instanceid, and the batch time. Its market_hash_name, tradable, marketable, type and icon_url are the description's. Its tag columns split back on `;` into the kept categories and names, provided at least one tag was kept and no kept value contains `;`. |
| Inventory.RequestCount | inventory.py:63-89 | The number of requests the loop makes is between 1 and one more than the scripted pages. |
| Inventory.PageStep | inventory.py:80-83 | One more received page appends its assets and adds its description writes after the earlier ones. |
| Inventory.MergeDescriptions | inventory.py:82-83 | The inner loop leaves the dictionary as if every description had been written in order, so the last one per key wins. |
| KeyedUpdates.UpsertAppend | inventory.py:82-83 | Writing the pairs of `a` and then those of `b` equals writing `a + b`. |
| KeyedUpdates.UpsertLastWins | inventory.py:82-83 | A key is present exactly when it was before or some pair writes it. It then holds the value of the last pair writing it, and a key no pair writes keeps its old value. |
| Inventory.FetchAll | inventory.py:58-89 | The cursor starts empty. A next request is made only after a page with truthy `more_items` and `last_assetid`, and its cursor is that `last_assetid`. The result is None exactly when a request failed. Otherwise it holds the concatenated assets and the last-write-wins descriptions of the fetched pages. |
| Inventory.CursorsSentFollow | inventory.py:63-89 | The cursors sent by the first n requests start with none, and each later one is the `last_assetid` of the page before it, which was received and had `more_items`. |
| Inventory.FetchStopsAt | inventory.py:72-89 | When request i fails, or its page has no `more_items` or no `last_assetid`, the loop makes exactly i + 1 requests. It succeeds exactly when that last page was received. |
| Inventory.RowsFor | inventory.py:99-123 | There is at most one row per asset. Each row carries the request steamid and the single batch time, and its `(classid, instanceid)` has a description. |
| Inventory.RowsForOrigin | inventory.py:99-123 | Every row is the flattening of one of the batch's assets with that asset's own description. |
| Inventory.RowsForAppend | inventory.py:99-123 | Rows follow asset order: the rows of `a + b` are the rows of `a` followed by those of `b`. |
| Inventory.RowsForCount | inventory.py:99-103 | There is exactly one row per described asset, and no row when no asset has a description. |
| Inventory.RowsForKeyed | inventory.py:110 | A row takes its appid from its asset. If every asset carries the requested appid, so does every row. |
| Inventory.BuildRows | inventory.py:97-123 | The row-building loop computes exactly the rows of the batch. |
| Inventory.WithoutAppend | inventory.py:146-150 | The DELETE filter distributes over concatenation. |
| Inventory.ViewAppend | inventory.py:146-150 | The rows of one key in `a + b` are those in `a` followed by those in `b`. |
| Inventory.ViewOfWithout | inventory.py:146-150 | After the DELETE for `(steamid, appid)` that key has no rows, and every other key keeps its rows. |
| Inventory.ViewOfKeyed | inventory.py:146-164 | A batch whose rows all carry one key contributes all its rows to that key and none to any other. |
| Inventory.WithoutIdempotent | inventory.py:146-150 | Deleting the same key twice equals deleting it once. |
| Inventory.WithoutEmptyIff | inventory.py:146-150 | The DELETE removes a whole batch exactly when every row of the batch carries the deleted `(steamid, appid)`. |
| Inventory.ReplacedViews | inventory.py:146-164 | After DELETE plus INSERT of a batch keyed by `(steamid, appid)`, that key holds exactly the batch, even when it is empty, and every other key is unchanged. |
| Inventory.ReplaceIdempotentIff | inventory.py:110-164 | Replacing twice with the same batch equals replacing once exactly when every row carries the deleted key. A row stored under another appid survives the next DELETE and is inserted again. |
| Inventory.SuccessIsExactSnapshot | inventory.py:125-169 | A reported success leaves exactly the fetched rows under `(steamid, appid)` and every other key's rows untouched, provided the API tagged every asset with the requested appid. |
| Inventory.StoreOutcome | inventory.py:91-172 | True is returned exactly when the fetch gave assets and no statement failed. The table afterwards is the old one, the old one after the DELETE, or the old one after DELETE plus INSERT of the fetched rows. |
| Inventory.FailureEffects | inventory.py:72-172 | A fetch that fails or gives no assets returns False and writes nothing. Any other failure leaves the table untouched, with two exceptions. An INSERT failure after the DELETE returns False and leaves that key with no rows while every other key keeps its rows. A failure while closing returns False although the new snapshot is stored. |
| Inventory.InventoryStore.constructor | inventory.py:125-145 | The store starts with the given table. |
| Inventory.InventoryStore.DeleteFor | inventory.py:146-150 | The table loses exactly the rows whose steamid and appid match, and nothing else changes. |
| Inventory.InventoryStore.InsertMany | inventory.py:151-164 | The batch is appended to the table. |
| Inventory.LoadAndStoreInventory | inventory.py:53-172 | The returned flag and the new table are those of the outcome function. A failed request or zero assets returns False with no write. An empty row batch still replaces the key. |
| Inventory.InventoryEndpoint | inventory.py:176-187 | Without a session steamid the answer is 401 and the table is unchanged. Otherwise the load runs and success or failure maps to 200 or 500. |
| InventoryJson.UserRows | routers/inventory_json.py:60 | Only the user's rows are grouped. |
| InventoryJson.CountKeySnoc | routers/inventory_json.py:58 | One more row adds one to the count of its key and nothing to the count of any other key. |
| InventoryJson.CountKeyZero | routers/inventory_json.py:58 | A key carried by no row has count 0. |
| InventoryJson.AddRowSummarises | routers/inventory_json.py:49-63 | Accounting for one more row keeps the summary invariant: one group per distinct key, with its row count and latest time. |
| InventoryJson.AddRowAt | routers/inventory_json.py:49-63 | A row bumps the one group with its key and leaves every other group as it was. |
| InventoryJson.LatestSnoc | routers/inventory_json.py:58 | MAX(updated_at) of a key after one more row is the larger of the old maximum and the row's time when the row has that key, and the old maximum otherwise. |
| InventoryJson.AddRowKeepsGroup | routers/inventory_json.py:49-63 | A group whose count and latest time are right for the earlier rows keeps its key and is still right once one more row is accounted for. |
| InventoryJson.AddRowNewGroup | routers/inventory_json.py:49-63 | A row whose key no earlier row carries opens a new last group with count 1 and its own time. |
| InventoryJson.AddRowKeys | routers/inventory_json.py:49-63 | One more row adds at most one group, at the end, and exactly when its key had none. The existing groups keep their keys. |
| InventoryJson.AddRowCovers | routers/inventory_json.py:49-63 | The group keys stay distinct, and every row, including the new one, has a group. |
| InventoryJson.GroupRowsSummarises | routers/inventory_json.py:49-63 | The grouping yields one group per distinct `(appid, market_hash_name, tradable, marketable, icon_url)`, with COUNT(*) and MAX(updated_at) of its rows. |
| InventoryJson.GroupRows | routers/inventory_json.py:49-63 | There are never more groups than rows, and there are no groups exactly when there are no rows. |
| InventoryJson.UserInventory | routers/inventory_json.py:49-63 | The user's inventory has one group per distinct `(appid, market_hash_name, tradable, marketable, icon_url)` among the user's rows, with the number of those rows and the latest of their update times. |
| InventoryJson.SumCountsBumped | routers/inventory_json.py:58 | Bumping an existing group raises the sum of counts by one. |
| InventoryJson.GroupCountsSumToRows | routers/inventory_json.py:58 | The group counts add up to the number of the user's rows. |
| InventoryJson.RepresentativePrice | routers/inventory_json.py:73-78 | The price is `prise_24h` if truthy, else `prise_7d` if truthy, else `avg` if truthy. It is 0 exactly when none of the three is truthy. |
| InventoryJson.FallbackSkipsZero | routers/inventory_json.py:73-78 | A zero 24h price with 5.5 for 7 days and 3.0 on average resolves to 5.5. |
| InventoryJson.PriceMapOf | routers/inventory_json.py:66-80 | The price map has exactly the `(appid, market_hash_name)` keys of the catalog rows. |
| InventoryJson.PriceMapLastWins | routers/inventory_json.py:66-80 | The price of a key is the representative price of the last catalog row carrying it. |
| InventoryJson.BuildPriceMap | routers/inventory_json.py:66-80 | The loop builds the price map: exactly the catalog keys are present, and a key shared by several rows holds the price of the last of them. |
| InventoryJson.CurrencyFactors | routers/inventory_json.py:83-99 | It fails exactly when USD is missing or zero, or another rate is zero. Otherwise the factors have exactly the table's currencies, with 1 for USD and roubles-per-USD over roubles-per-unit for the others. |
| InventoryJson.AnchoredFactors | routers/inventory_json.py:83-99 | The factors cover the same currencies as the rate table, USD has factor 1, and every factor times its currency's rouble rate is the rouble rate of USD. So a USD price converted into any currency is worth the same in roubles. |
| InventoryJson.EuroFactorExample | routers/inventory_json.py:98 | USD 90 and EUR 100 roubles give a EUR factor of 0.9. |
| InventoryJson.ComposeItemJson | routers/inventory_json.py:102-115 | The record copies the group's fields and count. Its prices have exactly the factor keys, each within half a thousandth of price times factor. |
| Numeric.Round3 | routers/inventory_json.py:114 | The rounded value is within 0.0005 of its input and is a whole number of thousandths. |
| InventoryJson.UnpricedItemIsFree | routers/inventory_json.py:141 | A group with no catalog price is listed at 0 in every currency. |
| InventoryJson.ComposeAll | routers/inventory_json.py:139-142 | There is one record per group, in order. Each is composed from the group's catalog price, or 0 when the catalog lacks it, and the factors. |
| InventoryJson.GenerateJsonInventory | routers/inventory_json.py:121-154 | The answer is 401 exactly when the session steamid differs from the path steamid. With a matching session, a database or file failure gives 500, and otherwise a rate table that cannot anchor the conversion gives 500. In every other case there is one record per group, in the order of the grouping, composed from its catalog price and the factors. |
| SteamApis.NormalizedFields | item_steam_apis.py:44-75 | For a well-shaped item the appid passes through. Each `prise_*` and `sold_*` field is chosen by key presence: `*_last_*`, then `last_*`, then 0. Every other field is the value under its key when present, else its default: 0 for the plain prices, the daily volume and updated_at, "" for nameid and image, "none" for quality, rarity and hero, false for unstable and unstable_reason, null for market_hash_name. |
| SteamApis.NormalizeItem | item_steam_apis.py:44-75 | normalize_item gives a row exactly for well-shaped items: `prices`, `safe_ts` and `sold` are objects or absent, and `updated_at` is a number, a boolean or absent. The row is for the requested appid. |
| SteamApis.Normalized | item_steam_apis.py:44-50 | The normalised row carries the game's appid. |
| SteamApis.UpdatedAtMustBeNumeric | item_steam_apis.py:41-70 | An item whose `updated_at` is null, a string, an array or an object raises in `format_unix`. A numeric one is read. |
| SteamApis.PresenceBeatsTruthiness | item_steam_apis.py:59 | A present `prise_last_24h` wins even when it is 0 or null. |
| SteamApis.InsertUntilFailure | item_steam_apis.py:131-146 | The rows inserted for a game are the items before the first one that raises, either in normalize_item or because psycopg2 cannot adapt a dictionary among its column values. Every inserted row is adaptable. The game completes exactly when no item raises. |
| SteamApis.DictColumnEndsGame | item_steam_apis.py:131-146 | An item whose `prices.latest` is an object is well shaped, yet its INSERT raises: a game of that one item inserts nothing and adds nothing to `total_count`. |
| SteamApis.InsertedPrefix | item_steam_apis.py:131-142 | A prefix of inserted rows, stopped by an item that raises or by the end, is what the insert function yields. |
| SteamApis.RefreshAppend | item_steam_apis.py:125-146 | The tmp rows of a sequence of games are those of its first part followed by those of the rest. |
| SteamApis.CountAppend | item_steam_apis.py:143-144 | `total_count` is additive over the sequence of games. |
| SteamApis.RefreshStep | item_steam_apis.py:125-146 | One more game appends its rows to tmp and adds its item count when it completed. |
| SteamApis.FailedGameSkipped | item_steam_apis.py:145-146 | A game whose request fails adds no rows and no count. The games after it are still loaded. |
| SteamApis.CountAtMostRows | item_steam_apis.py:143-144 | `total_count` never exceeds the number of rows in tmp. |
| SteamApis.CatalogTables.constructor | item_steam_apis.py:89 | The tables start with the given live and old contents and no tmp table. |
| SteamApis.CatalogTables.InsertGameItems | item_steam_apis.py:131-142 | The inner loop appends the game's inserted rows to tmp, stopping at the first item that normalize_item or psycopg2's adaptation rejects, and reports whether every item was inserted. The live and old tables are untouched. |
| SteamApis.CatalogTables.LoadOneGame | item_steam_apis.py:126-146 | One game of the outer loop appends exactly that game's inserted rows to tmp, adds `len(items)` only when every item was inserted, and adds nothing for a failed request. The live and old tables are untouched. |
| SteamApis.CatalogTables.LoadGames | item_steam_apis.py:123-146 | The loop over the games leaves tmp holding every game's inserted rows in game order, and `total_count` equal to the items of the completed games. The live and old tables are untouched. |
| SteamApis.CatalogTables.AtomicRefreshData | item_steam_apis.py:77-175 | `total_count` sums the items of completed games. A database failure commits nothing. Otherwise tmp becomes live, even when every game failed. The previous live table, if any, becomes old, and otherwise the old table stays. |
| CurseSync.KeepNumeric | curse_sync.py:82 | The cleaned text holds only digits, commas and dots. |
| CurseSync.KeepNumericAppend | curse_sync.py:82 | The filter keeps characters in order: it distributes over concatenation. |
| CurseSync.KeepNumericKeeps | curse_sync.py:82 | A text of digits and separators is kept whole. |
| CurseSync.Delete | curse_sync.py:87 | `replace(c, "")` leaves no `c`. |
| CurseSync.DeleteAppend | curse_sync.py:87 | `replace(c, "")` distributes over concatenation. |
| CurseSync.DeleteAbsent | curse_sync.py:87 | `replace(c, "")` changes nothing when `c` is absent. |
| CurseSync.DeleteOne | curse_sync.py:87 | Deleting the only `c` of a prefix joins its neighbours. |
| CurseSync.ReplaceAppend | curse_sync.py:88-92 | `replace(c, d)` distributes over concatenation. |
| CurseSync.ReplaceAbsent | curse_sync.py:88-92 | `replace(c, d)` changes nothing when `c` is absent. |
| CurseSync.ReplaceOne | curse_sync.py:88-92 | Replacing the only `c` of a text puts `d` in its place and keeps the rest. |
| CurseSync.Replace | curse_sync.py:88-92 | Every `c` becomes `d` and every other character stays, position by position. |
| CurseSync.RStrip | curse_sync.py:94 | The result is a prefix that does not end in `c`, and only `c`s were removed. |
| CurseSync.RStripKeepsAbsent | curse_sync.py:94 | `rstrip` adds no character: one absent before is absent after. |
| CurseSync.DigitsEndKept | curse_sync.py:94 | A text ending in digits loses nothing to `rstrip(".")`. |
| CurseSync.FirstIndex | curse_sync.py:86-92 | The position of the first occurrence of a separator. |
| CurseSync.FirstIndexAt | curse_sync.py:86-92 | The first occurrence of `c` is at i when `c` sits at i and not before it. |
| CurseSync.DigitsHaveNoSeparators | curse_sync.py:86 | A text of digits contains no dot and no comma, and counts none. |
| CurseSync.ParseDecimal | curse_sync.py:96-99 | float() accepts only non-empty texts of digits with at most one dot, and the value is non-negative. |
| CurseSync.PointedShape | curse_sync.py:96-99 | Digits, one dot and digits form a text of digits and dots with exactly one dot. |
| CurseSync.DecimalValue | curse_sync.py:96-99 | The value of `whole.frac` is at least that of its whole part, so it is never negative. |
| CurseSync.ParsePointed | curse_sync.py:96-99 | float() of `whole.frac` is its decimal value. |
| CurseSync.ParseRejectsNoDigits | curse_sync.py:96-99 | float() refuses the empty text and a lone dot. |
| CurseSync.OneComma | curse_sync.py:92-94 | With one decimal comma and no dot, the comma becomes the decimal point. |
| CurseSync.DecimalCommaPrice | curse_sync.py:86-94 | "12,34" reads as 12.34 in both the code as written and the corrected handling. |
| CurseSync.RoublePrice | curse_sync.py:86-94 | "12,34." (from "12,34 pуб.") reads as 12.34 in both versions. The code as written gets there through its one-dot-one-comma rule. |
| CurseSync.TrailingDot | curse_sync.py:94 | A single trailing dot after a dot-free text is stripped or deleted alike. |
| CurseSync.TwoSeparators | curse_sync.py:86-88 | In digits-separator-digits-other-separator-digits, each separator occurs once at its place, and deleting either one joins its neighbours. |
| CurseSync.DeleteFirst | curse_sync.py:87 | Deleting the first separator of such a text joins its neighbours. |
| CurseSync.DeleteSecond | curse_sync.py:87 | Deleting the second separator of such a text joins its neighbours. |
| CurseSync.SeparatorCount | curse_sync.py:86 | Each separator of such a text is counted once. |
| CurseSync.ThousandsDotPrice | curse_sync.py:86-88 | "1.234,56" reads as 1234.56 in both versions. |
| CurseSync.ThousandsCommaPrice | curse_sync.py:86-88 | For "1,234.56" the corrected handling gives "1234.56", while the code as written gives "1.23456". |
| CurseSync.ThousandsRoublePrice | curse_sync.py:86-94 | For "1.234,56." (from "1.234,56 pуб.") the corrected handling gives "1234.56", while float() refuses what the code as written leaves. |
| CurseSync.RoubleThousandsCorrected | curse_sync.py:94 | Stripping the trailing dot first leaves the thousands-dot form, which the corrected handling reads. |
| CurseSync.RoubleThousandsAsWritten | curse_sync.py:86-94 | The code as written turns "a.b,c." into "a.b.c". |
| CurseSync.RoubleCommaSwapped | curse_sync.py:92 | In "a.b,c." the comma becomes a dot, giving a text with three dots. |
| CurseSync.DottedTwice | curse_sync.py:96-99 | float() refuses a text with two dots. |
| CurseSync.NoCommaAfterReplace | curse_sync.py:92 | Replacing every comma by a dot leaves no comma. |
| CurseSync.Separators | curse_sync.py:86-94 | The corrected separator handling leaves no comma. |
| CurseSync.SeparatorsAsWritten | curse_sync.py:86-94 | The separator handling as written leaves no comma, and its result never ends with a dot. |
| CurseSync.ExtractMedianPrice | curse_sync.py:75-99 | With the separator handling as written: an unsuccessful answer is refused, a missing median price reads as "" and is refused, and any price read is non-negative. |
| CurseSync.ExtractMedianPriceCorrected | curse_sync.py:75-99 | The same reading with the corrected separator handling: the same refusals, and any price read is non-negative. |
| CurseSync.DollarThousandsCounterexample | curse_sync.py:86-92 | "$1,234.56" reads as 1.23456 in the code as written and as 1234.56 in the corrected handling. |
| CurseSync.DollarSeparators | curse_sync.py:86-92 | The corrected handling turns "1,234.56" into "1234.56", and the code as written turns it into "1.23456". |
| CurseSync.DollarValues | curse_sync.py:96-99 | float() reads "1234.56" as 1234.56 and "1.23456" as 1.23456. |
| CurseSync.RoubleThousandsCounterexample | curse_sync.py:86-94 | "1.234,56 pуб." is refused by the code as written and reads as 1234.56 in the corrected handling. |
| CurseSync.QuotePrice | curse_sync.py:63-73 | A failed request is an error, and a price read is non-negative. |
| CurseSync.RateFrom | curse_sync.py:119-125 | A rate exists exactly when the currency's price was read and is non-zero. It is then within half a thousandth of roubles over that price. |
| CurseSync.RateTable.constructor | curse_sync.py:42-49 | The table starts with the given rows. |
| CurseSync.RateTable.CreateTable | curse_sync.py:42-51 | The table is emptied. |
| CurseSync.RateTable.SaveRate | curse_sync.py:53-61 | The row of `valute` is inserted or overwritten, and no other row changes. |
| CurseSync.CurrencyNames | curse_sync.py:22-29 | The currency names are distinct, and RUB is the one at position 5. |
| CurseSync.SavedRatesKeys | curse_sync.py:116-118 | The loop never writes a RUB row, and every row belongs to a currency already visited. |
| CurseSync.SavedRatesRows | curse_sync.py:116-125 | For any rates the currencies yield, each visited currency other than RUB has a row exactly when it yields a rate. The row holds that rate and the run's timestamp, and a failing currency does not stop the others. |
| CurseSync.SavedRatesOther | curse_sync.py:116-125 | Visiting one more currency changes no row of any other currency. |
| CurseSync.SavedRatesLatest | curse_sync.py:119-125 | The currency just visited, when it is not RUB, has a row exactly when its rate could be computed, holding that rate and the run's time. |
| CurseSync.SavedRatesEarlier | curse_sync.py:116-125 | A non-RUB currency visited earlier keeps the row its own rate gave it, whatever the later currencies do. |
| CurseSync.SyncRates | curse_sync.py:103-132 | The table after main is the outcome function of the old table, the quotes and the timestamp. |
| CurseSync.SyncOutcome | curse_sync.py:103-132 | The table after main is either the table as it was or one that holds rows only for listed currencies other than RUB. |
| CurseSync.SyncCurrency | curse_sync.py:119-127 | One pass of the loop body leaves the table as the outcome function after one more currency. |
| CurseSync.SyncCurrencies | curse_sync.py:116-127 | The loop over the currencies turns the emptied table into the outcome function of the quotes and the timestamp. |
| CurseSync.SyncedRates | curse_sync.py:103-132 | After a committed run, RUB has no row. A currency has a row exactly when its rate was computed, stamped with the run's time and within half a thousandth of RUB over its price. Every row is a non-RUB currency of the table. |
| CurseSync.RoubleThousandsRunKeepsTable | curse_sync.py:86-131 | A RUB quote of "1.234,56 pуб." cannot be read, so the run commits nothing and the table stays as it was. |
| CurseSync.DollarThousandsRate | curse_sync.py:86-123 | A USD quote of "$1,234.56" gives the rate of a price of 1.23456, not 1234.56. |
| CurseSync.FailedRunKeepsTable | curse_sync.py:109-132 | When the rouble price cannot be read or the database fails, nothing is committed and the table is as before. |
| SteamIdResolver.AfterScheme | routers/steamid_resolver.py:20-21 | The optional scheme is consumed, leaving a suffix of the text. |
| SteamIdResolver.DigitRun | routers/steamid_resolver.py:21 | `\d+` takes the longest run of digits. |
| SteamIdResolver.NameRun | routers/steamid_resolver.py:20 | `[^/]+` takes the longest run of characters other than `/`. |
| SteamIdResolver.MatchProfile | routers/steamid_resolver.py:21-39 | A profile match yields a non-empty run of digits. |
| SteamIdResolver.MatchVanity | routers/steamid_resolver.py:20-41 | A vanity match yields a non-empty name without `/`. |
| SteamIdResolver.Classify | routers/steamid_resolver.py:36-44 | The text is an id exactly when it is 17 digits, before any URL pattern. Otherwise it is a profile URL when that pattern matches, then a vanity URL, and otherwise the whole text is a vanity name. |
| SteamIdResolver.AfterSchemeOf | routers/steamid_resolver.py:20-21 | With no scheme, `https://` or `http://` before a path, the scheme is removed. |
| SteamIdResolver.NoSchemeBefore | routers/steamid_resolver.py:20-21 | A text starting with the path's `s` has no scheme to remove. |
| SteamIdResolver.HttpsSchemeBefore | routers/steamid_resolver.py:20-21 | `https://` before a text is removed. |
| SteamIdResolver.HttpSchemeBefore | routers/steamid_resolver.py:20-21 | `http://` before a path starting with `s` is removed. |
| SteamIdResolver.ProfileTail | routers/steamid_resolver.py:21 | The profiles path before a text is recognised and leaves exactly that text. |
| SteamIdResolver.DigitRunOf | routers/steamid_resolver.py:21 | Digits followed by a non-digit give a run of exactly those digits. |
| SteamIdResolver.NameRunOf | routers/steamid_resolver.py:20 | A name followed by `/` or the end gives a run of exactly that name. |
| SteamIdResolver.IdPathIsNotProfilesPath | routers/steamid_resolver.py:20-21 | A vanity path is never a profiles path. |
| SteamIdResolver.MatchVanityOf | routers/steamid_resolver.py:20-41 | After the id path, the name run is the whole name. |
| SteamIdResolver.ProfileUrlYieldsDigits | routers/steamid_resolver.py:21-39 | An optional scheme, the profiles path, digits and anything not starting with a digit yields exactly those digits. |
| SteamIdResolver.VanityUrlYieldsName | routers/steamid_resolver.py:20-42 | An optional scheme, the id path and a name up to `/` or the end yields exactly that name. |
| SteamIdResolver.SeventeenDigitsAreAnId | routers/steamid_resolver.py:22-37 | A text of 17 digits is used unchanged as the steamid. |
| SteamIdResolver.NotJustId | routers/steamid_resolver.py:22-36 | A non-digit among the first 17 characters means the text is not an id. |
| SteamIdResolver.ResolveVanity | routers/steamid_resolver.py:51-59 | The steamid is returned exactly when success is 1 and a steamid is present. Any other success value is 404. |
| SteamIdResolver.ResolveAndTrigger | routers/steamid_resolver.py:25-48 | It answers 400 exactly for an appid outside the whitelist, before the text is read. A scheduled load is for the requested appid. |
| SteamIdResolver.IdsNeedNoLookup | routers/steamid_resolver.py:36-48 | For an id or a profile URL the answer does not depend on the vanity service, and one load is scheduled for the parsed steamid. |
| SteamIdResolver.NamesAreResolved | routers/steamid_resolver.py:40-59 | For a vanity URL or a bare name, a load is scheduled exactly when the service answers success 1 with a steamid, and for that steamid. Any other success value gives 404. |
| SteamIdResolver.TriggerInventoryLoad | routers/steamid_resolver.py:62-67 | For a supported appid, which is all the resolver schedules, the background GET carries no session cookie. So the inventory endpoint answers 401 and the stored inventory is unchanged. |
| Text.CountAppend | curse_sync.py:86 | `str.count` is additive over concatenation. |
| Text.CountZero | curse_sync.py:86 | A character has count 0 exactly when it is absent. |

## Left out

- HTTP, database connections, `CREATE TABLE`, logging, configuration files and the JSON file written by the export. These are I/O: the data they deliver are parameters. Their failures are explicit cases: a flag for the inventory write, the catalog refresh, the rate sync and the export (`ioFails`, which stands for any failing query or file write and gives 500). The export does not say which statement failed.
- Timestamps: `datetime.utcnow()`, the MSK +3h shifts, `strftime` and the date that `format_unix` formats are not modelled; only its refusal of a non-numeric value is. A timestamp is an opaque integer or string supplied by the caller.
- Floating point: prices and rates are exact reals. `round(x, 3)` is rounding half to even on exact values, so binary representation error is not captured.
- `\d` in the resolver patterns and in the cleaning regex matches ASCII digits only. Python also matches other Unicode decimal digits.
- Concurrency: background tasks, two fetches racing on the same key, and interleaving with readers are not modelled. Each operation runs alone.
- Inventory.InventoryEndpoint: the session is only checked for a steamid, as the code does. Which user's inventory may be loaded is not restricted.
- SteamApis.NormalizeItem: an item whose `prices`, `safe_ts` or `sold` value is neither an object nor absent makes `.get` raise, and so does an `updated_at` that is not a number. The model collapses every such item into None, without distinguishing the exception.
- SteamApis.CatalogTables.AtomicRefreshData: a database failure is one flag that commits nothing. The point at which it struck is not distinguished, since psycopg2 runs every statement of the job inside one uncommitted transaction.
- SteamApis.InsertUntilFailure: only the client-side refusal of a dictionary column is modelled as a failing item. A value the server rejects for its column type, such as text or a list in a NUMERIC column, aborts the transaction. Every later statement then fails and nothing is committed. The model leaves that case to the `dbFails` flag rather than deriving it from the items.
- CurseSync.SyncRates: a failure of an individual INSERT inside the loop is not modelled as such. Its exception is caught by the per-currency handler. Every later statement of that currency loop then fails inside the same handler, and `conn.commit()` on the aborted transaction rolls back without raising, so the success message is still logged. Nothing is saved, which is the outcome the `dbFails` flag gives.
- CurseSync.ExtractMedianPrice: a `median_price` that is present but JSON null is not modelled. It would make `re.sub` raise, so it behaves like an unparsable price.
- SteamIdResolver.ResolveVanity: a "success" value that is not an integer is not modelled. The model treats any present success value other than 1 as 404.
- routers/steamid_resolver.py and routers/inventory_json.py are not mounted by main.py. The model describes both routers as written.
- Inventory.FetchAll: the API is a finite script of pages, and running out of pages counts as a failed request. The code has no bound on its loop: an API that keeps answering `more_items` with a truthy `last_assetid` makes it request forever. That case, and the upper bound of Inventory.RequestCount, depend on the script being finite.
- Inventory.FetchAll: a page body that is not a JSON object, or an asset or description that lacks `classid`, `instanceid`, `appid` or `assetid`, raises outside the `try` (inventory.py:81-83, 100, 110-113) and ends the call with an exception rather than False. The model's pages and assets always carry these fields.
- Inventory.ParseTags: a tag whose `localized_category_name` or `localized_tag_name` is JSON null passes the presence test, so None is appended and `";".join` raises. The model has no null tag values and skips a tag that lacks either field.
- SteamApis.NormalizedFields: a numeric `updated_at` outside the platform's date range makes `datetime.fromtimestamp` raise. The model reads it like any other number.
- InventoryJson.GroupRows: the groups follow the first occurrence of their key. SQL gives no order without `ORDER BY`, so this order is the model's choice. Only the set of groups, with their counts and latest times, is what the query promises.
- `fetch_price`'s query parameters and the inventory URL format are not modelled. Only the responses matter to the core.
- `total_count` counts the items of a completed game, which equals the rows it inserted.

Behaviour of the code worth knowing:

- The DELETE and the INSERT of the inventory write are separate statements with no transaction around them, so an INSERT that fails leaves the key with no rows (Inventory.FailureEffects).
- The empty check tests the assets, not the rows: a batch whose assets all lack a description still deletes the stored rows of the key and inserts nothing.
- Replacing twice with the same batch equals replacing once only when every asset carries the requested appid (Inventory.ReplaceIdempotentIff).
- When several catalog rows share `(appid, market_hash_name)`, the price map holds the price of the last of them (InventoryJson.BuildPriceMap).
- The JSON export is served at `/getjsoninv/{steamid}` and holds one record per group, with no totals.
- A missing or zero USD rate fails the export with a RuntimeError, and any other zero rate fails it with a division by zero.

## Findings

| source | as written | input that shows it | evidently intended | confidence | as-written member | corrected member |
|---|---|---|---|---|---|---|
| curse_sync.py:86-92 | With exactly one `.` and one `,`, the `.` is always taken as the thousands separator and deleted. | the USD price "$1,234.56" | The later separator is the decimal one, which gives 1234.56. The code as written gives 1.23456. | not executed. Steam writes USD prices this way, though the tracked item's USD price is usually below 1,000. | CurseSync.ExtractMedianPrice (through CurseSync.SeparatorsAsWritten), shown by CurseSync.DollarThousandsCounterexample and CurseSync.DollarThousandsRate | CurseSync.ExtractMedianPriceCorrected (through CurseSync.Separators), proved by CurseSync.ThousandsCommaPrice |
| curse_sync.py:86-94 | The trailing `.` of "pуб." is stripped only after the separators are counted, so a rouble price with a thousands dot has two dots. | the RUB price "1.234,56 pуб." | Strip first, then read 1234.56. As written float() raises, and the whole run ends without saving any rate. | not executed. Depends on Steam using a dot as the rouble thousands separator. | CurseSync.ExtractMedianPrice (through CurseSync.SeparatorsAsWritten), shown by CurseSync.RoubleThousandsCounterexample and CurseSync.RoubleThousandsRunKeepsTable | CurseSync.ExtractMedianPriceCorrected (through CurseSync.Separators), proved by CurseSync.ThousandsRoublePrice |
