# POS system: product cache, sales, attendance and the EFTPOS exchange

This project is a Dafny model of the core of a point-of-sale desktop system.
The model has two parts.

The first part is the data-access layer, `ProductModel` in `model.py`. It covers:

- the read-through product cache, a JSON file of product snapshots. It is read
  leniently, written on a best-effort basis, and merged by barcode;
- lookup by barcode and substring search, cache first and then the database;
- priming and refreshing the cache from the products table;
- the sale transaction, which inserts one sale row per item and decrements the
  stock with a floor at zero;
- the staff attendance transitions (clock in, clock out, today's row).

The second part is a few rules of the register window, `POSWindow` in `uipos.py`:

- the framing of a sale request to the Linkly EFTPOS terminal as one line of
  compact JSON;
- reading the terminal's reply from the socket, and classifying that reply;
- the card-payment flow that ties these together;
- the item and constant part of the sale payload;
- the on-screen keypad buffer;
- the stock check made before a quantity is accepted.

Modules:

- `Outcomes`: `Option`, and `DbResult`. Its `DatabaseError` is the module's own
  exception: a failure to get a pooled connection, or a failed write
  transaction. Its `DriverError` is a `mysql.connector.Error` that a failing
  read query lets through unwrapped.
- `Products`: the product row.
  - A text column is `Absent | Null | Str`. A numeric column also tells
    `Decimal` (what the MySQL driver returns) from `Int` and `Float`.
  - `KeyOf` is `str(product.get("barcode"))`, so a missing or null barcode is
    the key `"None"`.
  - `Normalize` is `_normalize_product`.
- `Strip`: `str.strip()` and `bytes.strip()` over any notion of whitespace.
- `ProductCache`:
  - the cache file (`Missing | Unreadable | NotAList | Entries`), `Load` and `Save`;
  - the insertion-ordered dictionary the merge builds, as a sequence of values
    with unique keys;
  - `MergeEntries`, `FindByBarcode` and `SearchResult`, with their lemmas.
- `Sales`: the effect of `record_sale` on the products and sales tables, as
  functions of the old tables.
- `Attendance`: attendance rows, today's latest row, clock-in and clock-out,
  and the clock button's toggle.
- `Store`: `class ProductModel`, whose fields are the cache file, the products,
  sales and attendance tables, the attendance auto-increment value, and a ghost
  count of product queries. Every method is proved against the functions above.
- `Json`: JSON values, and the compact ASCII text `json.dumps` writes for them.
- `Linkly`: framing, the socket reader (a `method` with its loop), reply
  classification, the sale payload and the card-payment flow.
- `Register`: `class Keypad`, and the stock check.

Anything outside the program is an input of the model:

- each database answer, and whether the database fails;
- which statement of a sale transaction fails;
- the outcome of a cache-file write;
- the sale ids;
- today's date and the current time;
- the events the socket delivers;
- the JSON parser (`parse`), standing for `json.loads`;
- the float formatter (`floatRepr`), standing for `float.__repr__`.

## Model

| member | source | states |
|---|---|---|
| Products.StrGet | model.py:238 | `str(value)`: a string is itself; a missing or null value reads as "None" |
| Products.StrGetOr | model.py:248-249 | `str(row.get(key, ""))`: a missing key reads as "", a null value as "None" |
| Products.ToFloat | model.py:408-411 | a present, non-null number becomes a float of the same value; anything else is left alone |
| Products.Normalize | model.py:402-413 | the copy keeps every column; stock, cost price, sell price and tax rate become floats of the same value when they are present and not null, and are unchanged otherwise |
| Products.NormalizeIdempotent | model.py:402-413 | normalising a normalised row changes nothing |
| Products.SearchColumns | model.py:175-181 | a search row keeps id, sku, name, stock, category, sell price, barcode and deduct unit, and lacks cost price, description, tax flag, tax rate and status |
| Products.Lower | model.py:245-249 | lower-casing keeps the length and maps each character |
| Products.Upper | uipos.py:835 | upper-casing keeps the length and maps each character |
| Strip.StripStart | model.py:170 | counts the leading whitespace; the first remaining element is not whitespace |
| Strip.StripEnd | model.py:170 | the trailing part cut is all whitespace; the last kept element is not |
| Strip.Strip | model.py:170 | the result is the contiguous slice left after cutting whitespace from both ends: everything cut is whitespace, the result has none at either end, and every non-whitespace element stays |
| Strip.StripIdempotent | model.py:170 | stripping a query twice is stripping it once |
| Strip.StripNoop | uipos.py:826 | a sequence with no whitespace at either end is unchanged |
| Strip.StripTrailing | uipos.py:826 | stripping a body with one trailing whitespace element removes just that element |
| ProductCache.Load | model.py:214-224 | a missing, unreadable or non-list file loads as the empty list; a list loads as itself |
| ProductCache.Save | model.py:226-232 | a file that fails to open is untouched; a completed write reads back as the list written; a failed write leaves a file that loads as empty; a file that was a valid cache stays one |
| ProductCache.ResaveStable | model.py:214-232 | saving what was just loaded reads back the same entries, and repeating that changes nothing |
| ProductCache.IndexOfKey | model.py:395-399 | the position of a key in the dictionary, and -1 exactly when the key is absent |
| ProductCache.Lookup | model.py:395-399 | `d.get(k)`: present exactly when the key is among the keys, and then a value stored under it |
| ProductCache.Put | model.py:399 | `d[k] = p`: an existing key keeps its place and takes the new value; a new key goes last; unique keys stay unique |
| ProductCache.LastWithKey | model.py:396-399 | the last product carrying a key, and none exactly when no product carries it |
| ProductCache.NewKeysMembers | model.py:395-399 | the keys a merge appends are exactly the incoming keys not already present, each once |
| ProductCache.PutAllShape | model.py:395-399 | after assigning a list: the keys are the old ones followed by the new ones, each assigned key holds the last product assigned to it, and every other key keeps its old value |
| ProductCache.PutAllIntoEmpty | model.py:395 | a dictionary built from a list with unique keys is that list |
| ProductCache.KeptCached | model.py:395 | the cached entries the merge keeps are exactly those with a truthy barcode |
| ProductCache.KeptIncoming | model.py:396-398 | the incoming products the merge assigns are exactly those whose key is non-empty; a missing or null barcode has key "None" and is kept |
| ProductCache.LastWithKeyKept | model.py:396-399 | dropping products with an empty key does not change which product is last for any non-empty key |
| ProductCache.MergeLastWriteWins | model.py:391-400 | after a merge the keys are unique, and each incoming barcode maps to the last incoming product carrying it |
| ProductCache.MergeOrder | model.py:391-400 | cached barcodes keep their order at the front; new barcodes follow in order of first appearance |
| ProductCache.MergeOrigins | model.py:391-400 | every merged entry is an incoming product with a non-empty key, or a cached entry with a truthy barcode |
| ProductCache.NoNewKeysTwice | model.py:395-399 | assigning the same products again adds no key |
| ProductCache.NewKeysNone | model.py:396-399 | a list whose keys are all present adds no key |
| ProductCache.PutAllAbsorbs | model.py:396-399 | assigning the same products a second time changes nothing |
| ProductCache.MergedIsOwnDict | model.py:391-400 | with string barcodes, re-keying the merged list gives the same list back |
| ProductCache.MergeIdempotent | model.py:391-400 | merging the same list twice equals merging it once, when every incoming barcode is a string |
| ProductCache.KeptAll | model.py:395 | re-keying a list whose barcodes are all truthy keeps the whole list |
| ProductCache.MergeTwiceMovesUnbarcoded | model.py:391-400 | merging is not idempotent for a product without a barcode: a second merge moves it behind the other entries |
| ProductCache.FirstMerge | model.py:391-400 | the first merge of the two-product example gives the input order |
| ProductCache.SecondMerge | model.py:391-400 | the second merge of the example swaps them |
| ProductCache.SecondMergeCached | model.py:395 | re-keying drops the unbarcoded entry |
| ProductCache.SecondMergeIncoming | model.py:396-400 | the unbarcoded product is appended again behind the barcoded one |
| ProductCache.FindByBarcode | model.py:234-240 | an empty barcode finds nothing; otherwise the first entry whose key equals the barcode, and none exactly when no key equals it |
| ProductCache.FindInMergedCache | model.py:234-240 | on a merged cache, the lookup finds exactly the single entry under that key |
| ProductCache.Matching | model.py:242-254 | the matching entries, in storage order, and only those |
| ProductCache.PutAll | model.py:396-399 | definition: assigns each product in turn; its shape is stated by `PutAllShape` |
| ProductCache.CachedDict | model.py:395 | definition: the cache keyed by barcode; `MergeOrder` and `SecondMergeCached` state its keys |
| ProductCache.MergeEntries | model.py:391-400 | definition of the merged list; `MergeLastWriteWins`, `MergeOrder` and `MergeOrigins` characterise it |
| ProductCache.SearchResult | model.py:242-254 | definition of the search result; `SearchResultProperties` states its properties and `Store.ProductModel.SearchCache` is proved equal to it |
| ProductCache.Take | model.py:252-253 | a prefix of at most the limit |
| ProductCache.SearchResultProperties | model.py:242-254 | an empty query finds nothing; results are matches in storage order, a prefix of all matches; at most the limit (at most one for a limit below one); all matches when there are no more than the limit |
| ProductCache.MatchingFirst | model.py:242-254 | when the first entry matches it is the first result |
| ProductCache.MatchingPrefix | model.py:242-254 | stopping early gives a prefix of the full match list |
| Sales.EffectiveDeduct | model.py:369 | `deduct_unit or 1.0`: never zero, and the given unit when it is not zero |
| Sales.Deducted | model.py:373-377 | `GREATEST(0, stock - units)`: never negative, the exact difference unless floored at zero; a NULL stock stays NULL |
| Sales.ApplyItem | model.py:371-378 | the update changes only the stock of the row whose id the item names |
| Sales.ApplyItems | model.py:354-378 | definition: the item updates in cart order; `ApplyItemsFrame` and `SequentialEqualsTotal` state what they do |
| Sales.SaleRows | model.py:355-368 | one sale row per item, with its id, product id, payment method, amount and quantity |
| Sales.ApplyItemsFrame | model.py:354-378 | the updates keep every row in place, touch only the stock column, leave products no item names untouched, never leave a numeric stock below zero, and leave a NULL stock NULL |
| Sales.SequentialEqualsTotal | model.py:354-378 | with no negative quantities, the per-item floored decrements equal one floored decrement of the total |
| Sales.TotalUnitsNone | model.py:354-378 | items that do not name a product take nothing from it |
| Sales.ReturnAfterFloor | model.py:373-377 | with a negative quantity the floored steps differ from flooring the total |
| Attendance.LatestToday | model.py:277-288 | the staff member's row dated today with the highest id, and none exactly when there is no such row |
| Attendance.OpenRow | model.py:290-296 | the inserted row: opened now, dated today, unpaid, with the salary snapshot and the role as job |
| Attendance.CloseRows | model.py:311-316 | every row with that id gets the time-out, and nothing else changes |
| Attendance.ClockInIsLatest | model.py:277-309 | after a clock-in, today's attendance for that staff member is the new row |
| Attendance.ClockInThenOut | model.py:277-329 | clocking in then out updates a row, and leaves today's row closed at the clock-out time |
| Attendance.ClockOutOverwrites | model.py:311-316 | clock-out does not check the row: a closed row gets a new time-out |
| Attendance.ClockToggle | uipos.py:937-963 | definition of the clock button: a latest row of today that reads as open (NULL or midnight time-out) is closed, otherwise a new row is opened; its properties are the lemmas below |
| Attendance.MidnightCloseReadsOpen | uipos.py:939 | a row closed at 00:00:00 still reads as open, so the next press closes it again rather than opening a new row |
| Attendance.LatestAfterClose | model.py:311-316 | closing today's latest row keeps it the latest, with the new time-out |
| Attendance.ClockTogglePreservesOneOpen | uipos.py:937-963 | the clock button keeps the rule that only today's latest row may read as open, counting a midnight time-out as open |
| Store.AllProducts | model.py:203-212 | the full scan returns every row, normalised, in scan order |
| Outcomes.Raised | model.py:84-132 | a failed connection raises the wrapped `DatabaseError`; a failed read query raises the unwrapped driver error |
| Store.SearchRows | model.py:175-186 | the search returns each database row, cut to the selected columns and normalised |
| Store.ProductModel.constructor | model.py:30-35 | a model over the given cache file and tables, with no queries sent yet |
| Store.ProductModel.SaveCache | model.py:226-232 | the cache file becomes `Save` of the list; nothing else changes |
| Store.ProductModel.SearchCache | model.py:242-254 | returns exactly `SearchResult` of the loaded cache |
| Store.SearchEntries | model.py:243-254 | the scan loop, stopping as soon as the limit is reached, returns exactly `SearchResult` |
| Store.ProductModel.MergeIntoCache | model.py:391-400 | an empty list writes nothing; otherwise the file becomes `Save` of `MergeEntries` of the loaded cache; the tables are unchanged |
| Store.MergedDict | model.py:395-399 | the two loops build exactly `MergeEntries` |
| Store.ProductModel.FetchProductByBarcode | model.py:144-163 | a cache hit is returned with no query and no write; a miss costs one query; a row found is normalised, merged into the cache and returned; no row writes nothing; a connection error (wrapped) or query error (unwrapped) is passed on and writes nothing |
| Store.ProductModel.SearchProducts | model.py:165-189 | the stripped query is tried on the cache first; cache hits cost no query; otherwise one query whose rows are normalised, merged into the cache if there are any, and returned; a connection or query error is passed on and writes nothing |
| Store.ProductModel.PrimeCache | model.py:192-201 | an existing file is returned as loaded unless a refresh is forced; otherwise the normalised table is saved and returned, or the scan's error (wrapped for a connection, unwrapped for the query) is raised and nothing is written |
| Store.ProductModel.RefreshCache | model.py:260-262 | always rescans, saves and returns the normalised table; after a completed write the cache reads back as that table |
| Store.ProductModel.RecordSale | model.py:343-386 | an empty cart returns false and changes nothing; a failing statement rolls back both tables and raises; otherwise it appends one sale row per item and applies the floored decrements in cart order |
| Store.ProductModel.GetTodayAttendance | model.py:277-288 | the latest row of today, or the wrapped connection error or the unwrapped query error |
| Store.ProductModel.ClockIn | model.py:290-309 | a new open row with the next auto-increment id, which is returned and is then today's row; on failure nothing changes |
| Store.ProductModel.ClockOut | model.py:311-329 | every row with that id is closed now, and the result says whether a row with that id matched (the matched-row reading of `rowcount > 0`); on failure nothing changes |
| Json.HexDigit | uipos.py:811 | a hexadecimal digit is printable ASCII |
| Json.Hex4 | uipos.py:811 | four printable hexadecimal digits |
| Json.NatText | uipos.py:811 | the decimal text of a natural number is non-empty and printable |
| Json.IntText | uipos.py:811 | the decimal text of an integer is non-empty and printable |
| Json.EscapeChar | uipos.py:811 | each escaped character is printable ASCII, and is the character itself exactly when it is printable ASCII other than quote and backslash |
| Json.Quote | uipos.py:811 | a string literal is printable and enclosed in double quotes |
| Json.Escaped | uipos.py:811 | escaped text is printable and no shorter than the input |
| Json.JoinPrintable | uipos.py:811 | comma-joining printable parts gives printable text |
| Json.SerializePrintable | uipos.py:811 | with `ensure_ascii` and no indentation, the JSON text is non-empty printable ASCII, so it has no line break |
| Json.Serialize | uipos.py:811 | definition of the compact JSON text; `SerializePrintable` states it is printable ASCII with no line break |
| Json.GetUnique | uipos.py:841-844 | a key no later member repeats reads back as its own value |
| Linkly.AsciiBytes | uipos.py:812 | UTF-8 of printable ASCII is one byte per character, each in 32..126 |
| Linkly.Decode | uipos.py:831 | decoding keeps ASCII bytes and maps each other byte to U+FFFD |
| Linkly.DecodeAscii | uipos.py:812 | decoding undoes the ASCII encoding |
| Linkly.Encode | uipos.py:810-812 | the request ends with its only line feed, and what comes before it decodes to the JSON text of the payload |
| Linkly.StopIndex | uipos.py:814-826 | the first event after which the reader stops; every earlier event asks for more |
| Linkly.ReadResponse | uipos.py:814-826 | the loop returns exactly `ExpectedRead`: the stripped bytes up to the stopping chunk, empty chunk or timeout, or the error of a failing `recv` |
| Linkly.ExpectedRead | uipos.py:814-826 | definition of what the reader returns; `ReadResponse` is proved equal to it and `ReadStops` and `ReadIsPrefix` state its properties |
| Linkly.ReadStops | uipos.py:814-826 | later socket data is never asked for and changes nothing; the read ends at the first stopping event; a timeout ends it normally |
| Linkly.ReceivedPrefix | uipos.py:814-826 | the bytes read so far are a prefix of all bytes sent |
| Linkly.ReadIsPrefix | uipos.py:814-826 | the unstripped reply is a prefix of everything the terminal sent |
| Linkly.AsEvents | uipos.py:816-817 | the socket delivers each chunk in turn |
| Linkly.ReceivedChunks | uipos.py:814-826 | reading the chunks gives their concatenation |
| Linkly.FlattenSplit | uipos.py:826 | the concatenation of chunks splits at any chunk boundary |
| Linkly.FlattenNonEmpty | uipos.py:826 | non-empty chunks give at least one byte |
| Linkly.ChunkPosition | uipos.py:826 | where one chunk lies in the concatenation |
| Linkly.EarlyChunkContinues | uipos.py:820-825 | a chunk before the last has no line feed, so the reader goes on |
| Linkly.LastChunk | uipos.py:824-825 | the last chunk holds the final byte |
| Linkly.EncodedMessageReadsBack | uipos.py:810-826 | framing round trip: however an encoded object request is split into chunks, the reader stops at the last one and returns exactly its JSON text |
| Linkly.ObjectMessageStrip | uipos.py:810-826 | stripping an encoded object request drops only the line feed |
| Linkly.Interpret | uipos.py:828-830 | an empty reply is a decline with "No response from Linkly." |
| Linkly.Stringify | uipos.py:845 | `str()` of a reason: None, booleans, numbers and strings as Python writes them; lists and objects abbreviated |
| Linkly.KeywordVerdict | uipos.py:835-840 | definition of the keyword scan; `KeywordPrecedence` characterises it |
| Linkly.ObjectVerdict | uipos.py:841-845 | definition of the object reading; `ObjectReasons` characterises it |
| Linkly.ContainsLonger | uipos.py:836-840 | a text that contains a keyword is no shorter than it |
| Linkly.KeywordPrecedence | uipos.py:835-840 | a non-JSON reply is approved exactly when it contains APPROVED or SUCCESS in any case, and then has no reason; otherwise it is its own reason exactly when it contains a decline keyword, and else it gets the "Unrecognized" prefix; the reason is never empty |
| Linkly.ApprovedBeatsDeclined | uipos.py:835-837 | a lower-case reply with both "declined" and "approved" is approved |
| Linkly.ObjectReasons | uipos.py:841-845 | an object reply is approved exactly when `approved` or `success` is truthy; otherwise the reason is `message`, else `responseText`, else the default decline, and it is never empty |
| Linkly.InterpretReasons | uipos.py:828-845 | every verdict is either an approval with no reason or a decline with a non-empty reason |
| Linkly.Operator | uipos.py:772 | the staff member's username, or else the name, or null without a staff member |
| Linkly.ItemJson | uipos.py:773-782 | definition of one item entry; `ItemEntry` states its keys and values |
| Linkly.SalePayload | uipos.py:766-795 | definition of the payload with its eleven keys; `PayloadItems` states its constants and items |
| Linkly.ItemEntry | uipos.py:773-782 | a cart item's entry holds exactly name, barcode, quantity, price and amount |
| Linkly.PayloadItems | uipos.py:766-795 | the payload is a SALE in MYR with the operator, and one item entry per cart item, in cart order |
| Linkly.ProcessCardPayment | uipos.py:753-764 | a connect or send error is a "Linkly connection failed" decline; a read error is too; otherwise the verdict is the classified reply; what is sent is the encoded payload; a decline always has a non-empty reason |
| Register.Toggled | uipos.py:630-635 | a leading minus is removed; any other non-empty buffer gets one; an empty buffer stays empty |
| Register.ToggleInvolution | uipos.py:630-635 | on every buffer the keypad can reach, pressing the sign button twice restores the buffer |
| Register.LoneMinusNotRestored | uipos.py:630-635 | a lone minus sign is lost by two presses |
| Register.Keypad.constructor | uipos.py:33-34 | no mode and an empty buffer |
| Register.Keypad.SetMode | uipos.py:621-624 | the chosen mode with an empty buffer |
| Register.Keypad.Append | uipos.py:626-628 | the character is appended and the buffer stays reachable |
| Register.Keypad.ToggleSign | uipos.py:630-635 | the buffer becomes `Toggled` of the old one and stays reachable |
| Register.Keypad.Clear | uipos.py:637-640 | no mode and an empty buffer |
| Register.DeductOrOne | uipos.py:891-897 | the deduct unit, with missing, null or zero read as one; never zero |
| Register.HasSufficientStock | uipos.py:889-902 | no product, or a missing or null stock, passes; otherwise the quantity is compared with stock over unit plus the tolerance, as `StockCheckUnits` restates in units |
| Register.StockCheckUnits | uipos.py:889-902 | with a positive deduct unit, the check passes exactly when quantity times unit fits in the stock plus the tolerance times the unit |
| Register.StockCheckMonotone | uipos.py:889-902 | a smaller quantity passes whenever a larger one does |
| Register.StockCheckExample | uipos.py:889-902 | with stock 5 and deduct unit 2, quantity 2 passes and 3 does not; a deduct unit of 0 counts as 1 |

## Left out

- Connection pools, TLS settings, driver checks and cursors are not modelled. Database calls become oracle inputs.
- SQL collation and the ordering of `LIKE ... ORDER BY name` results are not modelled. The search answer is an input.
- Float arithmetic is exact on `real`. This covers the payload's `round` and `amount_cents` (inputs), `1e-6` in the stock check, and the float text (a `floatRepr` parameter).
- `_generate_id` (clock plus randomness) is not modelled. The sale ids are an input.
- Staff credential checks, active-staff listing, dialogs, labels, `_pad_apply` and the rest of the Qt window are not modelled.
- Socket connect and send are a `Link` input. The events `recv` yields are an input, and past them the socket times out. The 4096-byte read size is not modelled.
- `json.loads` is a `parse` parameter. Floats have no NaN or infinity.
- `Linkly.Decode`: decodes byte by byte. A multibyte UTF-8 sequence becomes one U+FFFD per byte rather than the decoded character.
- `Products.Upper` and `Products.Lower` map only ASCII letters. Unicode case mapping is not modelled.
- `Linkly.Stringify`: a list or object reason is rendered as a placeholder, not as Python's `str` of it.
- `Store.ProductModel.ClockIn`: a failed insert does not advance the auto-increment value.
- `ProductCache.Load`: a cache list whose elements are not product objects is not modelled.
- `Products.Normalize`: the branch for an empty row is not modelled. Rows always carry their columns.
- `Register.HasSufficientStock`: a stock that `float()` rejects (it then passes) is not modelled. Numeric columns are numbers.
- `ProductCache.MergeIdempotent`: requires every incoming barcode to be a string. `ProductCache.MergeTwiceMovesUnbarcoded` shows the property fails without that.
- `Register.Keypad.Append`: requires a digit or a point, which are the characters the keypad buttons pass (uipos.py:244-253).
- `Store.ProductModel.MergeIntoCache`: its two loops live in `Store.MergedDict`, which the method calls.
- `Store.ProductModel.SearchCache`: its loop lives in `Store.SearchEntries`, which the method calls on the loaded cache.
- `Store.ProductModel.ClockOut`: the result is whether a row with that id matched. MySQL's `rowcount` counts changed rows by default, so an update that sets the same time-out again reports false; that is not modelled.
- `Store.ProductModel.GetTodayAttendance`: returns the whole row rather than the six selected columns.
