# JavaCafe inventory and order session, modelled in Dafny

This project models the core of JavaCafe, a small desktop point-of-sale application for a
coffee shop. The model covers three parts.

- The **inventory store** (`Inventory`, `Product`): products are kept in a `LinkedHashMap`
  keyed by lower-cased name. Each product has a stock that `updateStock` changes in place.
  Every accepted update rewrites the backing text `files/inventory.txt`, one `name:stock`
  line per product in insertion order. Opening the store reads that text back.
- The **order session** of the main page (`mainPageController`): a cart maps each name, as
  the button passes it, to a quantity. `handleAddItem` moves one unit from the stock into the
  cart, `handleRemoveItem` moves one back, and `resetOrder` empties the cart without returning
  any stock.
- The **receipt bookkeeping** of `saveReceiptToFile`: which cart entries get a line, what
  each line holds, and the total.

## Modules

| file | module | contents |
|---|---|---|
| `wrappers.dfy` | `Wrappers` | `Option` and `Result` |
| `java_lang.dfy` | `JavaLang` | the Java behaviour the code relies on: two's-complement `int` addition, `Math.abs`, `toLowerCase` (ASCII letters), `trim`, `split(":")` (including the dropping of trailing empty fields), `Integer.parseInt` and `Integer.toString` |
| `map_sums.dfy` | `MapSums` | sums over the keys of a map, in any order, because a `HashMap` iterates in an unspecified order |
| `inventory_model.dfy` | `InventoryModel` | the store as values: the ordered table (`Listing`), `put`, the guarded update, the line-by-line loader as a fold, and the writer, with their round trip |
| `models.dfy` | `Models` | the classes `Product` and `Inventory`, each method proved against `InventoryModel` |
| `main_page.dfy` | `MainPageController` | the order session as values (`OrderState`, `AddItem`, `RemoveItem`, `Reset`), the conservation invariant, the receipt, and the class `MainPage` whose methods are proved against those functions |

## What is proved

- **Stock updates.** `Inventory.UpdateStock` does three things:
  - it refuses an unknown name;
  - it refuses a decrement larger than the stock;
  - otherwise it moves only that product's stock, with Java `int` wrap-around, and rewrites
    the file.

  `UpdateKeepsStocksNonNegative` shows that the guard keeps stocks non-negative, except in
  two cases: an overflowing increment, and the amount `Integer.MIN_VALUE`.
  `MinIntSlipsPastGuard` shows that `Math.abs(Integer.MIN_VALUE)` is negative. So a decrement
  by that amount passes the guard and drives a stock negative.
- **Loading.** Loading stops at the first line whose stock field `Integer.parseInt` refuses.
  Blank lines, and lines that do not split into exactly two fields, are skipped with no
  effect on the rest (`LoadSkipsIgnoredLine`). What loads is a valid table: every name once,
  trimmed, lower-cased and colon-free.
- **Round trip.** Loading what `writeInventoryToFile` writes gives back the same table, in
  the same order (`LoadWriteRoundTrip`). Writing a loaded text is a fixed point after one
  pass (`WriteAfterLoadIsStable`).
- **Order session.** `Conserved` is the session invariant. For every product, its stock plus
  the units the cart holds of it (over all cart names that lower-case to it) equals its stock
  when the session started. Adding, removing and resetting keep this invariant, and so does
  any sequence of button presses (`PressesKeepConserved`). Two consequences follow:
  - no cart count overflows;
  - no stock goes negative while the cart holds some of it.

  Removing right after adding restores every count and stock (`AddThenRemove`).
- **Receipt.** Every cart entry with a positive quantity and a known product gets exactly
  one line, and those entries get nothing else. The total is the sum of the printed
  subtotals. It equals `OrderTotal`, so it does not depend on the `HashMap` iteration order.
  With non-negative prices, the total line is written exactly when some billed entry has a
  positive price (`OrderTotalPositive`).

A `Product` carries a price, but the text format holds only `name:stock`: the loader in
`Inventory.java` accepts exactly two fields. A `name:stock:price` line is skipped like any
malformed line (`PricedLineIsSkipped`).

## Model

| member | source | states |
|---|---|---|
| JavaLang.Add | javacafe/Models/Product.java:18-20 | Java `int` addition: the result is the one `int` congruent to the exact sum modulo 2^32, and is the exact sum when that fits |
| JavaLang.Neg | javacafe/Models/Inventory.java:50 | Java unary minus: `-a`, except that `Integer.MIN_VALUE` negates to itself |
| JavaLang.Abs | javacafe/Models/Inventory.java:50 | `Math.abs`: a non-negative magnitude, except that `Integer.MIN_VALUE` is returned unchanged, and so is negative |
| JavaLang.AddThenNegRestores | javacafe/Models/Product.java:18-20 | `stock += a` followed by `stock += -a` restores the stock, wrap-around included |
| JavaLang.ToLower | javacafe/Models/Inventory.java:77 | definition of `toLowerCase` on ASCII letters, character by character; `ToLowerIdempotent`, `ToLowerKeepsColons` and `ToLowerKeepsTrimmed` state its properties |
| JavaLang.ToLowerIdempotent | javacafe/Models/Inventory.java:77 | lower-casing a lower-cased name changes nothing, so the stored names are their own lookup keys |
| JavaLang.ToLowerKeepsColons | javacafe/Models/Inventory.java:75-77 | lower-casing neither adds nor removes a `':'` |
| JavaLang.Trim | javacafe/Models/Inventory.java:73 | definition of `trim`: the leading blanks and then the trailing blanks are dropped; `TrimProperties` states what remains |
| JavaLang.TrimProperties | javacafe/Models/Inventory.java:73 | `trim` gives the slice of its input between a blank-only prefix and a blank-only suffix, and that slice is trimmed; it is made of characters of the input, is empty exactly when the input is all blanks, and an already trimmed string is returned unchanged |
| JavaLang.ToLowerKeepsTrimmed | javacafe/Models/Inventory.java:77 | lower-casing a trimmed string leaves it trimmed |
| JavaLang.TrimStartSuffix | javacafe/Models/Inventory.java:73 | dropping the leading blanks leaves a suffix that is empty or starts with a non-blank; everything dropped is blank, and the suffix is empty exactly when all is blank |
| JavaLang.TrimEndPrefix | javacafe/Models/Inventory.java:73 | dropping the trailing blanks leaves a prefix that is empty or ends with a non-blank, and everything dropped is blank |
| JavaLang.Fields | javacafe/Models/Inventory.java:75 | splitting at every `':'` always gives at least one field |
| JavaLang.FieldsAreColonFree | javacafe/Models/Inventory.java:75 | no field holds a `':'` |
| JavaLang.JoinFields | javacafe/Models/Inventory.java:75 | joining the fields with `':'` gives back the string |
| JavaLang.FieldsOfColonFree | javacafe/Models/Inventory.java:75 | a colon-free string is a single field |
| JavaLang.FieldsOfPair | javacafe/Models/Inventory.java:75 | `name:value` with colon-free parts has exactly the fields `name` and `value` |
| JavaLang.FieldsAfterColonFree | javacafe/Models/Inventory.java:75 | a colon-free first field is followed by the fields of the rest |
| JavaLang.DropTrailingEmptyPrefix | javacafe/Models/Inventory.java:75 | `split` keeps a prefix of the fields and drops only empty trailing ones |
| JavaLang.Split | javacafe/Models/Inventory.java:75 | definition of `split(":")`: a colon-free string whole, otherwise its fields without the trailing empty ones; `SplitParts`, `SplitPair` and `SplitTriple` state its results |
| JavaLang.SplitParts | javacafe/Models/Inventory.java:75 | the parts of `split(":")` are colon-free; a string with no `':'` is its own single part; otherwise the parts are the string's fields with the trailing empty ones removed, so the last part kept is not empty |
| JavaLang.SplitPair | javacafe/Models/Inventory.java:75-76 | `name:value` with colon-free parts and a non-empty value splits into exactly two parts |
| JavaLang.SplitTriple | javacafe/Models/Inventory.java:75-76 | three colon-free parts, the last non-empty, split into three parts |
| JavaLang.ParseInt | javacafe/Models/Inventory.java:78 | `Integer.parseInt` accepts only an optional sign followed by at least one digit; anything else is refused |
| JavaLang.IntToString | javacafe/Models/Inventory.java:92 | definition of `Integer.toString`: a `-` for negatives, then the decimal digits; `ParseIntToString` and `IntToStringIsPlain` state its properties |
| JavaLang.NatDigitsValue | javacafe/Models/Inventory.java:92 | the decimal digits of a number are non-empty, have no leading zero, and denote that number |
| JavaLang.ParseIntToString | javacafe/Models/Inventory.java:92 | `Integer.parseInt` reads back exactly the `int` that `Integer.toString` wrote |
| JavaLang.IntToStringIsPlain | javacafe/Models/Inventory.java:92 | a written stock has no blank at either end and no `':'` |
| InventoryModel.Put | javacafe/Models/Inventory.java:79 | `LinkedHashMap.put`: the value is replaced; a new key goes to the end of the order, and an existing key keeps its position |
| InventoryModel.PutKeepsValid | javacafe/Models/Inventory.java:79 | putting a well-formed name keeps the table valid: each name once, in order exactly when stored |
| InventoryModel.Rejects | javacafe/Models/Inventory.java:50 | definition of the guard: a negative amount whose `Math.abs` exceeds the stock; `MinIntSlipsPastGuard` shows the one negative amount it lets through |
| InventoryModel.UpdateOutcomeOf | javacafe/Models/Inventory.java:41-53 | definition of which of the three paths `updateStock` takes: an unknown name, a refused decrement, or the update; `Update` and `Models.Inventory.UpdateStock` are tied to it |
| InventoryModel.Update | javacafe/Models/Inventory.java:41-57 | `updateStock` on the table: an unknown name or a refused decrement changes nothing; otherwise only that name's stock moves, by Java `int` addition, and order and keys stay |
| InventoryModel.UpdateKeepsValid | javacafe/Models/Inventory.java:41-57 | an update keeps the table valid |
| InventoryModel.UpdateKeepsStocksNonNegative | javacafe/Models/Inventory.java:49-53 | the guard keeps all stocks non-negative when the amount is not `Integer.MIN_VALUE` and an increment does not overflow |
| InventoryModel.MinIntSlipsPastGuard | javacafe/Models/Inventory.java:50 | a decrement by `Integer.MIN_VALUE` passes the guard and leaves a non-negative stock negative |
| InventoryModel.ParseLine | javacafe/Models/Inventory.java:73-79 | a line is blank exactly when its trim is empty; a skipped line does not have two fields; a record carries a well-formed name |
| InventoryModel.NameIsWellFormed | javacafe/Models/Inventory.java:77 | trimming and lower-casing a colon-free field gives a well-formed name |
| InventoryModel.PricedLineIsSkipped | javacafe/Models/Inventory.java:75-76 | a `name:stock:price` line splits into three parts and is skipped |
| InventoryModel.Step | javacafe/Models/Inventory.java:73-80 | definition of one turn of the loop: a record is `put`, an unparsable stock ends loading at that line, any other line changes nothing, and a failure stays a failure; `LoadNextLine` and `LoadKindsFailureSticks` use it |
| InventoryModel.LoadKinds | javacafe/Models/Inventory.java:72-81 | definition of the loop over classified lines as a fold of `Step`; `LoadKindsValid` and `LoadKindsOutcome` state what it gives |
| InventoryModel.LoadKindsValid | javacafe/Models/Inventory.java:72-81 | folding well-formed records gives a valid table |
| InventoryModel.LoadKindsOutcome | javacafe/Models/Inventory.java:72-81 | the fold fails exactly when some line has an unparsable stock, and the failure names the first such line |
| InventoryModel.Classify | javacafe/Models/Inventory.java:72-80 | each line is classified on its own, and every record's name is well formed |
| InventoryModel.LoadIsFold | javacafe/Models/Inventory.java:72-81 | loading the lines is folding their classifications |
| InventoryModel.Load | javacafe/Models/Inventory.java:63-83 | definition of `loadInventoryFromFile` over the lines: `Step` of each parsed line in order; `LoadIsValid`, `LoadOutcome` and `LoadWriteRoundTrip` state what it gives |
| InventoryModel.LoadIsValid | javacafe/Models/Inventory.java:63-83 | whatever loads is a valid table |
| InventoryModel.LoadOutcome | javacafe/Models/Inventory.java:63-83 | loading succeeds exactly when no line has an unparsable stock field, and otherwise reports the first such line and its field |
| InventoryModel.LoadNextLine | javacafe/Models/Inventory.java:73-79 | one more line is one more step of the loop |
| InventoryModel.LoadKindsFailureSticks | javacafe/Models/Inventory.java:78 | after a failure the later lines do not matter |
| InventoryModel.LoadStopsAtFailure | javacafe/Models/Inventory.java:78 | the exception stops the loader: a failing prefix is the failure of the whole text |
| InventoryModel.LoadFile | javacafe/Models/Inventory.java:64-68 | a missing file gives an empty inventory |
| InventoryModel.LoadKindsSkipsIgnored | javacafe/Models/Inventory.java:73-76 | a skipped kind does not change the fold of the others |
| InventoryModel.LoadSkipsIgnoredLine | javacafe/Models/Inventory.java:73-76 | a blank or wrong-field-count line can be removed without changing what loads |
| InventoryModel.ClassifyConcat | javacafe/Models/Inventory.java:72-80 | classifying is line by line, so it distributes over concatenation |
| InventoryModel.FormatLine | javacafe/Models/Inventory.java:92 | definition of a written line, `name + ":" + stock`; `ParseFormattedLine` proves the loader reads it back as the same name and stock |
| InventoryModel.Write | javacafe/Models/Inventory.java:89-96 | one `name:stock` line per product, in insertion order |
| InventoryModel.WriteIsLines | javacafe/Models/Inventory.java:91-94 | lines that format the products one by one, in order, are what is written |
| InventoryModel.ParseFormattedLine | javacafe/Models/Inventory.java:92 | the loader reads a written line back as the same name and stock |
| InventoryModel.Records | javacafe/Models/Inventory.java:91-94 | definition: one record per product, in order; `ClassifyWrite` proves it is what the written lines read back as, and `LoadRecords` that folding it rebuilds the table |
| InventoryModel.LoadKindsAppendRecord | javacafe/Models/Inventory.java:79 | one more record is one more `put` |
| InventoryModel.PrefixGrows | javacafe/Models/Inventory.java:79 | the next name of a valid table is new, so `put` appends it to the order |
| InventoryModel.LoadRecordsPrefix | javacafe/Models/Inventory.java:72-81 | folding the first `n` written records rebuilds the first `n` products |
| InventoryModel.ClassifyWrite | javacafe/Models/Inventory.java:89-96 | every written line is read back as the record it came from |
| InventoryModel.LoadRecords | javacafe/Models/Inventory.java:72-81 | folding all the records of a valid table rebuilds it |
| InventoryModel.LoadWriteRoundTrip | javacafe/Models/Inventory.java:63-96 | loading what was written gives back the same table and order |
| InventoryModel.WriteAfterLoadIsStable | javacafe/Models/Inventory.java:63-96 | writing a loaded text and loading it again gives the same result |
| Models.Product.constructor | javacafe/Models/Product.java:8-12 | sets name, initial stock and price |
| Models.Product.GetName | javacafe/Models/Product.java:14 | returns the name |
| Models.Product.GetStock | javacafe/Models/Product.java:15 | returns the stock |
| Models.Product.GetPrice | javacafe/Models/Product.java:16 | returns the price |
| Models.Product.UpdateStock | javacafe/Models/Product.java:18-20 | `stock += amount`, with `int` wrap-around |
| Models.Inventory.Prices | javacafe/Models/Product.java:16 | definition: each product's price, by name; `Open` states it is `priceOf` of every loaded name |
| Models.Inventory.Empty | javacafe/Models/Inventory.java:15 | an empty map and order, valid |
| Models.Inventory.Open | javacafe/Models/Inventory.java:21-23 | `new Inventory()`: an inventory holding what the file loads, or the load's error exactly when the load fails |
| Models.Inventory.LoadInventoryFromFile | javacafe/Models/Inventory.java:63-83 | the loop leaves exactly the loaded table, or returns the failure `Load` reports; a missing file leaves the inventory empty |
| Models.Inventory.LoadLine | javacafe/Models/Inventory.java:73-80 | one turn of the loop is one `Step` of `Load` |
| Models.Inventory.PutProduct | javacafe/Models/Inventory.java:79 | `products.put`: the map and the table gain the product, a new name at the end of the order |
| Models.Inventory.GetStock | javacafe/Models/Inventory.java:30-33 | the stock under the lower-cased name, or -1 when there is none |
| Models.Inventory.GetProduct | javacafe/controllers/mainPageController.java:79 | the product under the lower-cased name, or `null` exactly when there is none |
| Models.Inventory.UpdateStock | javacafe/Models/Inventory.java:41-57 | the table becomes `Update` of the old one; the file is rewritten exactly when the update is accepted |
| Models.Inventory.WriteInventoryToFile | javacafe/Models/Inventory.java:89-96 | the file becomes `Write` of the table |
| MainPageController.QuantityOf | javacafe/controllers/mainPageController.java:100 | definition of `currentOrder.getOrDefault(name, 0)`; `HeldBoundsEntry`, `AddItemEffect` and `RemoveItemEffect` state how it moves |
| MainPageController.EntriesFor | javacafe/Models/Inventory.java:42 | definition: the cart names that `updateStock` sends to one product, those that lower-case to its key; `HeldAfterPut` and `HeldBoundsEntry` state what is held through them |
| MainPageController.Held | javacafe/Models/Inventory.java:42 | definition: the units of one product in the cart, summed over every cart name that lower-cases to its key, in no particular order; the `Held` lemmas below state how it changes |
| MainPageController.HeldEmpty | javacafe/controllers/mainPageController.java:69 | an empty cart holds nothing |
| MainPageController.HeldBoundsEntry | javacafe/controllers/mainPageController.java:83-84 | a name's count is part of what the cart holds of its product |
| MainPageController.HeldAfterPut | javacafe/controllers/mainPageController.java:84 | `currentOrder.put` changes what is held of that name's product by the change in the count, and of no other product |
| MainPageController.InStock | javacafe/controllers/mainPageController.java:79-80 | definition of the condition of `handleAddItem`: the product exists and its stock is positive; `AddItemEffect` and `HandleAddItem` are stated with it |
| MainPageController.AddItem | javacafe/controllers/mainPageController.java:78-97 | definition of `handleAddItem` on the cart and stocks; `AddItemEffect`, `AddKeepsConserved` and `AddThenRemove` state its effect |
| MainPageController.RemoveItem | javacafe/controllers/mainPageController.java:99-115 | definition of `handleRemoveItem` on the cart and stocks; `RemoveItemEffect`, `RemoveKeepsConserved` and `AddThenRemove` state its effect |
| MainPageController.Reset | javacafe/controllers/mainPageController.java:68-74 | definition of `resetOrder` on the cart and stocks: the cart empties and no stock changes; `ResetStartsSession` and `ResetForgetsHeld` state what that means for the invariant |
| MainPageController.ResetStartsSession | javacafe/controllers/mainPageController.java:68-74 | after a reset, the invariant holds from the current stocks |
| MainPageController.ResetForgetsHeld | javacafe/controllers/mainPageController.java:68-74 | a reset gives nothing back: each stock stays short of its session start by what the cart held |
| MainPageController.AddFits | javacafe/controllers/mainPageController.java:80-87 | within a session, a product in stock has a cart count below `Integer.MAX_VALUE`, and one unit can be taken from it |
| MainPageController.MoveKeepsConserved | javacafe/controllers/mainPageController.java:83-87 | moving units between a count and its product's stock keeps the invariant |
| MainPageController.AddKeepsConserved | javacafe/controllers/mainPageController.java:78-97 | adding an item keeps the invariant |
| MainPageController.AddItemEffect | javacafe/controllers/mainPageController.java:78-97 | adding raises that name's count by one and lowers its stock by one exactly when it is in stock; otherwise nothing changes; no other count or stock moves |
| MainPageController.RemoveFits | javacafe/controllers/mainPageController.java:99-107 | a name the cart holds is a product whose stock is neither negative nor `Integer.MAX_VALUE` |
| MainPageController.RemoveKeepsConserved | javacafe/controllers/mainPageController.java:99-115 | removing an item keeps the invariant |
| MainPageController.RemoveItemEffect | javacafe/controllers/mainPageController.java:99-115 | removing lowers that name's count by one and raises its stock by one exactly when the count is positive; otherwise nothing changes; no other count or stock moves |
| MainPageController.AddThenRemove | javacafe/controllers/mainPageController.java:78-115 | removing right after adding restores every count and every stock |
| MainPageController.PressesKeepConserved | javacafe/controllers/mainPageController.java:68-115 | any sequence of add, remove and reset presses keeps the invariant, measured from the last reset |
| MainPageController.Amount | javacafe/controllers/mainPageController.java:145-149 | definition: quantity times price for an entry with a positive quantity and a known product, 0 otherwise |
| MainPageController.Amounts | javacafe/controllers/mainPageController.java:145-149 | definition: each cart entry's `Amount`; what these amounts add up to is stated by `OrderTotalPositive` and `Receipt` |
| MainPageController.OrderTotal | javacafe/controllers/mainPageController.java:141-150 | definition of the receipt total as the sum of all entries' amounts, in no particular order; `Receipt` proves the loop's `totalSum` equals it |
| MainPageController.Billed | javacafe/controllers/mainPageController.java:145-147 | definition of an entry that gets a receipt line: a positive quantity and a known product |
| MainPageController.OrderTotalPositive | javacafe/controllers/mainPageController.java:141-165 | with non-negative prices, the total is positive exactly when some billed entry has a positive price |
| MainPageController.EmptyOrderTotal | javacafe/controllers/mainPageController.java:73 | the receipts written after a reset have total 0 |
| MainPageController.LineOf | javacafe/controllers/mainPageController.java:142-157 | definition of an entry's receipt line: the product's name, the quantity and quantity times price when billed, none otherwise; `LineFor` and `Receipt` are tied to it |
| MainPageController.ReceiptStep | javacafe/controllers/mainPageController.java:141-159 | visiting one more entry, and appending its line when it has one, keeps the loop's account of lines and total |
| MainPageController.MainPage.constructor | javacafe/controllers/mainPageController.java:37-47 | `initialize`: the given inventory and an empty cart |
| MainPageController.MainPage.ResetOrder | javacafe/controllers/mainPageController.java:68-74 | the cart and stocks become `Reset` of the old ones |
| MainPageController.MainPage.HandleAddItem | javacafe/controllers/mainPageController.java:78-97 | the cart and stocks become `AddItem` of the old ones; the result says whether the product was in stock; the file is rewritten exactly then |
| MainPageController.MainPage.HandleRemoveItem | javacafe/controllers/mainPageController.java:99-115 | the cart and stocks become `RemoveItem` of the old ones; the result says whether the count was positive; the file is rewritten exactly when `updateStock` accepts |
| MainPageController.MainPage.LineFor | javacafe/controllers/mainPageController.java:142-157 | an entry's line is `LineOf`: the product's name, the quantity and quantity times price for a billed entry, and none otherwise |
| MainPageController.MainPage.Receipt | javacafe/controllers/mainPageController.java:133-171 | one line per billed entry, each once, in the order visited; total = sum of the printed subtotals = `OrderTotal`; the total line is shown exactly when the total is positive |

## Left out

- The user interface is not modelled: JavaFX text fields, `uiTextMap`, `showAlert`, and the screen updates of `updateAndSaveReceipts`.
- The other controllers (orders, inventory page, sales, stock editing) and `updateAndSaveReceipts` itself are not part of this model.
- File I/O is not modelled. The inventory file is a value `Option<seq<string>>`: its lines, or `None` when the file is missing. Reading lines with `BufferedReader`, the file path and the receipt files `counts.txt` and `resumo.txt` are not modelled.
- The console messages of `updateStock` and `loadInventoryFromFile` (`Inventory.java` lines 45, 51 and 66) are not modelled. `UpdateOutcome` records which of the update's paths was taken in their place.
- `InventoryModel.LoadWriteRoundTrip` is a round trip over sequences of lines. `WellFormedName` admits a name holding a line break, which `readLine` would read back as two lines. Names loaded through `readLine` never hold one, but the model does not track this.
- `IOException` is not modelled: every write is taken to succeed. In the source, a failed write in `handleAddItem` or `handleRemoveItem` comes after the cart change and the stock change.
- Receipt text is not modelled: `String.format`, the `%.2f` rendering and the padding. `Receipt` returns the lines' data, the order they came out in, the total, and whether the total line is written.
- `product.getName().substring(0, 3)` in the summary receipt is not modelled. For a name shorter than three characters it throws.
- Prices are `double` in the source and whole cents (`int`) here. Floating-point rounding of subtotals and of the running total is therefore not modelled.
- `Models.Inventory.Open` takes each product's price as a parameter `priceOf`. The loader calls `new Product(name, stock)`, but the only `Product` constructor takes a price as well, and the text holds no price.
- `Models.Inventory.GetProduct` is modelled as `products.get(name.toLowerCase())`. The controller calls `inventory.getProduct`, which `Inventory.java` does not define.
- `JavaLang.ToLower` lower-cases only the ASCII letters. Java's full Unicode case mapping is not modelled.
- `JavaLang.ParseInt` accepts only ASCII digits. Java also accepts other Unicode decimal digits. Its own contract states only the shape of accepted text; its value is fixed by `ParseIntToString` for the text `Integer.toString` writes.
- `MainPageController.MainPage.constructor` receives the inventory instead of opening it. `initialize` wraps an `IOException` from `new Inventory()` in a `RuntimeException`, which is not modelled.
- `Models.Inventory.Valid` does not include `ValidListing`. That each name is stored once, in order and well formed is proved of the loaded table (`LoadIsValid`) and of each update (`UpdateKeepsValid`), at value level.
- `MainPageController.MainPage.Valid` does not include the conservation invariant. The methods are tied to `AddItem`, `RemoveItem` and `Reset`, and conservation is proved about those functions (`AddKeepsConserved`, `RemoveKeepsConserved`, `PressesKeepConserved`).
- `MainPageController.AddThenRemove` requires the count of the name to be between 0 and `Integer.MAX_VALUE - 1`. Within a session this always holds (`AddFits`).
