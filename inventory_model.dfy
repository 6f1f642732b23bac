/**
 * The inventory as plain values: an insertion-ordered table from lower-cased product name
 * to stock (what the `LinkedHashMap` holds, seen through each product's stock), the guarded
 * stock update, and the line codec of the backing text (`name:stock`, one product per line).
 */
module InventoryModel {
  import opened Wrappers
  import opened JavaLang

  /** Product names in insertion order, and each name's stock. */
  datatype Listing = Listing(order: seq<string>, stock: map<string, Int32>)

  const Empty: Listing := Listing([], map[])

  predicate Distinct(s: seq<string>) {
    forall i, j :: 0 <= i < j < |s| ==> s[i] != s[j]
  }

  /** A name as the loader stores it: no `':'`, no blank at either end, already lower-case. */
  predicate WellFormedName(k: string) {
    ':' !in k && Trimmed(k) && ToLower(k) == k
  }

  /** Each name once, in the order exactly when it has a stock, and well formed. */
  ghost predicate ValidListing(l: Listing) {
    && Distinct(l.order)
    && (forall k :: k in l.stock <==> k in l.order)
    && (forall k :: k in l.stock ==> WellFormedName(k))
  }

  /**
   * `LinkedHashMap.put`: a new name goes to the end of the order; a name already present
   * keeps its first position and only its stock is replaced.
   */
  function Put(l: Listing, k: string, v: Int32): (r: Listing)
    ensures r.stock == l.stock[k := v]
    ensures k in l.stock ==> r.order == l.order
    ensures k !in l.stock ==> r.order == l.order + [k]
  {
    if k in l.stock then Listing(l.order, l.stock[k := v])
    else Listing(l.order + [k], l.stock[k := v])
  }

  /** `put` of a well-formed name keeps the table valid. */
  lemma PutKeepsValid(l: Listing, k: string, v: Int32)
    requires ValidListing(l) && WellFormedName(k)
    ensures ValidListing(Put(l, k, v))
  {
  }

  // ---------------------------------------------------------------- updateStock

  datatype UpdateOutcome = Updated | UnknownProduct | InsufficientStock

  /** The guard of `updateStock`: a decrement larger than the stock is refused. */
  predicate Rejects(stock: Int32, amount: Int32) {
    amount < 0 && stock < Abs(amount)
  }

  function UpdateOutcomeOf(l: Listing, name: string, amount: Int32): UpdateOutcome {
    var k := ToLower(name);
    if k !in l.stock then UnknownProduct
    else if Rejects(l.stock[k], amount) then InsufficientStock
    else Updated
  }

  /**
   * `updateStock(name, amount)` on the table: an unknown name or a refused decrement changes
   * nothing; otherwise only the stock of `toLowerCase(name)` moves, by Java `int` addition.
   */
  function Update(l: Listing, name: string, amount: Int32): (r: Listing)
    ensures r.order == l.order && r.stock.Keys == l.stock.Keys
    ensures UpdateOutcomeOf(l, name, amount) != Updated ==> r == l
    ensures UpdateOutcomeOf(l, name, amount) == Updated ==>
              r.stock[ToLower(name)] == Add(l.stock[ToLower(name)], amount)
    ensures forall j :: j in l.stock && j != ToLower(name) ==> r.stock[j] == l.stock[j]
  {
    var k := ToLower(name);
    if UpdateOutcomeOf(l, name, amount) == Updated then Listing(l.order, l.stock[k := Add(l.stock[k], amount)])
    else l
  }

  /** An update keeps the table valid: it touches no name and no position. */
  lemma UpdateKeepsValid(l: Listing, name: string, amount: Int32)
    requires ValidListing(l)
    ensures ValidListing(Update(l, name, amount))
  {
  }

  predicate AllStocksNonNegative(l: Listing) {
    forall k :: k in l.stock ==> l.stock[k] >= 0
  }

  /**
   * The guard keeps every stock non-negative, provided the amount is not `Integer.MIN_VALUE`
   * and an increment does not overflow.
   */
  lemma UpdateKeepsStocksNonNegative(l: Listing, name: string, amount: Int32)
    requires AllStocksNonNegative(l)
    requires amount != MinInt
    requires ToLower(name) in l.stock ==> l.stock[ToLower(name)] + amount <= MaxInt
    ensures AllStocksNonNegative(Update(l, name, amount))
  {
    var r := Update(l, name, amount);
    var k := ToLower(name);
    if UpdateOutcomeOf(l, name, amount) == Updated {
      assert r.stock[k] == l.stock[k] + amount;
    }
  }

  /**
   * `Math.abs(Integer.MIN_VALUE)` is negative, so a decrement by `Integer.MIN_VALUE` passes
   * the guard and leaves a non-negative stock negative.
   */
  lemma MinIntSlipsPastGuard(l: Listing, name: string)
    requires ToLower(name) in l.stock && l.stock[ToLower(name)] >= 0
    ensures UpdateOutcomeOf(l, name, MinInt) == Updated
    ensures Update(l, name, MinInt).stock[ToLower(name)] < 0
  {
  }

  // ---------------------------------------------------------------- loading

  /** What the loader makes of one line of the backing text. */
  datatype LineKind =
    | Blank                              // `line.trim().isEmpty()`: skipped
    | WrongFieldCount(fields: nat)       // `split(":")` did not give two parts: skipped
    | Record(name: string, stock: Int32) // a product entry
    | BadStockField(field: string)       // `Integer.parseInt` throws: loading stops

  function ParseLine(line: string): (r: LineKind)
    ensures r.Blank? <==> Trim(line) == []
    ensures r.WrongFieldCount? ==> r.fields != 2
    ensures r.Record? ==> WellFormedName(r.name)
  {
    if Trim(line) == [] then Blank
    else
      var parts := Split(line);
      if |parts| != 2 then WrongFieldCount(|parts|)
      else
        match ParseInt(Trim(parts[1]))
        case None => BadStockField(parts[1])
        case Some(n) =>
          var name := ToLower(Trim(parts[0]));
          SplitParts(line);
          NameIsWellFormed(parts[0]);
          Record(name, n)
  }

  /**
   * A `name:stock:price` line, the layout that carries a price, splits into three parts and
   * is skipped like any line without exactly two: the loader only reads `name:stock`.
   */
  lemma PricedLineIsSkipped(name: string, stock: string, price: string)
    requires ':' !in name && ':' !in stock && ':' !in price && price != []
    ensures ParseLine(name + ":" + stock + ":" + price) == WrongFieldCount(3)
  {
    var line := name + ":" + stock + ":" + price;
    SplitTriple(name, stock, price);
    TrimProperties(line);
    assert !IsBlank(line[|name|]);
  }

  /** Trimming and lower-casing a colon-free field yields a well-formed name. */
  lemma NameIsWellFormed(field: string)
    requires ':' !in field
    ensures WellFormedName(ToLower(Trim(field)))
  {
    TrimProperties(field);
    ToLowerKeepsColons(Trim(field));
    ToLowerKeepsTrimmed(Trim(field));
    ToLowerIdempotent(Trim(field));
  }

  /** The parse failure that stops loading: the line and its stock field. */
  datatype LoadError = BadStock(line: nat, field: string)

  /** Every record among `kinds` carries a well-formed name, as `ParseLine` guarantees. */
  predicate RecordNamesWellFormed(kinds: seq<LineKind>) {
    forall j :: 0 <= j < |kinds| && kinds[j].Record? ==> WellFormedName(kinds[j].name)
  }

  /**
   * One turn of the loading loop: a record is `put` into the table, an unparsable stock field
   * stops loading at line `index`, any other line changes nothing; a failure stays a failure.
   */
  function Step(r: Result<Listing, LoadError>, index: nat, kind: LineKind): Result<Listing, LoadError> {
    match r
    case Failure(e) => Failure(e)
    case Success(l) =>
      match kind
      case Record(name, stock) => Success(Put(l, name, stock))
      case BadStockField(f) => Failure(BadStock(index, f))
      case _ => Success(l)
  }

  /** The loading loop over already classified lines, in order. */
  function LoadKinds(kinds: seq<LineKind>): Result<Listing, LoadError>
    decreases |kinds|
  {
    if kinds == [] then Success(Empty)
    else Step(LoadKinds(kinds[..|kinds| - 1]), |kinds| - 1, kinds[|kinds| - 1])
  }

  /** A table folded from well-formed records is a valid listing. */
  lemma {:induction false} LoadKindsValid(kinds: seq<LineKind>)
    requires RecordNamesWellFormed(kinds)
    ensures LoadKinds(kinds).Success? ==> ValidListing(LoadKinds(kinds).value)
    decreases |kinds|
  {
    if kinds != [] {
      var before := kinds[..|kinds| - 1];
      assert forall j :: 0 <= j < |before| ==> before[j] == kinds[j];
      LoadKindsValid(before);
      var last := kinds[|kinds| - 1];
      if LoadKinds(before).Success? && last.Record? {
        PutKeepsValid(LoadKinds(before).value, last.name, last.stock);
      }
    }
  }

  /** Loading fails exactly at the first unparsable stock field, and succeeds when there is none. */
  lemma {:induction false} LoadKindsOutcome(kinds: seq<LineKind>)
    ensures LoadKinds(kinds).Success? <==> forall j :: 0 <= j < |kinds| ==> !kinds[j].BadStockField?
    ensures LoadKinds(kinds).Failure? ==>
              var e := LoadKinds(kinds).error;
              && e.line < |kinds|
              && kinds[e.line] == BadStockField(e.field)
              && forall j :: 0 <= j < e.line ==> !kinds[j].BadStockField?
    decreases |kinds|
  {
    if kinds != [] {
      var before := kinds[..|kinds| - 1];
      assert forall j :: 0 <= j < |before| ==> before[j] == kinds[j];
      LoadKindsOutcome(before);
    }
  }

  /** Each line's classification. */
  function Classify(lines: seq<string>): (r: seq<LineKind>)
    ensures |r| == |lines|
    ensures forall j :: 0 <= j < |lines| ==> r[j] == ParseLine(lines[j])
    ensures RecordNamesWellFormed(r)
  {
    seq(|lines|, j requires 0 <= j < |lines| => ParseLine(lines[j]))
  }

  /**
   * `loadInventoryFromFile` over the lines of the text: the table, or the first line whose
   * stock field `Integer.parseInt` refuses.
   */
  function Load(lines: seq<string>): Result<Listing, LoadError>
    decreases |lines|
  {
    if lines == [] then Success(Empty)
    else Step(Load(lines[..|lines| - 1]), |lines| - 1, ParseLine(lines[|lines| - 1]))
  }

  /** Loading the lines is folding their classifications. */
  lemma {:induction false} LoadIsFold(lines: seq<string>)
    ensures Load(lines) == LoadKinds(Classify(lines))
    decreases |lines|
  {
    if lines != [] {
      var last := |lines| - 1;
      LoadIsFold(lines[..last]);
      assert Classify(lines)[..last] == Classify(lines[..last]);
    }
  }

  /** What loads is a valid listing: each name once, in order, and well formed. */
  lemma LoadIsValid(lines: seq<string>)
    ensures Load(lines).Success? ==> ValidListing(Load(lines).value)
  {
    LoadIsFold(lines);
    LoadKindsValid(Classify(lines));
  }

  /**
   * Loading succeeds exactly when no line has an unparsable stock field, and otherwise
   * reports the first such line.
   */
  lemma LoadOutcome(lines: seq<string>)
    ensures Load(lines).Success? <==> forall j :: 0 <= j < |lines| ==> !ParseLine(lines[j]).BadStockField?
    ensures Load(lines).Failure? ==>
              var e := Load(lines).error;
              && e.line < |lines|
              && ParseLine(lines[e.line]) == BadStockField(e.field)
              && forall j :: 0 <= j < e.line ==> !ParseLine(lines[j]).BadStockField?
  {
    LoadIsFold(lines);
    LoadKindsOutcome(Classify(lines));
  }

  /**
   * One more line, as the body of the loading loop treats it: a blank line, or one that does
   * not split into two parts, changes nothing; an unparsable stock field fails at this line;
   * otherwise the trimmed, lower-cased name is put with the parsed stock.
   */
  lemma LoadNextLine(lines: seq<string>, i: nat)
    requires i < |lines|
    ensures Load(lines[..i + 1]) == Step(Load(lines[..i]), i, ParseLine(lines[i]))
  {
    assert lines[..i + 1][..i] == lines[..i];
  }

  /** Once a prefix fails to load, the later kinds do not matter. */
  lemma {:induction false} LoadKindsFailureSticks(kinds: seq<LineKind>, n: nat)
    requires n <= |kinds| && LoadKinds(kinds[..n]).Failure?
    ensures LoadKinds(kinds) == LoadKinds(kinds[..n])
    decreases |kinds| - n
  {
    if n == |kinds| {
      assert kinds[..n] == kinds;
    } else {
      assert kinds[..n + 1][..n] == kinds[..n];
      LoadKindsFailureSticks(kinds, n + 1);
    }
  }

  /** The exception stops the loader: a failing prefix is the failure of the whole text. */
  lemma LoadStopsAtFailure(lines: seq<string>, n: nat)
    requires n <= |lines| && Load(lines[..n]).Failure?
    ensures Load(lines) == Load(lines[..n])
  {
    assert Classify(lines)[..n] == Classify(lines[..n]);
    LoadIsFold(lines);
    LoadIsFold(lines[..n]);
    LoadKindsFailureSticks(Classify(lines), n);
  }

  /** A missing file gives an empty inventory. */
  function LoadFile(file: Option<seq<string>>): (r: Result<Listing, LoadError>)
    ensures file.None? ==> r == Success(Empty)
  {
    match file
    case None => Success(Empty)
    case Some(lines) => Load(lines)
  }

  /** A skipped line (blank, or not two fields) has no effect on what the other lines load. */
  lemma {:induction false} LoadKindsSkipsIgnored(pre: seq<LineKind>, kind: LineKind, post: seq<LineKind>)
    requires kind.Blank? || kind.WrongFieldCount?
    ensures LoadKinds(pre + [kind] + post).Success? <==> LoadKinds(pre + post).Success?
    ensures LoadKinds(pre + post).Success? ==> LoadKinds(pre + [kind] + post) == LoadKinds(pre + post)
    decreases |post|
  {
    var all := pre + [kind] + post;
    if post == [] {
      assert all[..|all| - 1] == pre;
      assert pre + post == pre;
    } else {
      var post' := post[..|post| - 1];
      LoadKindsSkipsIgnored(pre, kind, post');
      assert all[..|all| - 1] == pre + [kind] + post';
      var short := pre + post;
      assert short[..|short| - 1] == pre + post';
      assert all[|all| - 1] == short[|short| - 1];
    }
  }

  /**
   * Loading skips blank lines and lines that do not split into two fields: the lines after
   * them load exactly as if the skipped line were absent.
   */
  lemma LoadSkipsIgnoredLine(pre: seq<string>, line: string, post: seq<string>)
    requires ParseLine(line).Blank? || ParseLine(line).WrongFieldCount?
    ensures Load(pre + [line] + post).Success? <==> Load(pre + post).Success?
    ensures Load(pre + post).Success? ==> Load(pre + [line] + post) == Load(pre + post)
  {
    ClassifyConcat(pre + [line], post);
    ClassifyConcat(pre, [line]);
    ClassifyConcat(pre, post);
    assert Classify([line]) == [ParseLine(line)];
    var kinds := Classify(pre) + [ParseLine(line)] + Classify(post);
    assert Classify(pre + [line] + post) == kinds;
    LoadKindsSkipsIgnored(Classify(pre), ParseLine(line), Classify(post));
    LoadIsFold(pre + [line] + post);
    LoadIsFold(pre + post);
    assert Load(pre + [line] + post) == LoadKinds(kinds);
    assert Load(pre + post) == LoadKinds(Classify(pre) + Classify(post));
  }

  lemma ClassifyConcat(a: seq<string>, b: seq<string>)
    ensures Classify(a + b) == Classify(a) + Classify(b)
  {
  }

  // ---------------------------------------------------------------- writing

  /** One line of the backing text: `product.getName() + ":" + product.getStock()`. */
  function FormatLine(name: string, stock: Int32): string {
    name + ":" + IntToString(stock)
  }

  /** `writeInventoryToFile`: one `name:stock` line per product, in insertion order. */
  function Write(l: Listing): (r: seq<string>)
    requires forall k :: k in l.order ==> k in l.stock
    ensures |r| == |l.order|
    ensures forall i :: 0 <= i < |r| ==> r[i] == FormatLine(l.order[i], l.stock[l.order[i]])
  {
    seq(|l.order|, i requires 0 <= i < |l.order| => FormatLine(l.order[i], l.stock[l.order[i]]))
  }

  /** Any lines that format the table's products one by one, in order, are what `Write` emits. */
  lemma WriteIsLines(l: Listing, lines: seq<string>)
    requires forall k :: k in l.order ==> k in l.stock
    requires |lines| == |l.order|
    requires forall j :: 0 <= j < |lines| ==> lines[j] == FormatLine(l.order[j], l.stock[l.order[j]])
    ensures Write(l) == lines
  {
  }

  /** The loader reads a written line back as the same name and stock. */
  lemma ParseFormattedLine(name: string, stock: Int32)
    requires WellFormedName(name)
    ensures ParseLine(FormatLine(name, stock)) == Record(name, stock)
  {
    var line := FormatLine(name, stock);
    var digits := IntToString(stock);
    IntToStringIsPlain(stock);
    TrimProperties(line);
    TrimProperties(name);
    TrimProperties(digits);
    assert line[|name|] == ':' && !IsBlank(':');
    SplitPair(name, digits);
    ParseIntToString(stock);
  }

  /** The classification of what `Write` emits: one record per product, in order. */
  function Records(l: Listing): seq<LineKind>
    requires forall k :: k in l.order ==> k in l.stock
  {
    seq(|l.order|, i requires 0 <= i < |l.order| => Record(l.order[i], l.stock[l.order[i]]))
  }

  /** The table holding the first `n` names of `l`'s order. */
  function Prefix(l: Listing, n: nat): Listing
    requires n <= |l.order|
    requires forall k :: k in l.order ==> k in l.stock
  {
    Listing(l.order[..n], map k | k in l.order[..n] :: l.stock[k])
  }

  /** One more record on the end is one more `put`. */
  lemma LoadKindsAppendRecord(kinds: seq<LineKind>, name: string, stock: Int32)
    requires LoadKinds(kinds).Success?
    ensures LoadKinds(kinds + [Record(name, stock)]) == Success(Put(LoadKinds(kinds).value, name, stock))
  {
    assert (kinds + [Record(name, stock)])[..|kinds|] == kinds;
  }

  /** The next name of a valid listing is new to the prefix before it, so `put` appends it. */
  lemma PrefixGrows(l: Listing, n: nat)
    requires ValidListing(l) && 0 < n <= |l.order|
    ensures Put(Prefix(l, n - 1), l.order[n - 1], l.stock[l.order[n - 1]]) == Prefix(l, n)
  {
    var k := l.order[n - 1];
    var prev := Prefix(l, n - 1);
    assert l.order[..n] == l.order[..n - 1] + [k];
    var next := Put(prev, k, l.stock[k]);
    assert next.order == Prefix(l, n).order;
    assert next.stock == Prefix(l, n).stock;
  }

  /** Folding the first `n` records rebuilds the first `n` products. */
  lemma {:induction false} LoadRecordsPrefix(l: Listing, n: nat)
    requires ValidListing(l) && n <= |l.order|
    ensures LoadKinds(Records(l)[..n]) == Success(Prefix(l, n))
  {
    var w := Records(l);
    if n == 0 {
      assert w[..0] == [];
      assert Prefix(l, 0) == Empty;
    } else {
      LoadRecordsPrefix(l, n - 1);
      var k := l.order[n - 1];
      assert w[..n] == w[..n - 1] + [Record(k, l.stock[k])];
      LoadKindsAppendRecord(w[..n - 1], k, l.stock[k]);
      PrefixGrows(l, n);
    }
  }

  /** The loader classifies every written line as the record it was written from. */
  lemma ClassifyWrite(l: Listing)
    requires ValidListing(l)
    ensures Classify(Write(l)) == Records(l)
  {
    var w := Write(l);
    var c := Classify(w);
    forall i | 0 <= i < |w|
      ensures c[i] == Records(l)[i]
    {
      ParseFormattedLine(l.order[i], l.stock[l.order[i]]);
    }
  }

  /** Round trip: loading what `writeInventoryToFile` wrote gives back the same table and order. */
  lemma LoadWriteRoundTrip(l: Listing)
    requires ValidListing(l)
    ensures Load(Write(l)) == Success(l)
  {
    LoadIsFold(Write(l));
    ClassifyWrite(l);
    LoadRecords(l);
  }

  /** Folding all the records of a valid listing rebuilds it. */
  lemma LoadRecords(l: Listing)
    requires ValidListing(l)
    ensures LoadKinds(Records(l)) == Success(l)
  {
    LoadRecordsPrefix(l, |l.order|);
    assert Records(l)[..|l.order|] == Records(l);
    PrefixWhole(l);
  }

  lemma PrefixWhole(l: Listing)
    requires ValidListing(l)
    ensures Prefix(l, |l.order|) == l
  {
    assert l.order[..|l.order|] == l.order;
    assert Prefix(l, |l.order|).stock == l.stock;
  }

  /** Writing a loaded text and loading it again changes nothing: the text is normalised once. */
  lemma WriteAfterLoadIsStable(lines: seq<string>)
    requires Load(lines).Success?
    ensures ValidListing(Load(lines).value) && Load(Write(Load(lines).value)) == Load(lines)
  {
    LoadIsValid(lines);
    LoadWriteRoundTrip(Load(lines).value);
  }
}
