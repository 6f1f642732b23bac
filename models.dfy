/**
 * The `Product` record and the `Inventory` store as objects: a product's stock is updated in
 * place, and the inventory keeps its products in a `LinkedHashMap` keyed by lower-cased name,
 * rewriting its backing file after every successful update. Each method is proved against the
 * value-level model in `InventoryModel`.
 */
module Models {
  import opened Wrappers
  import opened JavaLang
  import opened InventoryModel

  /** A product: its name and price never change, its stock does. Prices are in cents. */
  class Product {
    const name: string
    var stock: Int32
    const price: int

    constructor (name: string, initialStock: Int32, price: int)
      ensures this.name == name && stock == initialStock && this.price == price
    {
      this.name := name;
      stock := initialStock;
      this.price := price;
    }

    method GetName() returns (r: string)
      ensures r == name
    {
      r := name;
    }

    method GetStock() returns (r: Int32)
      ensures r == stock
    {
      r := stock;
    }

    method GetPrice() returns (r: int)
      ensures r == price
    {
      r := price;
    }

    /** `stock += amount`, with Java's `int` wrap-around; name and price are final. */
    method UpdateStock(amount: Int32)
      modifies this
      ensures stock == Add(old(stock), amount)
    {
      stock := Add(stock, amount);
    }
  }

  /**
   * The inventory. `products` and `order` together are the `LinkedHashMap`: the map from
   * lower-cased name to product, and the insertion order its iteration follows. `file` is
   * the backing text as lines, `None` when the file does not exist. The ghost `table` is
   * the same map seen as a value: the order and each product's current stock.
   */
  class Inventory {
    var products: map<string, Product>
    var order: seq<string>
    var file: Option<seq<string>>
    ghost var table: Listing

    /**
     * The table lists the same names in the same order, every name in the order has a
     * product, and each name maps to a product of that name whose stock is the table's.
     */
    ghost predicate Valid()
      reads this`products, this`order, this`table, products.Values
    {
      && table.order == order
      && table.stock.Keys == products.Keys
      && (forall k :: k in order ==> k in products)
      && (forall k :: k in products ==> products[k].name == k && products[k].stock == table.stock[k])
    }

    /** Each product's price, by name. */
    function Prices(): map<string, int>
      reads this`products
    {
      map k | k in products :: products[k].price
    }

    /** An inventory with no products yet, backed by `file`. */
    constructor Empty(file: Option<seq<string>>)
      ensures Valid() && table == InventoryModel.Empty && this.file == file
    {
      products := map[];
      order := [];
      this.file := file;
      table := InventoryModel.Empty;
    }

    /**
     * `new Inventory()`: an empty inventory that loads its file, or the `NumberFormatException`
     * the load throws. `priceOf` supplies each product's price, which the text does not hold.
     */
    static method Open(file: Option<seq<string>>, priceOf: string -> int) returns (r: Result<Inventory, LoadError>)
      ensures r.Success? ==> fresh(r.value) && r.value.Valid() && r.value.file == file
      ensures r.Success? ==> LoadFile(file) == Success(r.value.table)
      ensures r.Success? ==> r.value.Prices() == map k | k in r.value.products :: priceOf(k)
      ensures r.Failure? <==> LoadFile(file).Failure?
      ensures r.Failure? ==> LoadFile(file) == Failure(r.error)
    {
      var inventory := new Inventory.Empty(file);
      var error := inventory.LoadInventoryFromFile(priceOf);
      if error.Some? {
        r := Failure(error.value);
      } else {
        r := Success(inventory);
      }
    }

    /**
     * `loadInventoryFromFile`: reads the lines in order, skipping blank ones and those that do
     * not split into two fields, and puts a new product for each `name:stock` line. An
     * unparsable stock field stops the loading with that line's error.
     */
    method LoadInventoryFromFile(priceOf: string -> int) returns (error: Option<LoadError>)
      requires Valid() && table == InventoryModel.Empty
      modifies this`products, this`order, this`table
      ensures Valid()
      ensures error.None? <==> LoadFile(file).Success?
      ensures error.None? ==> LoadFile(file) == Success(table)
      ensures error.Some? ==> LoadFile(file) == Failure(error.value)
      ensures forall k :: k in products ==> products[k].price == priceOf(k)
    {
      if file.None? {
        return None;
      }
      var lines := file.value;
      var i := 0;
      error := None;
      while i < |lines|
        invariant 0 <= i <= |lines| && error.None?
        invariant Valid()
        invariant Load(lines[..i]) == Success(table)
        invariant forall k :: k in products ==> products[k].price == priceOf(k)
      {
        error := LoadLine(lines, i, priceOf);
        if error.Some? {
          LoadStopsAtFailure(lines, i + 1);
          return;
        }
        i := i + 1;
      }
      assert lines[..i] == lines;
    }

    /** One turn of the loading loop: the line at `index` is put, skipped, or stops the loading. */
    method LoadLine(lines: seq<string>, index: nat, priceOf: string -> int) returns (error: Option<LoadError>)
      requires index < |lines| && Valid() && Load(lines[..index]) == Success(table)
      requires forall k :: k in products ==> products[k].price == priceOf(k)
      modifies this`products, this`order, this`table
      ensures Valid()
      ensures error.None? ==> Load(lines[..index + 1]) == Success(table)
      ensures error.Some? ==> Load(lines[..index + 1]) == Failure(error.value)
      ensures forall k :: k in products ==> products[k].price == priceOf(k)
    {
      var line := lines[index];
      LoadNextLine(lines, index);
      if Trim(line) != [] {
        var parts := Split(line);
        if |parts| == 2 {
          var name := ToLower(Trim(parts[0]));
          var stock := ParseInt(Trim(parts[1]));
          if stock.None? {
            return Some(BadStock(index, parts[1]));
          }
          var product := new Product(name, stock.value, priceOf(name));
          PutProduct(product);
        }
      }
      error := None;
    }

    /** `products.put(product.getName(), product)`: a new name goes to the end of the order. */
    method PutProduct(product: Product)
      requires Valid()
      modifies this`products, this`order, this`table
      ensures Valid()
      ensures products == old(products)[product.name := product]
      ensures table == Put(old(table), product.name, product.stock)
    {
      if product.name !in products {
        order := order + [product.name];
      }
      products := products[product.name := product];
      table := Put(table, product.name, product.stock);
    }

    /** `getStock`: the stock of the product named `toLowerCase(name)`, or -1 when there is none. */
    method GetStock(name: string) returns (r: Int32)
      requires Valid()
      ensures ToLower(name) in table.stock ==> r == table.stock[ToLower(name)]
      ensures ToLower(name) !in table.stock ==> r == -1
    {
      var key := ToLower(name);
      if key in products {
        r := products[key].GetStock();
      } else {
        r := -1;
      }
    }

    /** `getProduct`: the product named `toLowerCase(name)`, or `null`. */
    method GetProduct(name: string) returns (p: Product?)
      requires Valid()
      ensures p == null <==> ToLower(name) !in table.stock
      ensures p != null ==> ToLower(name) in products && p == products[ToLower(name)]
      ensures p != null ==> p.name == ToLower(name) && p.stock == table.stock[p.name]
    {
      var key := ToLower(name);
      if key in products {
        p := products[key];
      } else {
        p := null;
      }
    }

    /**
     * `updateStock`: an unknown name or a decrement larger than the stock changes nothing;
     * otherwise the named product's stock moves by `amount` and the file is rewritten.
     */
    method UpdateStock(name: string, amount: Int32) returns (outcome: UpdateOutcome)
      requires Valid()
      modifies this`file, this`table, products.Values
      ensures Valid()
      ensures outcome == UpdateOutcomeOf(old(table), name, amount)
      ensures table == Update(old(table), name, amount)
      ensures outcome == Updated ==> file == Some(Write(table))
      ensures outcome != Updated ==> file == old(file)
    {
      var product := GetProduct(name);
      if product == null {
        return UnknownProduct;
      }
      var stock := product.GetStock();
      if amount < 0 && stock < Abs(amount) {
        return InsufficientStock;
      }
      product.UpdateStock(amount);
      table := Update(table, name, amount);
      forall k | k in products
        ensures products[k].stock == table.stock[k]
      {
        if k != product.name {
          assert products[k] != product;
        }
      }
      WriteInventoryToFile();
      outcome := Updated;
    }

    /** `writeInventoryToFile`: replaces the file with one `name:stock` line per product, in order. */
    method WriteInventoryToFile()
      requires Valid()
      modifies this`file
      ensures file == Some(Write(table))
    {
      var lines := [];
      for i := 0 to |order|
        invariant |lines| == i
        invariant forall j :: 0 <= j < i ==> lines[j] == FormatLine(order[j], table.stock[order[j]])
      {
        var product := products[order[i]];
        var productName := product.GetName();
        var stock := product.GetStock();
        lines := lines + [FormatLine(productName, stock)];
      }
      WriteIsLines(table, lines);
      file := Some(lines);
    }
  }
}
