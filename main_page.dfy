/**
 * The order session of the main page: a cart from product name (as the button passes it) to
 * quantity, kept beside the inventory. Adding an item takes one unit out of stock and into
 * the cart; removing one puts it back; resetting the order empties the cart without giving
 * the units back. The receipt bills every cart entry with a positive quantity and a known
 * product at quantity times price.
 */
module MainPageController {
  import opened Wrappers
  import opened JavaLang
  import opened MapSums
  import opened InventoryModel
  import opened Models

  /** `currentOrder.getOrDefault(name, 0)`. */
  function QuantityOf(cart: map<string, Int32>, name: string): Int32 {
    if name in cart then cart[name] else 0
  }

  /** The cart entries that `updateStock` sends to the inventory key `k`. */
  function EntriesFor(cart: map<string, Int32>, k: string): set<string> {
    set p | p in cart && ToLower(p) == k
  }

  /** The units of inventory product `k` held in the cart, over all names that lower-case to `k`. */
  ghost function Held(cart: map<string, Int32>, k: string): int {
    SumOver(EntriesFor(cart, k), cart)
  }

  /** An empty cart holds nothing. */
  lemma HeldEmpty(k: string)
    ensures Held(map[], k) == 0
  {
    assert EntriesFor(map[], k) == {};
  }

  /** With no negative quantity in the cart, each entry's quantity is part of what is held. */
  lemma HeldBoundsEntry(cart: map<string, Int32>, name: string)
    requires forall p :: p in cart ==> cart[p] >= 0
    ensures 0 <= QuantityOf(cart, name) <= Held(cart, ToLower(name))
  {
    var keys := EntriesFor(cart, ToLower(name));
    SumOverNonNegative(keys, cart);
    if name in cart {
      SumOverBoundsEach(keys, cart, name);
    }
  }

  /**
   * `currentOrder.put(name, v)` changes what is held of `toLowerCase(name)` by the change in
   * that entry, and what is held of every other product not at all.
   */
  lemma HeldAfterPut(cart: map<string, Int32>, name: string, v: Int32, k: string)
    ensures Held(cart[name := v], k) ==
              Held(cart, k) + (if ToLower(name) == k then v - QuantityOf(cart, name) else 0)
  {
    var after := cart[name := v];
    var keys := EntriesFor(cart, k);
    var keys' := EntriesFor(after, k);
    if ToLower(name) != k {
      assert keys' == keys;
      SumOverAgree(keys, cart, after);
    } else if name in cart {
      assert keys' == keys;
      SumOverUpdate(keys, cart, name, v);
    } else {
      assert keys' == keys + {name};
      SumOverAgree(keys, cart, after);
      SumOverInsert(keys, after, name);
    }
  }

  // ---------------------------------------------------------------- the order session

  /** What the main page keeps between button presses: the cart and the inventory's stocks. */
  datatype OrderState = OrderState(cart: map<string, Int32>, table: Listing)

  /** The condition of `handleAddItem`: the product exists and its stock is positive. */
  predicate InStock(table: Listing, name: string) {
    ToLower(name) in table.stock && table.stock[ToLower(name)] > 0
  }

  /**
   * `handleAddItem(name)`: when the product is in stock, the cart count for the name as given
   * goes up by one (Java `int` addition) and `updateStock(name, -1)` is applied; otherwise
   * nothing changes.
   */
  function AddItem(s: OrderState, name: string): OrderState {
    if InStock(s.table, name) then
      OrderState(s.cart[name := Add(QuantityOf(s.cart, name), 1)], Update(s.table, name, -1))
    else s
  }

  /**
   * `handleRemoveItem(name)`: when the cart holds some of the name, its count goes down by one
   * and `updateStock(name, 1)` is applied; otherwise nothing changes.
   */
  function RemoveItem(s: OrderState, name: string): OrderState {
    if QuantityOf(s.cart, name) > 0 then
      OrderState(s.cart[name := QuantityOf(s.cart, name) - 1], Update(s.table, name, 1))
    else s
  }

  /** The removing branch of `RemoveItem`, spelled out. */
  lemma RemoveItemUnfold(s: OrderState, name: string)
    requires QuantityOf(s.cart, name) > 0
    ensures RemoveItem(s, name) ==
              OrderState(s.cart[name := QuantityOf(s.cart, name) - 1], Update(s.table, name, 1))
  {
  }

  /** `resetOrder`: the cart is emptied and no stock changes. */
  function Reset(s: OrderState): OrderState {
    OrderState(map[], s.table)
  }

  /**
   * The session invariant: no quantity in the cart is negative and every name in it is a
   * product; for each product, its stock plus what the cart holds of it is its stock at the
   * start of the session; and while the cart holds some of it, its stock is not negative.
   */
  ghost predicate Conserved(s: OrderState, start: map<string, Int32>) {
    && start.Keys == s.table.stock.Keys
    && (forall p :: p in s.cart ==> s.cart[p] >= 0 && ToLower(p) in start)
    && (forall k {:trigger start[k]} :: k in start ==>
          && s.table.stock[k] + Held(s.cart, k) == start[k]
          && (Held(s.cart, k) > 0 ==> s.table.stock[k] >= 0))
  }

  /** The invariant from its three parts, each proved on its own. */
  lemma ConservedIntro(s: OrderState, start: map<string, Int32>)
    requires start.Keys == s.table.stock.Keys
    requires forall p :: p in s.cart ==> s.cart[p] >= 0 && ToLower(p) in start
    requires forall k {:trigger start[k]} :: k in start ==>
               && s.table.stock[k] + Held(s.cart, k) == start[k]
               && (Held(s.cart, k) > 0 ==> s.table.stock[k] >= 0)
    ensures Conserved(s, start)
  {
  }

  /** A reset starts a session: an empty cart, and the current stocks as the starting ones. */
  lemma ResetStartsSession(s: OrderState)
    ensures Conserved(Reset(s), s.table.stock)
  {
    forall k | k in s.table.stock
      ensures Held(map[], k) == 0
    {
      HeldEmpty(k);
    }
  }

  /** A reset gives back nothing: what the cart held is gone from the session's starting stock. */
  lemma ResetForgetsHeld(s: OrderState, start: map<string, Int32>)
    requires Conserved(s, start)
    ensures forall k :: k in start ==> Reset(s).table.stock[k] == start[k] - Held(s.cart, k)
  {
    forall k | k in start
      ensures Reset(s).table.stock[k] == start[k] - Held(s.cart, k)
    {
      assert start[k] == s.table.stock[k] + Held(s.cart, k);
    }
  }

  /**
   * A product in stock has not given out all `int` values of a cart count, and one unit can be
   * taken from its stock.
   */
  lemma AddFits(s: OrderState, start: map<string, Int32>, name: string)
    requires Conserved(s, start) && InStock(s.table, name)
    ensures QuantityOf(s.cart, name) < MaxInt
    ensures Add(QuantityOf(s.cart, name), 1) == QuantityOf(s.cart, name) + 1
    ensures Update(s.table, name, -1).stock[ToLower(name)] == s.table.stock[ToLower(name)] - 1
  {
    HeldBoundsEntry(s.cart, name);
  }

  /**
   * Setting the count of `name` to `v` while `updateStock(name, amount)` moves its product's
   * stock by the opposite change keeps the invariant, provided that stock stays non-negative.
   */
  lemma MoveKeepsConserved(s: OrderState, start: map<string, Int32>, name: string, v: Int32, amount: Int32)
    requires Conserved(s, start) && ToLower(name) in start && v >= 0
    requires Update(s.table, name, amount).stock[ToLower(name)] as int ==
               s.table.stock[ToLower(name)] as int - (v - QuantityOf(s.cart, name))
    requires Update(s.table, name, amount).stock[ToLower(name)] >= 0
    ensures Conserved(OrderState(s.cart[name := v], Update(s.table, name, amount)), start)
  {
    var cart' := s.cart[name := v];
    var table' := Update(s.table, name, amount);
    forall j {:trigger start[j]} | j in start
      ensures table'.stock[j] + Held(cart', j) == start[j]
      ensures Held(cart', j) > 0 ==> table'.stock[j] >= 0
    {
      HeldAfterPut(s.cart, name, v, j);
    }
    forall p | p in cart'
      ensures cart'[p] >= 0 && ToLower(p) in start
    {
      if p != name {
        assert p in s.cart;
      }
    }
    ConservedIntro(OrderState(cart', table'), start);
  }

  /**
   * Adding an item keeps the invariant: when the product is in stock, one unit moves from its
   * stock into the cart, and the count for the name cannot overflow.
   */
  lemma AddKeepsConserved(s: OrderState, start: map<string, Int32>, name: string)
    requires Conserved(s, start)
    ensures Conserved(AddItem(s, name), start)
  {
    if InStock(s.table, name) {
      AddFits(s, start, name);
      MoveKeepsConserved(s, start, name, QuantityOf(s.cart, name) + 1, -1);
    }
  }

  /**
   * What adding an item does within a session: exactly when the product is in stock, the
   * count for the name goes up by one and the product's stock down by one; no other count
   * and no other stock changes.
   */
  lemma AddItemEffect(s: OrderState, start: map<string, Int32>, name: string)
    requires Conserved(s, start)
    ensures var r := AddItem(s, name);
      && (InStock(s.table, name) ==>
            && QuantityOf(r.cart, name) == QuantityOf(s.cart, name) + 1
            && r.table.stock[ToLower(name)] == s.table.stock[ToLower(name)] - 1)
      && (!InStock(s.table, name) ==> r == s)
      && r.table.order == s.table.order && r.table.stock.Keys == s.table.stock.Keys
      && (forall p :: p != name ==> QuantityOf(r.cart, p) == QuantityOf(s.cart, p))
      && (forall k :: k in s.table.stock && k != ToLower(name) ==> r.table.stock[k] == s.table.stock[k])
  {
    if InStock(s.table, name) {
      AddFits(s, start, name);
    }
  }

  /**
   * A name the cart holds is a product, and its stock is neither negative nor the largest
   * `int`, so one unit can be given back.
   */
  lemma RemoveFits(s: OrderState, start: map<string, Int32>, name: string)
    requires Conserved(s, start) && QuantityOf(s.cart, name) > 0
    ensures ToLower(name) in s.table.stock && 0 <= s.table.stock[ToLower(name)] < MaxInt
    ensures Update(s.table, name, 1).stock[ToLower(name)] == s.table.stock[ToLower(name)] + 1
  {
    HeldBoundsEntry(s.cart, name);
    assert start[ToLower(name)] <= MaxInt;
  }

  /**
   * Removing an item keeps the invariant: when the cart holds some of the name, one unit moves
   * back to its product's stock, which cannot overflow.
   */
  lemma RemoveKeepsConserved(s: OrderState, start: map<string, Int32>, name: string)
    requires Conserved(s, start)
    ensures Conserved(RemoveItem(s, name), start)
  {
    if QuantityOf(s.cart, name) > 0 {
      RemoveItemUnfold(s, name);
      RemoveFits(s, start, name);
      MoveKeepsConserved(s, start, name, QuantityOf(s.cart, name) - 1, 1);
    }
  }

  /**
   * What removing an item does within a session: exactly when the cart holds some of the
   * name, its count goes down by one and its product's stock up by one; no other count and
   * no other stock changes.
   */
  lemma RemoveItemEffect(s: OrderState, start: map<string, Int32>, name: string)
    requires Conserved(s, start)
    ensures var r := RemoveItem(s, name);
      && (QuantityOf(s.cart, name) > 0 ==>
            && QuantityOf(r.cart, name) == QuantityOf(s.cart, name) - 1
            && ToLower(name) in s.table.stock
            && r.table.stock[ToLower(name)] == s.table.stock[ToLower(name)] as int + 1)
      && (QuantityOf(s.cart, name) <= 0 ==> r == s)
      && r.table.order == s.table.order && r.table.stock.Keys == s.table.stock.Keys
      && (forall p :: p != name ==> QuantityOf(r.cart, p) == QuantityOf(s.cart, p))
      && (forall k :: k in s.table.stock && k != ToLower(name) ==> r.table.stock[k] == s.table.stock[k])
  {
    if QuantityOf(s.cart, name) > 0 {
      RemoveFits(s, start, name);
    }
  }

  /**
   * Removing what was just added restores the stocks and every count (the name may stay in
   * the cart with the count zero, which `getOrDefault` does not tell apart from absent). Within
   * a session the count condition always holds (`AddFits`).
   */
  lemma AddThenRemove(s: OrderState, name: string)
    requires InStock(s.table, name) && 0 <= QuantityOf(s.cart, name) < MaxInt
    ensures RemoveItem(AddItem(s, name), name).table == s.table
    ensures forall p :: QuantityOf(RemoveItem(AddItem(s, name), name).cart, p) == QuantityOf(s.cart, p)
  {
    var k, q := ToLower(name), QuantityOf(s.cart, name);
    var t := AddItem(s, name);
    assert t == OrderState(s.cart[name := q + 1], Update(s.table, name, -1));
    RemoveItemUnfold(t, name);
    var r := RemoveItem(t, name);
    assert r.cart == s.cart[name := q];
    assert UpdateOutcomeOf(t.table, name, 1) == Updated;
    assert r.table.stock == s.table.stock by {
      forall j | j in s.table.stock
        ensures r.table.stock[j] == s.table.stock[j]
      {
      }
    }
  }

  /** A button press on the main page. */
  datatype Press = AddPress(name: string) | RemovePress(name: string) | ResetPress

  /** The session after a sequence of presses, in order. */
  function Apply(s: OrderState, presses: seq<Press>): OrderState
    decreases |presses|
  {
    if presses == [] then s
    else
      var t := match presses[0]
        case AddPress(name) => AddItem(s, name)
        case RemovePress(name) => RemoveItem(s, name)
        case ResetPress => Reset(s);
      Apply(t, presses[1..])
  }

  /** The starting stocks of the session that `presses` leave open: a reset starts a new one. */
  function SessionStart(s: OrderState, start: map<string, Int32>, presses: seq<Press>): map<string, Int32>
    decreases |presses|
  {
    if presses == [] then start
    else
      var t := match presses[0]
        case AddPress(name) => AddItem(s, name)
        case RemovePress(name) => RemoveItem(s, name)
        case ResetPress => Reset(s);
      SessionStart(t, if presses[0].ResetPress? then s.table.stock else start, presses[1..])
  }

  /**
   * Any sequence of presses keeps the invariant, relative to the stocks at the last reset:
   * units are only ever moved between stock and cart, no stock goes negative while the cart
   * holds some of it, and no count or stock overflows.
   */
  lemma {:induction false} PressesKeepConserved(s: OrderState, start: map<string, Int32>, presses: seq<Press>)
    requires Conserved(s, start)
    ensures Conserved(Apply(s, presses), SessionStart(s, start, presses))
    decreases |presses|
  {
    if presses != [] {
      match presses[0]
      case AddPress(name) =>
        AddKeepsConserved(s, start, name);
        PressesKeepConserved(AddItem(s, name), start, presses[1..]);
      case RemovePress(name) =>
        RemoveKeepsConserved(s, start, name);
        PressesKeepConserved(RemoveItem(s, name), start, presses[1..]);
      case ResetPress =>
        ResetStartsSession(s);
        PressesKeepConserved(Reset(s), s.table.stock, presses[1..]);
    }
  }

  // ---------------------------------------------------------------- the receipt

  /** What one cart entry adds to the total: quantity times price, when it is billed at all. */
  function Amount(cart: map<string, Int32>, prices: map<string, int>, name: string): int
    requires name in cart
  {
    if cart[name] > 0 && ToLower(name) in prices then cart[name] * prices[ToLower(name)] else 0
  }

  /** Each cart entry's billed amount. */
  function Amounts(cart: map<string, Int32>, prices: map<string, int>): map<string, int> {
    map p | p in cart :: Amount(cart, prices, p)
  }

  /** The receipt total: the billed amounts of all cart entries, in no particular order. */
  ghost function OrderTotal(cart: map<string, Int32>, prices: map<string, int>): int {
    SumOver(cart.Keys, Amounts(cart, prices))
  }

  /** A cart entry that gets a receipt line: a positive quantity of a known product. */
  predicate Billed(cart: map<string, Int32>, prices: map<string, int>, name: string) {
    name in cart && cart[name] > 0 && ToLower(name) in prices
  }

  /**
   * With no negative price, the total is positive (and the total line is written) exactly when
   * some billed entry has a positive price.
   */
  lemma OrderTotalPositive(cart: map<string, Int32>, prices: map<string, int>)
    requires forall k :: k in prices ==> prices[k] >= 0
    ensures OrderTotal(cart, prices) > 0 <==>
              exists p :: Billed(cart, prices, p) && prices[ToLower(p)] > 0
  {
    var w := Amounts(cart, prices);
    SumOverPositive(cart.Keys, w);
    if OrderTotal(cart, prices) > 0 {
      var p :| p in cart.Keys && w[p] > 0;
      assert Billed(cart, prices, p) && prices[ToLower(p)] > 0;
    }
    if exists p :: Billed(cart, prices, p) && prices[ToLower(p)] > 0 {
      var p :| Billed(cart, prices, p) && prices[ToLower(p)] > 0;
      assert w[p] > 0;
    }
  }

  /** An empty cart bills nothing. */
  lemma EmptyOrderTotal(prices: map<string, int>)
    ensures OrderTotal(map[], prices) == 0
  {
  }

  /** One line of the receipt: `product.getName()`, the quantity and the subtotal. */
  datatype LineItem = LineItem(name: string, quantity: Int32, subtotal: int)

  /**
   * The receipt line of a cart entry: a billed entry gets the product's (lower-case) name, the
   * quantity and quantity times price; any other entry gets none.
   */
  function LineOf(cart: map<string, Int32>, prices: map<string, int>, name: string): Option<LineItem> {
    if Billed(cart, prices, name) then
      Some(LineItem(ToLower(name), cart[name], cart[name] * prices[ToLower(name)]))
    else None
  }

  /** The sum of the subtotals printed on the receipt. */
  function SubtotalSum(items: seq<LineItem>): int {
    if items == [] then 0 else SubtotalSum(items[..|items| - 1]) + items[|items| - 1].subtotal
  }

  /**
   * What the receipt loop has produced once the entries outside `remaining` have been
   * visited: one line per billed entry visited, each once, the total of their subtotals, and
   * that total as the billed amounts of the visited entries.
   */
  ghost predicate ReceiptSoFar(cart: map<string, Int32>, prices: map<string, int>, remaining: set<string>,
                               items: seq<LineItem>, billed: seq<string>, total: int) {
    && remaining <= cart.Keys
    && |items| == |billed|
    && (forall i, j :: 0 <= i < j < |billed| ==> billed[i] != billed[j])
    && (forall p :: p in billed <==> Billed(cart, prices, p) && p !in remaining)
    && (forall i :: 0 <= i < |items| ==> LineOf(cart, prices, billed[i]) == Some(items[i]))
    && total == SubtotalSum(items)
    && total == SumOver(cart.Keys - remaining, Amounts(cart, prices))
  }

  /** Visiting one more entry, and appending its line when it has one, keeps `ReceiptSoFar`. */
  lemma ReceiptStep(cart: map<string, Int32>, prices: map<string, int>, remaining: set<string>,
                    items: seq<LineItem>, billed: seq<string>, total: int, name: string)
    requires ReceiptSoFar(cart, prices, remaining, items, billed, total) && name in remaining
    ensures var line := LineOf(cart, prices, name);
      if line.Some? then
        ReceiptSoFar(cart, prices, remaining - {name}, items + [line.value], billed + [name], total + line.value.subtotal)
      else
        ReceiptSoFar(cart, prices, remaining - {name}, items, billed, total)
  {
    var w := Amounts(cart, prices);
    var visited := cart.Keys - remaining;
    assert cart.Keys - (remaining - {name}) == visited + {name};
    SumOverInsert(visited, w, name);
    var line := LineOf(cart, prices, name);
    if line.Some? {
      assert name !in billed;
      assert (items + [line.value])[..|items|] == items;
    }
  }

  // ---------------------------------------------------------------- the controller

  /** The state behind the main page: the inventory and the cart. */
  class MainPage {
    const inventory: Inventory
    var currentOrder: map<string, Int32>

    ghost predicate Valid()
      reads this, inventory, inventory.products.Values
    {
      inventory.Valid()
    }

    /** The cart and the stocks as a value. */
    ghost function State(): OrderState
      reads this, inventory
    {
      OrderState(currentOrder, inventory.table)
    }

    /** `initialize`: the given inventory and an empty cart. */
    constructor (inventory: Inventory)
      requires inventory.Valid()
      ensures Valid()
      ensures this.inventory == inventory && currentOrder == map[]
    {
      this.inventory := inventory;
      currentOrder := map[];
    }

    /** `resetOrder`: the cart is emptied; no stock changes. */
    method ResetOrder()
      requires Valid()
      modifies this`currentOrder
      ensures Valid()
      ensures State() == Reset(old(State()))
    {
      currentOrder := map[];
    }

    /**
     * `handleAddItem`: `AddItem` on the cart and the stocks; the file is rewritten exactly
     * when a unit was taken.
     */
    method HandleAddItem(productName: string) returns (added: bool)
      requires Valid()
      modifies this`currentOrder, inventory`file, inventory`table, inventory.products.Values
      ensures Valid()
      ensures added == InStock(old(inventory.table), productName)
      ensures State() == AddItem(old(State()), productName)
      ensures added ==> inventory.file == Some(Write(inventory.table))
      ensures !added ==> inventory.file == old(inventory.file)
    {
      var product := inventory.GetProduct(productName);
      if product == null {
        return false;
      }
      var stock := product.GetStock();
      if stock <= 0 {
        return false;
      }
      var currentCount := QuantityOf(currentOrder, productName);
      currentOrder := currentOrder[productName := Add(currentCount, 1)];
      var outcome := inventory.UpdateStock(productName, -1);
      added := true;
    }

    /**
     * `handleRemoveItem`: `RemoveItem` on the cart and the stocks; the file is rewritten when
     * `updateStock(name, 1)` went through.
     */
    method HandleRemoveItem(productName: string) returns (removed: bool)
      requires Valid()
      modifies this`currentOrder, inventory`file, inventory`table, inventory.products.Values
      ensures Valid()
      ensures removed == (old(QuantityOf(currentOrder, productName)) > 0)
      ensures State() == RemoveItem(old(State()), productName)
      ensures removed && UpdateOutcomeOf(old(inventory.table), productName, 1) == Updated ==>
                inventory.file == Some(Write(inventory.table))
      ensures !removed || UpdateOutcomeOf(old(inventory.table), productName, 1) != Updated ==>
                inventory.file == old(inventory.file)
    {
      var currentCount := QuantityOf(currentOrder, productName);
      if currentCount <= 0 {
        return false;
      }
      currentOrder := currentOrder[productName := currentCount - 1];
      var outcome := inventory.UpdateStock(productName, 1);
      removed := true;
    }

    /**
     * One turn of the receipt loop: the line of the entry `productName`, looking its product
     * up only when the quantity is positive.
     */
    method LineFor(productName: string, quantity: Int32) returns (item: Option<LineItem>)
      requires Valid() && productName in currentOrder && quantity == currentOrder[productName]
      ensures item == LineOf(currentOrder, inventory.Prices(), productName)
    {
      if quantity > 0 {
        var product := inventory.GetProduct(productName);
        if product != null {
          var name := product.GetName();
          var price := product.GetPrice();
          var subtotal := quantity * price;
          return Some(LineItem(name, quantity, subtotal));
        }
      }
      item := None;
    }

    /**
     * The bookkeeping of `saveReceiptToFile`: the cart entries are visited in the map's own
     * (unspecified) order, and each billed one gets its line. `billed` is the order the lines
     * came out in: every billed entry once. The total is the sum of the printed subtotals and
     * equals `OrderTotal`, whatever the order; the total line is written when it is positive.
     */
    method Receipt() returns (items: seq<LineItem>, billed: seq<string>, total: int, showTotal: bool)
      requires Valid()
      ensures |items| == |billed|
      ensures forall i, j :: 0 <= i < j < |billed| ==> billed[i] != billed[j]
      ensures forall p :: p in billed <==> Billed(currentOrder, inventory.Prices(), p)
      ensures forall i :: 0 <= i < |items| ==> LineOf(currentOrder, inventory.Prices(), billed[i]) == Some(items[i])
      ensures total == SubtotalSum(items)
      ensures total == OrderTotal(currentOrder, inventory.Prices())
      ensures showTotal <==> total > 0
    {
      var cart := currentOrder;
      ghost var prices := inventory.Prices();
      items, billed, total := [], [], 0;
      var remaining := cart.Keys;
      while remaining != {}
        invariant ReceiptSoFar(cart, prices, remaining, items, billed, total)
        decreases remaining
      {
        var productName :| productName in remaining;
        ReceiptStep(cart, prices, remaining, items, billed, total, productName);
        remaining := remaining - {productName};
        var item := LineFor(productName, cart[productName]);
        if item.Some? {
          items := items + [item.value];
          billed := billed + [productName];
          total := total + item.value.subtotal;
        }
      }
      assert cart.Keys - remaining == cart.Keys;
      showTotal := total > 0;
    }
  }
}
