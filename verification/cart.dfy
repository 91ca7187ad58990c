/**
  The cart slice of the Redux store: an ordered list of lines plus a stored
  `total`. Every reducer except `clearCart` (which sets 0) recomputes the total
  from scratch with `calculateTotal`, and `updateQuantity` skips even that for
  an unknown id. Each reducer is a pure function from the state and the
  action's payload to the next state.
 */
module Cart {
  import opened Wrappers
  import opened Sequences
  import opened Catalog

  datatype CartState = CartState(items: seq<CartItem>, total: int)

  const InitialState := CartState([], 0)

  /** `calculateTotal`: the sum of price times quantity over the lines, folded left to right. */
  function CalculateTotal(items: seq<CartItem>): int
  {
    Sum(items, LineTotal)
  }

  /** The number of units in the cart: the sum of the quantities, not the number of lines. */
  function ItemCount(items: seq<CartItem>): int
  {
    Sum(items, Quantity)
  }

  /** The stored total is the one `calculateTotal` derives from the lines. */
  predicate Consistent(s: CartState)
  {
    s.total == CalculateTotal(s.items)
  }

  predicate HasId(items: seq<CartItem>, id: string)
  {
    exists i | 0 <= i < |items| :: items[i].product.id == id
  }

  /** No two lines refer to the same product id. */
  predicate UniqueIds(items: seq<CartItem>)
  {
    forall i, j | 0 <= i < j < |items| :: items[i].product.id != items[j].product.id
  }

  predicate PositiveQuantities(items: seq<CartItem>)
  {
    forall i | 0 <= i < |items| :: items[i].quantity >= 1
  }

  /** The invariant the cart is meant to keep: a consistent total, unique ids, quantities of at least 1. */
  predicate WellFormed(s: CartState)
  {
    Consistent(s) && UniqueIds(s.items) && PositiveQuantities(s.items)
  }

  function IdIs(id: string): CartItem -> bool
  {
    (item: CartItem) => item.product.id == id
  }

  function IdIsNot(id: string): CartItem -> bool
  {
    (item: CartItem) => item.product.id != id
  }

  /** `items.find(item => item.product.id === id)`, as the position of the first match. */
  function Find(items: seq<CartItem>, id: string): (r: Option<nat>)
    ensures r.Some? ==> r.value < |items| && items[r.value].product.id == id
    ensures r.Some? ==> forall j | 0 <= j < r.value :: items[j].product.id != id
    ensures r.None? <==> !HasId(items, id)
  {
    FirstIndex(items, IdIs(id))
  }

  /**
    `addToCart`: one more unit of the first line with the product's id, or a
    new line of quantity 1 at the end. An existing line keeps the product
    record it was added with.
   */
  function AddToCart(s: CartState, product: Product): (r: CartState)
    ensures Consistent(r)
    ensures HasId(s.items, product.id) ==>
      var k := Find(s.items, product.id).value;
      && |r.items| == |s.items|
      && r.items[k] == CartItem(s.items[k].product, s.items[k].quantity + 1)
      && forall j | 0 <= j < |s.items| && j != k :: r.items[j] == s.items[j]
    ensures !HasId(s.items, product.id) ==> r.items == s.items + [CartItem(product, 1)]
  {
    var items :=
      match Find(s.items, product.id)
      case Some(k) => s.items[k := s.items[k].(quantity := s.items[k].quantity + 1)]
      case None => s.items + [CartItem(product, 1)];
    CartState(items, CalculateTotal(items))
  }

  /** `removeFromCart`: drops every line with the id, keeps the others in order. */
  function RemoveFromCart(s: CartState, id: string): (r: CartState)
    ensures Consistent(r)
    ensures !HasId(r.items, id)
    ensures IsSubsequence(r.items, s.items)
    ensures |r.items| == CountIf(s.items, IdIsNot(id))
    ensures !HasId(s.items, id) ==> r.items == s.items
  {
    FilterKeepsAll(s.items, IdIsNot(id));
    FilterIsSubsequence(s.items, IdIsNot(id));
    var items := Filter(s.items, IdIsNot(id));
    CartState(items, CalculateTotal(items))
  }

  /**
    `updateQuantity`: nothing at all when no line has the id; otherwise every
    line with the id is dropped when the quantity is not positive, and the
    first one gets exactly that quantity when it is.
   */
  function UpdateQuantity(s: CartState, id: string, quantity: int): (r: CartState)
    ensures !HasId(s.items, id) ==> r == s
    ensures HasId(s.items, id) && quantity <= 0 ==> r == RemoveFromCart(s, id)
    ensures HasId(s.items, id) && quantity > 0 ==>
      var k := Find(s.items, id).value;
      && Consistent(r)
      && |r.items| == |s.items|
      && r.items[k] == CartItem(s.items[k].product, quantity)
      && forall j | 0 <= j < |s.items| && j != k :: r.items[j] == s.items[j]
  {
    match Find(s.items, id)
    case None => s
    case Some(k) =>
      var items :=
        if quantity <= 0 then Filter(s.items, IdIsNot(id))
        else s.items[k := s.items[k].(quantity := quantity)];
      CartState(items, CalculateTotal(items))
  }

  /** `clearCart`: back to the empty cart whatever the state was. */
  function ClearCart(s: CartState): (r: CartState)
    ensures WellFormed(r)
    ensures |r.items| == 0 && r.total == 0
  {
    CartState([], 0)
  }

  /** `setCart`: the given lines verbatim, duplicates included, with their total. */
  function SetCart(s: CartState, items: seq<CartItem>): (r: CartState)
    ensures Consistent(r)
    ensures r.items == items
  {
    CartState(items, CalculateTotal(items))
  }

  /** The actions the cart slice exports, one per reducer. */
  datatype CartAction =
    | AddItem(product: Product)
    | RemoveItem(productId: string)
    | ChangeQuantity(productId: string, quantity: int)
    | Clear
    | Replace(lines: seq<CartItem>)

  /** One dispatch. Every action but a quantity change leaves a consistent cart; that one keeps consistency. */
  function Reduce(s: CartState, a: CartAction): (r: CartState)
    ensures !a.ChangeQuantity? ==> Consistent(r)
    ensures Consistent(s) ==> Consistent(r)
  {
    match a
    case AddItem(p) => AddToCart(s, p)
    case RemoveItem(id) => RemoveFromCart(s, id)
    case ChangeQuantity(id, q) => UpdateQuantity(s, id, q)
    case Clear => ClearCart(s)
    case Replace(lines) => SetCart(s, lines)
  }

  /**
    Dispatches the actions in order, each to the state the previous one left.
    From a consistent cart the stored total stays equal to `calculateTotal` of the lines.
   */
  function Run(s: CartState, actions: seq<CartAction>): (r: CartState)
    ensures Consistent(s) ==> Consistent(r)
    decreases |actions|
  {
    if |actions| == 0 then s else Run(Reduce(s, actions[0]), actions[1..])
  }

  /** Every `setCart` payload among the actions has unique ids and positive quantities. */
  predicate ReplacesWellFormed(actions: seq<CartAction>)
  {
    forall i | 0 <= i < |actions| :: actions[i].Replace? ==>
      UniqueIds(actions[i].lines) && PositiveQuantities(actions[i].lines)
  }

  // ----- Totals and counts -----

  /**
    `calculateTotal` adds price times quantity over the lines: nothing for no
    lines, that product for one line, the two totals for two lists put
    together, and never below zero when no price or quantity is negative.
   */
  lemma TotalOfLines(items: seq<CartItem>, more: seq<CartItem>)
    ensures CalculateTotal([]) == 0
    ensures |items| == 1 ==> CalculateTotal(items) == items[0].product.price * items[0].quantity
    ensures CalculateTotal(items + more) == CalculateTotal(items) + CalculateTotal(more)
    ensures (forall i | 0 <= i < |items| :: items[i].product.price >= 0 && items[i].quantity >= 0)
            ==> CalculateTotal(items) >= 0
  {
    assert |items| == 1 ==> items[..0] == [];
    SumAppend(items, more, LineTotal);
    SumNonNegative(items, LineTotal);
  }

  /** Bumping line `k` by one unit adds one to the count and that line's price to the total. */
  lemma BumpTotals(items: seq<CartItem>, k: nat)
    requires k < |items|
    ensures var bumped := items[k := items[k].(quantity := items[k].quantity + 1)];
      && ItemCount(bumped) == ItemCount(items) + 1
      && CalculateTotal(bumped) == CalculateTotal(items) + items[k].product.price
  {
    var line := items[k].(quantity := items[k].quantity + 1);
    SumUpdate(items, k, line, Quantity);
    SumUpdate(items, k, line, LineTotal);
    LineTotalChange(items[k], items[k].quantity + 1);
  }

  /** Appending a line of one unit adds one to the count and the product's price to the total. */
  lemma AppendTotals(items: seq<CartItem>, product: Product)
    ensures ItemCount(items + [CartItem(product, 1)]) == ItemCount(items) + 1
    ensures CalculateTotal(items + [CartItem(product, 1)]) == CalculateTotal(items) + product.price
  {
    var line := CartItem(product, 1);
    SumAppend(items, [line], Quantity);
    SumAppend(items, [line], LineTotal);
    assert [line][..0] == [];
  }

  /** Adding a product raises the unit count by one and the total by the price of the line's product. */
  lemma AddToCartTotals(s: CartState, product: Product)
    ensures ItemCount(AddToCart(s, product).items) == ItemCount(s.items) + 1
    ensures AddToCart(s, product).total == CalculateTotal(s.items) +
      match Find(s.items, product.id)
      case Some(k) => s.items[k].product.price
      case None => product.price
  {
    match Find(s.items, product.id)
    case Some(k) => BumpTotals(s.items, k);
    case None => AppendTotals(s.items, product);
  }

  /** Setting a positive quantity moves the count and the total by the change on that one line. */
  lemma UpdateQuantityTotals(s: CartState, id: string, quantity: int, k: nat)
    requires Find(s.items, id) == Some(k) && quantity > 0
    ensures ItemCount(UpdateQuantity(s, id, quantity).items)
      == ItemCount(s.items) + quantity - s.items[k].quantity
    ensures UpdateQuantity(s, id, quantity).total
      == CalculateTotal(s.items) + s.items[k].product.price * (quantity - s.items[k].quantity)
  {
    var line := s.items[k].(quantity := quantity);
    assert UpdateQuantity(s, id, quantity).items == s.items[k := line];
    SumUpdate(s.items, k, line, Quantity);
    SumUpdate(s.items, k, line, LineTotal);
    LineTotalChange(s.items[k], quantity);
  }

  /** In a cart with unique ids, filtering out a present id removes exactly its one line. */
  lemma FilterOutUniqueLine(items: seq<CartItem>, id: string, k: nat)
    requires UniqueIds(items) && Find(items, id) == Some(k)
    ensures Filter(items, IdIsNot(id)) == items[..k] + items[k + 1..]
  {
    var p := IdIsNot(id);
    var left, right := items[..k], items[k + 1..];
    forall i | 0 <= i < |left| ensures p(left[i]) {
      assert left[i] == items[i];
    }
    forall i | 0 <= i < |right| ensures p(right[i]) {
      assert right[i] == items[k + 1 + i];
    }
    assert items == left + [items[k]] + right;
    FilterDropsOne(left, items[k], right, p);
  }

  /** In a cart with unique ids, removing a present id takes exactly that line's amount and units away. */
  lemma RemoveFromCartUnique(s: CartState, id: string, k: nat)
    requires UniqueIds(s.items) && Find(s.items, id) == Some(k)
    ensures RemoveFromCart(s, id).items == s.items[..k] + s.items[k + 1..]
    ensures RemoveFromCart(s, id).total == CalculateTotal(s.items) - LineTotal(s.items[k])
    ensures ItemCount(RemoveFromCart(s, id).items) == ItemCount(s.items) - s.items[k].quantity
  {
    FilterOutUniqueLine(s.items, id, k);
    var left, right := s.items[..k], s.items[k + 1..];
    assert s.items == (left + [s.items[k]]) + right;
    SumAppend(left + [s.items[k]], right, LineTotal);
    SumAppend(left, [s.items[k]], LineTotal);
    SumAppend(left, right, LineTotal);
    SumAppend(left + [s.items[k]], right, Quantity);
    SumAppend(left, [s.items[k]], Quantity);
    SumAppend(left, right, Quantity);
  }

  // ----- Well-formedness -----

  /** Filtering a cart with unique ids keeps the ids unique. */
  lemma {:induction false} FilterKeepsUniqueIds(items: seq<CartItem>, p: CartItem -> bool)
    requires UniqueIds(items)
    ensures UniqueIds(Filter(items, p))
  {
    if |items| > 0 {
      var rest := Filter(items[1..], p);
      FilterKeepsUniqueIds(items[1..], p);
      if p(items[0]) {
        var r := [items[0]] + rest;
        assert Filter(items, p) == r;
        FilterIsSubsequence(items[1..], p);
        SubsequenceMembers(rest, items[1..]);
        forall j | 0 <= j < |rest|
          ensures rest[j].product.id != items[0].product.id
        {
          assert rest[j] in items[1..];
          var m :| 0 <= m < |items| - 1 && items[1..][m] == rest[j];
          assert items[m + 1] == rest[j];
        }
        forall i, j | 0 <= i < j < |r|
          ensures r[i].product.id != r[j].product.id
        {
          if i > 0 {
            assert r[i] == rest[i - 1] && r[j] == rest[j - 1];
          }
        }
      }
    }
  }

  lemma FilterKeepsPositive(items: seq<CartItem>, p: CartItem -> bool)
    requires PositiveQuantities(items)
    ensures PositiveQuantities(Filter(items, p))
  {
    var r := Filter(items, p);
    FilterIsSubsequence(items, p);
    SubsequenceMembers(r, items);
    forall i | 0 <= i < |r|
      ensures r[i].quantity >= 1
    {
      assert r[i] in items;
    }
  }

  lemma AddToCartKeepsWellFormed(s: CartState, product: Product)
    requires WellFormed(s)
    ensures WellFormed(AddToCart(s, product))
  {
    var r := AddToCart(s, product);
    if HasId(s.items, product.id) {
      var k := Find(s.items, product.id).value;
      assert forall j | 0 <= j < |r.items| :: r.items[j].product == s.items[j].product;
    } else {
      assert forall j | 0 <= j < |s.items| :: r.items[j] == s.items[j];
    }
  }

  lemma RemoveFromCartKeepsWellFormed(s: CartState, id: string)
    requires WellFormed(s)
    ensures WellFormed(RemoveFromCart(s, id))
  {
    FilterKeepsUniqueIds(s.items, IdIsNot(id));
    FilterKeepsPositive(s.items, IdIsNot(id));
  }

  lemma UpdateQuantityKeepsWellFormed(s: CartState, id: string, quantity: int)
    requires WellFormed(s)
    ensures WellFormed(UpdateQuantity(s, id, quantity))
  {
    var r := UpdateQuantity(s, id, quantity);
    if HasId(s.items, id) {
      if quantity <= 0 {
        RemoveFromCartKeepsWellFormed(s, id);
      } else {
        assert forall j | 0 <= j < |r.items| :: r.items[j].product == s.items[j].product;
      }
    }
  }

  /** `setCart` yields a well-formed cart exactly when its payload has unique ids and positive quantities. */
  lemma SetCartWellFormedIff(s: CartState, items: seq<CartItem>)
    ensures WellFormed(SetCart(s, items)) <==> UniqueIds(items) && PositiveQuantities(items)
  {
  }

  /** `setCart` does not deduplicate: two lines of one product go in as two lines, and one removal drops both. */
  lemma SetCartKeepsDuplicates(s: CartState, p: Product)
    ensures var r := SetCart(s, [CartItem(p, 1), CartItem(p, 2)]);
      && !UniqueIds(r.items)
      && RemoveFromCart(r, p.id).items == []
  {
    var r := SetCart(s, [CartItem(p, 1), CartItem(p, 2)]);
    assert r.items[0].product.id == r.items[1].product.id;
    var lines := r.items;
    assert lines[1..][1..] == [];
    assert CountIf(lines[1..], IdIsNot(p.id)) == 0;
    assert CountIf(lines, IdIsNot(p.id)) == 0;
  }

  lemma ReduceKeepsWellFormed(s: CartState, a: CartAction)
    requires WellFormed(s)
    requires a.Replace? ==> UniqueIds(a.lines) && PositiveQuantities(a.lines)
    ensures WellFormed(Reduce(s, a))
  {
    match a
    case AddItem(p) => AddToCartKeepsWellFormed(s, p);
    case RemoveItem(id) => RemoveFromCartKeepsWellFormed(s, id);
    case ChangeQuantity(id, q) => UpdateQuantityKeepsWellFormed(s, id, q);
    case Clear =>
    case Replace(lines) =>
  }

  /** From a well-formed cart, every sequence of actions whose `setCart` payloads are well formed keeps the cart well formed. */
  lemma {:induction false} RunKeepsWellFormed(s: CartState, actions: seq<CartAction>)
    requires WellFormed(s) && ReplacesWellFormed(actions)
    ensures WellFormed(Run(s, actions))
    decreases |actions|
  {
    if |actions| > 0 {
      ReduceKeepsWellFormed(s, actions[0]);
      assert ReplacesWellFormed(actions[1..]) by {
        forall i | 0 <= i < |actions| - 1 ensures actions[1..][i] == actions[i + 1] {}
      }
      RunKeepsWellFormed(Reduce(s, actions[0]), actions[1..]);
    }
  }

  /** Any non-positive quantity removes the product, even one that is absent, as long as the cart was consistent. */
  lemma NonPositiveUpdateIsRemoval(s: CartState, id: string, quantity: int)
    requires Consistent(s) && quantity <= 0
    ensures UpdateQuantity(s, id, quantity) == RemoveFromCart(s, id)
  {
  }

  /** The cart line's minus button sends `quantity - 1`, so pressing it on a single unit removes the line. */
  lemma DecrementLastUnitRemoves(s: CartState, id: string, k: nat)
    requires Find(s.items, id) == Some(k) && s.items[k].quantity == 1
    ensures UpdateQuantity(s, id, s.items[k].quantity - 1) == RemoveFromCart(s, id)
  {
  }

  /** The products of the shopping session below: ids "p1" and "p2", prices 1000 and 550 cents. */
  predicate SessionProducts(p1: Product, p2: Product)
  {
    p1.id == "p1" && p1.price == 1000 && p2.id == "p2" && p2.price == 550
  }

  /** A shopping session in cents, first half: the product at 1000 added twice, the one at 550 once. */
  lemma FillingScenario(p1: Product, p2: Product)
    requires SessionProducts(p1, p2)
    ensures var s1 := AddToCart(InitialState, p1);
            var s2 := AddToCart(s1, p1);
            var s3 := AddToCart(s2, p2);
            && s1.total == 1000 && ItemCount(s1.items) == 1
            && s2.total == 2000 && ItemCount(s2.items) == 2 && |s2.items| == 1
            && s3 == CartState([CartItem(p1, 2), CartItem(p2, 1)], 2550) && ItemCount(s3.items) == 3
  {
    assert p1.id != p2.id by { assert p1.id[1] != p2.id[1]; }
    var s1 := AddToCart(InitialState, p1);
    AddToCartTotals(InitialState, p1);
    var s2 := AddToCart(s1, p1);
    assert Find(s1.items, p1.id) == Some(0);
    AddToCartTotals(s1, p1);
    assert s2.items == [CartItem(p1, 2)];
    assert Find(s2.items, p2.id) == None;
    AddToCartTotals(s2, p2);
  }

  /** The session's second half: setting the first product to 0 leaves the other line, clearing leaves nothing. */
  lemma EmptyingScenario(p1: Product, p2: Product)
    requires SessionProducts(p1, p2)
    ensures var s3 := CartState([CartItem(p1, 2), CartItem(p2, 1)], 2550);
            var s4 := UpdateQuantity(s3, "p1", 0);
            var s5 := ClearCart(s4);
            && s4.total == 550 && ItemCount(s4.items) == 1 && !HasId(s4.items, "p1")
            && s5.total == 0 && ItemCount(s5.items) == 0 && s5.items == []
  {
    var s3 := CartState([CartItem(p1, 2), CartItem(p2, 1)], 2550);
    assert p1.id != p2.id by { assert p1.id[1] != p2.id[1]; }
    assert Find(s3.items, "p1") == Some(0) && UniqueIds(s3.items);
    var first, second := [CartItem(p1, 2)], [CartItem(p2, 1)];
    assert first[..0] == [] && second[..0] == [] && s3.items == first + second;
    SumAppend(first, second, LineTotal);
    SumAppend(first, second, Quantity);
    RemoveFromCartUnique(s3, "p1", 0);
    assert s3.items[1..] == [CartItem(p2, 1)];
  }

  lemma ClearCartIdempotent(s: CartState)
    ensures ClearCart(ClearCart(s)) == ClearCart(s) == InitialState
  {
  }

  /** The empty cart the store starts from is well formed. */
  lemma InitialStateWellFormed()
    ensures WellFormed(InitialState) && ItemCount(InitialState.items) == 0
  {
  }
}
