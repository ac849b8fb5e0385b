/**
 * The point-of-sale cart of `LanchoneteApp` (lanchonete.py, `adicionar_item_ao_carrinho_pdv`,
 * `remover_item_do_carrinho_pdv`, `limpar_carrinho_pdv_gui`, `finalizar_venda_pdv`) with
 * the widgets taken out: the selected product, the typed quantity and the chosen customer
 * arrive as parameters, and every confirmation dialog is answered "yes".
 *
 * `carrinho_pdv` maps a product id to the product object and the staged quantity. It is
 * kept here as the sequence of its entries in insertion order, keyed by the product's id.
 * Staging only reserves: no stock is taken by the cart or by checkout.
 */
module PointOfSale {
  import opened Optional
  import opened Validation
  import opened OrderIds
  import opened OrderStatus
  import opened Entities
  import opened Shop

  /** One value of `carrinho_pdv`: the product object and the quantity staged for it. */
  datatype CartEntry = CartEntry(product: Product, quantity: int)

  /** The cart is a dict keyed by product id, and only positive quantities are ever staged. */
  ghost predicate CartOk(cart: seq<CartEntry>) {
    && (forall i, j {:trigger cart[i].product.id, cart[j].product.id} | 0 <= i < j < |cart| ::
          cart[i].product.id != cart[j].product.id)
    && (forall i | 0 <= i < |cart| :: cart[i].quantity > 0)
  }

  /** The position of the entry for product `id`, if the cart has one. */
  function FindEntry(cart: seq<CartEntry>, id: string): (r: Option<nat>)
    ensures r.Some? ==> r.value < |cart| && cart[r.value].product.id == id
    ensures r.None? <==> forall j | 0 <= j < |cart| :: cart[j].product.id != id
  {
    if cart == [] then None
    else if cart[0].product.id == id then Some(0)
    else match FindEntry(cart[1..], id)
      case None => None
      case Some(k) => Some(k + 1)
  }

  /** `self.carrinho_pdv.get(id_prod, {}).get("quantidade", 0)`. */
  function StagedQuantity(cart: seq<CartEntry>, id: string): int {
    match FindEntry(cart, id)
    case None => 0
    case Some(k) => cart[k].quantity
  }

  /** In a well-formed cart the entry for an id is the only one with that id. */
  lemma FoundIsOnly(cart: seq<CartEntry>, id: string, k: nat)
    requires CartOk(cart) && k < |cart| && cart[k].product.id == id
    ensures FindEntry(cart, id) == Some(k)
  {
  }

  /** The order line `ItemPedido(produto, quantidade)` that checkout makes of an entry. */
  function EntryLine(e: CartEntry): OrderLine
    reads e.product
  {
    OrderLine(e.product, e.quantity, e.product.price * e.quantity)
  }

  /** The lines a checkout copies into the new order, in cart order. */
  ghost function CartLines(cart: seq<CartEntry>): (lines: seq<OrderLine>)
    reads set i | 0 <= i < |cart| :: cart[i].product
    ensures |lines| == |cart|
    ensures forall i | 0 <= i < |cart| ::
              lines[i] == OrderLine(cart[i].product, cart[i].quantity, cart[i].product.price * cart[i].quantity)
  {
    if cart == [] then [] else CartLines(cart[..|cart| - 1]) + [EntryLine(cart[|cart| - 1])]
  }

  /** Before entry `i` is copied, the lines of the entries ahead of it have none for its product. */
  lemma NoEarlierLine(lines: seq<OrderLine>, cart: seq<CartEntry>, i: nat)
    requires CartOk(cart) && i < |cart| && |lines| == |cart|
    requires forall j | 0 <= j < |cart| :: lines[j].product == cart[j].product
    ensures FindLine(lines[..i], cart[i].product.id).None?
  {
    forall j | 0 <= j < i
      ensures lines[..i][j].product.id != cart[i].product.id
    {
      assert lines[j].product == cart[j].product;
    }
  }

  /** The ids of the entries whose product's stock no longer covers the staged quantity. */
  function Shortages(cart: seq<CartEntry>): seq<string>
    reads set i | 0 <= i < |cart| :: cart[i].product
  {
    if cart == [] then []
    else
      var e := cart[|cart| - 1];
      Shortages(cart[..|cart| - 1]) + (if e.product.stock < e.quantity then [e.product.id] else [])
  }

  /** No shortage is reported exactly when every staged quantity is covered by its product's stock. */
  lemma {:induction false} NoShortagesIffCovered(cart: seq<CartEntry>)
    ensures Shortages(cart) == [] <==> forall i | 0 <= i < |cart| :: cart[i].quantity <= cart[i].product.stock
  {
    if cart != [] {
      var init := cart[..|cart| - 1];
      NoShortagesIffCovered(init);
      assert forall i | 0 <= i < |init| :: init[i] == cart[i];
    }
  }

  /** Every id reported short belongs to an entry whose stock is below its staged quantity. */
  lemma {:induction false} ShortagesAreShort(cart: seq<CartEntry>, id: string)
    requires id in Shortages(cart)
    ensures exists i | 0 <= i < |cart| :: cart[i].product.id == id && cart[i].product.stock < cart[i].quantity
  {
    var init := cart[..|cart| - 1];
    if id in Shortages(init) {
      ShortagesAreShort(init, id);
      var i :| 0 <= i < |init| && init[i].product.id == id && init[i].product.stock < init[i].quantity;
      assert cart[i] == init[i];
    } else {
      assert cart[|cart| - 1].product.id == id;
    }
  }

  /** The first entry whose product is no longer offered for sale. */
  function FirstUnavailable(cart: seq<CartEntry>): (r: Option<nat>)
    reads set i | 0 <= i < |cart| :: cart[i].product
    ensures r.Some? ==> r.value < |cart| && !cart[r.value].product.available
    ensures r.Some? ==> forall j | 0 <= j < r.value :: cart[j].product.available
    ensures r.None? <==> forall j | 0 <= j < |cart| :: cart[j].product.available
  {
    if cart == [] then None
    else if !cart[0].product.available then Some(0)
    else match FirstUnavailable(cart[1..])
      case None => None
      case Some(k) => Some(k + 1)
  }

  /** The entry at `k` is the first unavailable one when it is unavailable and all before it are not. */
  lemma UnavailableAt(cart: seq<CartEntry>, k: nat)
    requires k < |cart| && !cart[k].product.available
    requires forall j | 0 <= j < k :: cart[j].product.available
    ensures FirstUnavailable(cart) == Some(k)
  {
  }

  /** Deleting the entry at `k` moves every later entry one place forward. */
  lemma RemovedIndex(cart: seq<CartEntry>, k: nat)
    requires k < |cart|
    ensures var after := cart[..k] + cart[k + 1..];
            |after| == |cart| - 1 && forall a | 0 <= a < |after| :: after[a] == cart[if a < k then a else a + 1]
  {
  }

  /** Deleting the entry at `k` unstages its product and leaves the quantity staged for `id` otherwise. */
  lemma RemovedEntryFor(cart: seq<CartEntry>, k: nat, id: string)
    requires CartOk(cart) && k < |cart|
    requires CartOk(cart[..k] + cart[k + 1..])
    ensures StagedQuantity(cart[..k] + cart[k + 1..], id)
            == if id == cart[k].product.id then 0 else StagedQuantity(cart, id)
  {
    var after := cart[..k] + cart[k + 1..];
    RemovedIndex(cart, k);
    var f := FindEntry(after, id);
    if f.Some? {
      var b := if f.value < k then f.value else f.value + 1;
      FoundIsOnly(cart, id, b);
    }
    if id != cart[k].product.id {
      var g := FindEntry(cart, id);
      if g.Some? {
        var a := if g.value < k then g.value else g.value - 1;
        FoundIsOnly(after, id, a);
      }
    }
  }

  /** Deleting the entry at `k` keeps the cart well formed and unstages that product only. */
  lemma RemovedEntry(cart: seq<CartEntry>, k: nat)
    requires CartOk(cart) && k < |cart|
    ensures CartOk(cart[..k] + cart[k + 1..])
    ensures forall id :: StagedQuantity(cart[..k] + cart[k + 1..], id)
                         == if id == cart[k].product.id then 0 else StagedQuantity(cart, id)
  {
    RemovedIndex(cart, k);
    forall id
      ensures StagedQuantity(cart[..k] + cart[k + 1..], id)
              == if id == cart[k].product.id then 0 else StagedQuantity(cart, id)
    {
      RemovedEntryFor(cart, k, id);
    }
  }

  /**
   * Staging `q` units of product `p`: the entry for its id grows, keeping its product
   * object, or a new entry is added last.
   */
  function StageEntry(cart: seq<CartEntry>, p: Product, q: int): seq<CartEntry> {
    match FindEntry(cart, p.id)
    case Some(k) => cart[k := CartEntry(cart[k].product, cart[k].quantity + q)]
    case None => cart + [CartEntry(p, q)]
  }

  /** Staging a positive quantity keeps the cart well formed and adds it to that product's staged quantity only. */
  lemma StagedEntry(cart: seq<CartEntry>, p: Product, q: int)
    requires CartOk(cart) && q > 0
    ensures CartOk(StageEntry(cart, p, q))
    ensures forall id :: StagedQuantity(StageEntry(cart, p, q), id)
                         == if id == p.id then StagedQuantity(cart, id) + q else StagedQuantity(cart, id)
  {
    var after := StageEntry(cart, p, q);
    match FindEntry(cart, p.id)
    case Some(k) =>
      FoundIsOnly(cart, p.id, k);
      FoundIsOnly(after, p.id, k);
      forall id | id != p.id
        ensures StagedQuantity(after, id) == StagedQuantity(cart, id)
      {
        var f := FindEntry(cart, id);
        if f.Some? {
          FoundIsOnly(after, id, f.value);
        }
      }
    case None =>
      FoundIsOnly(after, p.id, |cart|);
      forall id | id != p.id
        ensures StagedQuantity(after, id) == StagedQuantity(cart, id)
      {
        var f := FindEntry(cart, id);
        if f.Some? {
          FoundIsOnly(after, id, f.value);
        }
      }
  }

  /** Why the point of sale refused a request; one constructor per error message. */
  datatype PosFailure =
    | NotOffered | NotAQuantity | NotPositive | OverStock(staged: int, stock: int) | NotInCart | AlreadyEmpty
    | NoCustomer | EmptyCart | StockShortage(productIds: seq<string>) | OrderRefused(failure: Failure)
    | ItemRefused(productId: string, reason: AddOutcome)

  datatype PosOutcome = Done | Refused(why: PosFailure)

  /**
   * What `finalizar_venda_pdv` answers, given the stripped customer selection, the cart,
   * the ids the stock re-check reports, whether the customer is registered and the first
   * entry whose product is no longer available: the first check that fails, in the
   * source's order.
   */
  function SaleVerdict(customerId: string, cart: seq<CartEntry>, short: seq<string>, registered: bool, first: Option<nat>)
    : (r: PosOutcome)
    requires first.Some? ==> first.value < |cart|
    ensures r == Done <==> customerId != [] && cart != [] && short == [] && registered && first.None?
  {
    if customerId == [] then Refused(NoCustomer)
    else if cart == [] then Refused(EmptyCart)
    else if short != [] then Refused(StockShortage(short))
    else if !registered then Refused(OrderRefused(CustomerNotFound))
    else if first.Some? then Refused(ItemRefused(cart[first.value].product.id, Unavailable))
    else Done
  }

  /** The sales tab of `LanchoneteApp`: the snack bar it serves and its `carrinho_pdv`. */
  class Till {
    const shop: Lanchonete
    var cart: seq<CartEntry>

    constructor (shop: Lanchonete)
      ensures this.shop == shop && cart == []
    {
      this.shop := shop;
      cart := [];
    }

    /**
     * `adicionar_item_ao_carrinho_pdv`: the product must be in the catalogue and
     * available, the typed quantity an integer (`None` when `int()` fails) above zero,
     * and the quantity already staged plus the new one within the product's current
     * stock. An existing entry keeps its product object and grows; otherwise a new entry
     * is added last. A refusal leaves the cart as it was.
     */
    method AddToCart(productId: string, quantity: Option<int>) returns (r: PosOutcome)
      requires shop.cardapio.Valid() && CartOk(cart)
      modifies this`cart
      ensures CartOk(cart)
      ensures var offered := productId in shop.cardapio.products && shop.cardapio.products[productId].available;
              && (!offered ==> r == Refused(NotOffered))
              && (offered && quantity.None? ==> r == Refused(NotAQuantity))
              && (offered && quantity.Some? && quantity.value <= 0 ==> r == Refused(NotPositive))
              && (offered && quantity.Some? && quantity.value > 0 ==>
                    var stock := shop.cardapio.products[productId].stock;
                    var staged := StagedQuantity(old(cart), productId);
                    r == if staged + quantity.value > stock then Refused(OverStock(staged, stock)) else Done)
      ensures r != Done ==> cart == old(cart)
      ensures r == Done ==>
                var p := shop.cardapio.products[productId];
                && StagedQuantity(cart, productId) == StagedQuantity(old(cart), productId) + quantity.value
                && StagedQuantity(cart, productId) <= p.stock
                && cart == StageEntry(old(cart), p, quantity.value)
      ensures forall id | id != productId :: StagedQuantity(cart, id) == StagedQuantity(old(cart), id)
    {
      if productId !in shop.cardapio.products || !shop.cardapio.products[productId].available {
        return Refused(NotOffered);
      }
      var p := shop.cardapio.products[productId];
      if quantity.None? {
        return Refused(NotAQuantity);
      }
      var q := quantity.value;
      if q <= 0 {
        return Refused(NotPositive);
      }
      var staged := StagedQuantity(cart, productId);
      if staged + q > p.stock {
        return Refused(OverStock(staged, p.stock));
      }
      StagedEntry(cart, p, q);
      cart := StageEntry(cart, p, q);
      r := Done;
    }

    /** `remover_item_do_carrinho_pdv`: deletes the entry for the product, if there is one. */
    method RemoveFromCart(productId: string) returns (r: PosOutcome)
      requires CartOk(cart)
      modifies this`cart
      ensures CartOk(cart)
      ensures r == Done <==> FindEntry(old(cart), productId).Some?
      ensures r != Done ==> r == Refused(NotInCart) && cart == old(cart)
      ensures r == Done ==>
                var k := FindEntry(old(cart), productId).value;
                cart == old(cart)[..k] + old(cart)[k + 1..]
      ensures forall id :: StagedQuantity(cart, id) == if id == productId then 0 else StagedQuantity(old(cart), id)
    {
      match FindEntry(cart, productId)
      case None =>
        return Refused(NotInCart);
      case Some(k) =>
        RemovedEntry(cart, k);
        cart := cart[..k] + cart[k + 1..];
        r := Done;
    }

    /** `limpar_carrinho_pdv_gui`: empties a cart that has entries. */
    method ClearCart() returns (r: PosOutcome)
      modifies this`cart
      ensures r == Done <==> old(cart) != []
      ensures r != Done ==> r == Refused(AlreadyEmpty)
      ensures cart == []
    {
      if cart == [] {
        return Refused(AlreadyEmpty);
      }
      cart := [];
      r := Done;
    }

    /** The stock re-check of `finalizar_venda_pdv`: the entries whose stock is now too low. */
    method FindShortages() returns (short: seq<string>)
      ensures short == old(Shortages(cart))
    {
      short := [];
      var i := 0;
      while i < |cart|
        invariant 0 <= i <= |cart|
        invariant short == Shortages(cart[..i])
      {
        var e := cart[i];
        assert cart[..i + 1][..i] == cart[..i];
        if e.product.stock < e.quantity {
          short := short + [e.product.id];
        }
        i := i + 1;
      }
      assert cart[..i] == cart;
    }

    /**
     * One pass of the copy loop: `novo_pedido.adicionar_item` for entry `e`. With its
     * stock covering the staged quantity and no line for its product yet, the item is
     * added, as a new last line, exactly when the product is available.
     */
    method CopyEntry(o: Order, e: CartEntry) returns (copied: bool)
      requires 0 < e.quantity <= e.product.stock
      requires o.Valid() && FindLine(o.lines, e.product.id).None?
      modifies o
      ensures o.Valid() && o.status == old(o.status)
      ensures copied <==> e.product.available
      ensures o.lines == if copied then old(o.lines) + [OrderLine(e.product, e.quantity, e.product.price * e.quantity)] else old(o.lines)
    {
      var added := o.AddItem(e.product, e.quantity);
      copied := added == Added;
    }

    /**
     * The copy loop of `finalizar_venda_pdv`: `novo_pedido.adicionar_item` for every entry
     * in cart order. On an empty order, with every staged quantity covered, an entry is
     * refused only when its product is no longer available, and the loop stops there.
     */
    method CopyCart(o: Order, ghost lines: seq<OrderLine>, ghost first: Option<nat>) returns (failed: Option<nat>)
      requires o.Valid() && o.lines == [] && CartOk(cart)
      requires forall i | 0 <= i < |cart| :: cart[i].quantity <= cart[i].product.stock
      requires |lines| == |cart|
      requires forall i | 0 <= i < |cart| ::
                 lines[i] == OrderLine(cart[i].product, cart[i].quantity, cart[i].product.price * cart[i].quantity)
      requires first.Some? ==> first.value < |cart| && !cart[first.value].product.available
      requires first.Some? ==> forall j | 0 <= j < first.value :: cart[j].product.available
      requires first.None? ==> forall j | 0 <= j < |cart| :: cart[j].product.available
      modifies o
      ensures o.Valid() && o.status == old(o.status)
      ensures failed == first
      ensures failed.None? ==> o.lines == lines
    {
      var i := 0;
      while i < |cart|
        invariant 0 <= i <= |cart|
        invariant o.Valid() && o.status == old(o.status)
        invariant o.lines == lines[..i]
        invariant first.None? || first.value >= i
      {
        NoEarlierLine(lines, cart, i);
        var copied := CopyEntry(o, cart[i]);
        if !copied {
          assert first == Some(i);
          return Some(i);
        }
        assert lines[..i + 1] == lines[..i] + [lines[i]];
        i := i + 1;
      }
      assert lines[..i] == lines;
      failed := None;
    }

    /**
     * The rest of `finalizar_venda_pdv` once `criar_pedido` has filed the empty order `o`
     * (the book was `before` and `beforeIds` until then): the entries are copied into
     * it, and if one is refused the order is popped again, leaving the book as before;
     * otherwise the cart is emptied.
     */
    method Fill(o: Order, ghost before: map<string, Order>, ghost beforeIds: seq<string>,
                ghost lines: seq<OrderLine>, ghost first: Option<nat>) returns (failed: Option<nat>)
      requires shop.Valid() && CartOk(cart)
      requires forall i | 0 <= i < |cart| :: cart[i].quantity <= cart[i].product.stock
      requires o.Valid() && o.lines == []
      requires o.id !in before && before.Keys == Elems(beforeIds)
      requires shop.pedidos.orders == before[o.id := o] && shop.pedidos.ids == beforeIds + [o.id]
      requires |lines| == |cart|
      requires forall i | 0 <= i < |cart| ::
                 lines[i] == OrderLine(cart[i].product, cart[i].quantity, cart[i].product.price * cart[i].quantity)
      requires first.Some? ==> first.value < |cart| && !cart[first.value].product.available
      requires first.Some? ==> forall j | 0 <= j < first.value :: cart[j].product.available
      requires first.None? ==> forall j | 0 <= j < |cart| :: cart[j].product.available
      modifies this`cart, o, shop.pedidos`orders, shop.pedidos`ids
      ensures shop.Valid()
      ensures failed == first && o.status == old(o.status) && o.Valid()
      ensures failed.Some? ==> shop.pedidos.orders == before && shop.pedidos.ids == beforeIds && cart == old(cart)
      ensures failed.None? ==>
                && o.lines == lines && cart == []
                && shop.pedidos.orders == old(shop.pedidos.orders) && shop.pedidos.ids == old(shop.pedidos.ids)
    {
      failed := CopyCart(o, lines, first);
      forall k | k in shop.pedidos.orders ensures Filed(k, shop.pedidos.orders[k]) {
        assert old(Filed(k, shop.pedidos.orders[k]));
      }
      if failed.Some? {
        shop.pedidos.Pop(o.id);
        UndoFiling(before, beforeIds, o);
      } else {
        cart := [];
      }
    }

    /**
     * `criar_pedido` and the copy loop, for a customer id and a cart that passed the
     * checks before them; `lines` and `first` are the cart's lines and first unavailable
     * entry as they stand.
     */
    method PlaceOrder(customerId: string, now: int, ghost lines: seq<OrderLine>, ghost first: Option<nat>)
      returns (r: PosOutcome, o: Order?)
      requires shop.Valid() && CartOk(cart) && customerId != [] && cart != []
      requires forall i | 0 <= i < |cart| :: cart[i].quantity <= cart[i].product.stock
      requires |lines| == |cart|
      requires forall i | 0 <= i < |cart| ::
                 lines[i] == OrderLine(cart[i].product, cart[i].quantity, cart[i].product.price * cart[i].quantity)
      requires first.Some? ==> first.value < |cart| && !cart[first.value].product.available
      requires first.Some? ==> forall j | 0 <= j < first.value :: cart[j].product.available
      requires first.None? ==> forall j | 0 <= j < |cart| :: cart[j].product.available
      modifies this`cart, shop.pedidos
      ensures shop.Valid() && CartOk(cart)
      ensures r == SaleVerdict(customerId, old(cart), [], customerId in shop.clientes.customers, first)
      ensures shop.pedidos.counter == old(shop.pedidos.counter) + if customerId in shop.clientes.customers then 1 else 0
      ensures r != Done ==> o == null && cart == old(cart)
      ensures r != Done ==> shop.pedidos.orders == old(shop.pedidos.orders) && shop.pedidos.ids == old(shop.pedidos.ids)
      ensures r == Done ==>
                && o != null && fresh(o)
                && o.id == FormatOrderId(old(shop.pedidos.counter) + 1) && o.id !in old(shop.pedidos.orders)
                && shop.pedidos.orders == old(shop.pedidos.orders)[o.id := o]
                && shop.pedidos.ids == old(shop.pedidos.ids) + [o.id]
                && o.customerId == customerId && o.createdAt == now && o.status == Pending
                && o.lines == lines && o.total == Sum(o.lines)
                && cart == []
    {
      ghost var before, beforeIds := shop.pedidos.orders, shop.pedidos.ids;
      var created, order := shop.CreateOrder(customerId, now);
      if created != Ok {
        return Refused(OrderRefused(created.failure)), null;
      }
      var failed := Fill(order, before, beforeIds, lines, first);
      if failed.Some? {
        return Refused(ItemRefused(cart[failed.value].product.id, Unavailable)), null;
      }
      r, o := Done, order;
    }

    /**
     * `finalizar_venda_pdv`. The answer is the first check that fails, in the source's
     * order (`SaleVerdict`): a customer must be selected, the cart must have entries and
     * every staged quantity must still be covered by stock; only then does `criar_pedido`
     * run, which needs the customer to be registered and advances the order counter.
     * The entries are then copied into the new order; if one is refused the order is
     * popped again and the cart is kept. On success the cart is emptied. Checkout
     * changes only the cart and the order book: no product, and so no stock, is touched.
     */
    method Checkout(customerInput: string, now: int) returns (r: PosOutcome, o: Order?)
      requires shop.Valid() && CartOk(cart)
      modifies this`cart, shop.pedidos
      ensures shop.Valid() && CartOk(cart)
      ensures var id := Strip(customerInput);
              r == SaleVerdict(id, old(cart), old(Shortages(cart)), id in shop.clientes.customers, old(FirstUnavailable(cart)))
      ensures var id := Strip(customerInput);
              var reached := id != [] && old(cart) != [] && old(Shortages(cart)) == [] && id in shop.clientes.customers;
              shop.pedidos.counter == old(shop.pedidos.counter) + if reached then 1 else 0
      ensures r != Done ==> o == null && cart == old(cart)
      ensures r != Done ==> shop.pedidos.orders == old(shop.pedidos.orders) && shop.pedidos.ids == old(shop.pedidos.ids)
      ensures r == Done ==>
                && o != null && fresh(o)
                && o.id == FormatOrderId(old(shop.pedidos.counter) + 1) && o.id !in old(shop.pedidos.orders)
                && shop.pedidos.orders == old(shop.pedidos.orders)[o.id := o]
                && shop.pedidos.ids == old(shop.pedidos.ids) + [o.id]
                && o.customerId == Strip(customerInput) && o.createdAt == now && o.status == Pending
                && o.lines == old(CartLines(cart)) && o.total == Sum(o.lines)
                && cart == []
    {
      ghost var lines, first := CartLines(cart), FirstUnavailable(cart);
      var customerId := Strip(customerInput);
      if customerId == [] {
        return Refused(NoCustomer), null;
      }
      if cart == [] {
        return Refused(EmptyCart), null;
      }
      var short := FindShortages();
      if short != [] {
        return Refused(StockShortage(short)), null;
      }
      NoShortagesIffCovered(cart);
      r, o := PlaceOrder(customerId, now, lines, first);
    }
  }
}
