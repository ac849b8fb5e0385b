/**
 * The `Lanchonete` class of lanchonete.py: the catalogue (`cardapio`), the customer
 * register (`clientes`) and the order book (`pedidos`), with the validation that guards
 * every change and the one place stock is consumed, the move of an order to "Entregue".
 */
module Shop {
  import opened Optional
  import opened Validation
  import opened OrderIds
  import opened OrderStatus
  import opened Entities
  import opened Delivery

  /** The reasons the source's `(False, message)` answers give, one constructor per message. */
  datatype Failure =
    | InvalidId | DuplicateId | InvalidPrice | InvalidStock | EmptyName | InvalidPhone
    | ProductNotFound | CustomerNotFound | OrderNotFound | InvalidQuantity
    | ItemRejected(reason: AddOutcome) | LineNotFound
    | OutOfStock(productId: string) | ProductGone(productId: string) | InvalidStatus

  datatype Outcome = Ok | Err(failure: Failure)

  /** The checks of `adicionar_produto`, in the source's order. */
  function ProductCheck(id: string, price: int, stock: int, existing: set<string>): (r: Outcome)
    ensures r == Ok <==> ValidId(id) && id !in existing && price > 0 && stock >= 0
    ensures !ValidId(id) ==> r == Err(InvalidId)
    ensures ValidId(id) && id in existing ==> r == Err(DuplicateId)
  {
    if !ValidId(id) then Err(InvalidId)
    else if id in existing then Err(DuplicateId)
    else if price <= 0 then Err(InvalidPrice)
    else if stock < 0 then Err(InvalidStock)
    else Ok
  }

  /** The checks of `atualizar_produto_info` on the fields that are given. */
  function ProductUpdateCheck(name: Option<string>, price: Option<int>, stock: Option<int>): (r: Outcome)
    ensures r == Ok <==>
              (name.Some? ==> !IsBlank(name.value))
              && (price.Some? ==> price.value > 0)
              && (stock.Some? ==> stock.value >= 0)
  {
    if name.Some? && IsBlank(name.value) then Err(EmptyName)
    else if price.Some? && price.value <= 0 then Err(InvalidPrice)
    else if stock.Some? && stock.value < 0 then Err(InvalidStock)
    else Ok
  }

  /** The checks of `cadastrar_cliente`, in the source's order. */
  function CustomerCheck(c: Customer, existing: set<string>): (r: Outcome)
    ensures r == Ok <==> ValidId(c.id) && c.id !in existing && !IsBlank(c.name) && ValidPhone(c.phone)
    ensures ValidId(c.id) && c.id in existing ==> r == Err(DuplicateId)
  {
    if !ValidId(c.id) then Err(InvalidId)
    else if c.id in existing then Err(DuplicateId)
    else if IsBlank(c.name) then Err(EmptyName)
    else if !ValidPhone(c.phone) then Err(InvalidPhone)
    else Ok
  }

  /** The checks of `atualizar_info_cliente` on the fields that are given. */
  function CustomerUpdateCheck(name: Option<string>, phone: Option<string>): (r: Outcome)
    ensures r == Ok <==> (name.Some? ==> !IsBlank(name.value)) && (phone.Some? ==> ValidPhone(phone.value))
  {
    if name.Some? && IsBlank(name.value) then Err(EmptyName)
    else if phone.Some? && !ValidPhone(phone.value) then Err(InvalidPhone)
    else Ok
  }

  function ShortfallFailure(why: Shortfall): Failure {
    match why
    case NoProduct(id) => ProductGone(id)
    case NotEnough(id) => OutOfStock(id)
  }


  // --- The catalogue dict ---

  /** `Lanchonete.cardapio`: product id to product, the products shared with order lines. */
  class Catalogue {
    var products: map<string, Product>

    /** Every product is filed under its own valid id, with a positive price and no negative stock. */
    ghost predicate Valid()
      reads this, products.Values
    {
      forall k {:trigger products[k]} | k in products ::
        products[k].id == k && ValidId(k) && products[k].price > 0 && products[k].stock >= 0
    }

    /** The stock of every catalogue product, by id. */
    function StockLevels(): map<string, int>
      reads this, products.Values
    {
      map k | k in products :: products[k].stock
    }

    constructor ()
      ensures Valid() && products == map[]
    {
      products := map[];
    }

    /** `produto.estoque -= quantidade` on a catalogue product that has that much. */
    method Take(id: string, q: int)
      requires Valid() && id in products && q <= products[id].stock
      modifies products.Values`stock
      ensures Valid()
      ensures StockLevels() == old(StockLevels())[id := old(StockLevels())[id] - q]
    {
      var p := products[id];
      p.stock := p.stock - q;
    }

    /**
     * One pass of the deduction loop of `atualizar_status_pedido`: a missing or short
     * product stops the delivery, otherwise the line's quantity is taken from its stock.
     */
    method Serve(d: Demand) returns (short: Option<Shortfall>)
      requires Valid()
      modifies products.Values`stock
      ensures Valid()
      ensures var one := DeliverAsWritten(old(StockLevels()), [d]);
              StockLevels() == one.stock && short == (if one.Failed? then Some(one.why) else None)
    {
      assert [d][1..] == [];
      if d.productId !in products {
        return Some(NoProduct(d.productId));
      }
      if products[d.productId].stock < d.quantity {
        return Some(NotEnough(d.productId));
      }
      Take(d.productId, d.quantity);
      short := None;
    }

    /**
     * The deduction loop of `atualizar_status_pedido`, as written: each demand in turn
     * is taken from its product's stock, and the loop stops at the first missing or
     * short product, keeping what it already deducted.
     */
    method Deliver(demands: seq<Demand>) returns (short: Option<Shortfall>)
      requires Valid()
      modifies products.Values`stock
      ensures Valid()
      ensures var d := DeliverAsWritten(old(StockLevels()), demands);
              StockLevels() == d.stock && short == (if d.Failed? then Some(d.why) else None)
    {
      ghost var before := StockLevels();
      var i := 0;
      while i < |demands|
        invariant 0 <= i <= |demands|
        invariant Valid()
        invariant DeliverAsWritten(before, demands) == DeliverAsWritten(StockLevels(), demands[i..])
      {
        DeliverStep(StockLevels(), demands, i);
        short := Serve(demands[i]);
        if short.Some? {
          return;
        }
        i := i + 1;
      }
      short := None;
    }

    /** Finds the first demand the stock cannot serve, changing nothing. */
    method FindShortfall(demands: seq<Demand>) returns (short: Option<Shortfall>)
      ensures short == FirstShortfall(StockLevels(), demands)
    {
      var i := 0;
      while i < |demands|
        invariant 0 <= i <= |demands|
        invariant FirstShortfall(StockLevels(), demands) == FirstShortfall(StockLevels(), demands[i..])
      {
        var d := demands[i];
        assert demands[i..][1..] == demands[i + 1..];
        if d.productId !in products {
          return Some(NoProduct(d.productId));
        }
        if products[d.productId].stock < d.quantity {
          return Some(NotEnough(d.productId));
        }
        i := i + 1;
      }
      short := None;
    }

    /**
     * Checks every demand first and deducts only when all can be served: the
     * all-or-nothing delivery, for demands that name each product at most once.
     */
    method DeliverChecked(demands: seq<Demand>) returns (short: Option<Shortfall>)
      requires Valid() && DistinctIds(demands)
      modifies products.Values`stock
      ensures Valid()
      ensures var d := DeliverValidated(old(StockLevels()), demands);
              StockLevels() == d.stock && short == (if d.Failed? then Some(d.why) else None)
    {
      short := FindShortfall(demands);
      if short.None? {
        ValidatedAgreesWithAsWritten(StockLevels(), demands);
        short := Deliver(demands);
      }
    }
  }

  // --- The customer dict ---

  /** Order `o` belongs to a registered customer. */
  ghost predicate Registered(o: Order, customers: map<string, Customer>) {
    o.customerId in customers
  }

  /** Every order belongs to a registered customer. */
  ghost predicate CustomersKnown(orders: map<string, Order>, customers: map<string, Customer>) {
    forall k {:trigger Registered(orders[k], customers)} | k in orders :: Registered(orders[k], customers)
  }

  lemma KnownAfterFiling(orders: map<string, Order>, customers: map<string, Customer>, o: Order)
    requires CustomersKnown(orders, customers) && o.customerId in customers
    ensures CustomersKnown(orders[o.id := o], customers)
  {
  }

  /** Customer `c` may be filed under `k`: its own valid id, a name and a valid phone. */
  ghost predicate CustomerFiled(k: string, c: Customer) {
    c.id == k && ValidId(k) && !IsBlank(c.name) && ValidPhone(c.phone)
  }

  /** Every customer is filed under its own valid id, with a name and a valid phone. */
  ghost predicate CustomersOk(customers: map<string, Customer>) {
    forall k {:trigger CustomerFiled(k, customers[k])} | k in customers :: CustomerFiled(k, customers[k])
  }

  /** A customer that passes the checks can be filed under its id, new or replacing the old record. */
  lemma FileCustomer(customers: map<string, Customer>, orders: map<string, Order>, c: Customer)
    requires CustomersOk(customers) && CustomersKnown(orders, customers)
    requires ValidId(c.id) && !IsBlank(c.name) && ValidPhone(c.phone)
    ensures CustomersOk(customers[c.id := c]) && CustomersKnown(orders, customers[c.id := c])
  {
    forall k | k in orders ensures Registered(orders[k], customers[c.id := c]) {
      assert Registered(orders[k], customers);
    }
  }

  /** `Lanchonete.clientes`: customer id to customer. */
  class Register {
    var customers: map<string, Customer>

    ghost predicate Valid()
      reads this
    {
      CustomersOk(customers)
    }

    constructor ()
      ensures Valid() && customers == map[]
    {
      customers := map[];
    }
  }

  // --- The order dict and the order counter ---

  /** The strings listed in `s`. */
  ghost function Elems(s: seq<string>): set<string> {
    if s == [] then {} else Elems(s[..|s| - 1]) + {s[|s| - 1]}
  }

  lemma ElemsAppend(s: seq<string>, x: string)
    ensures Elems(s + [x]) == Elems(s) + {x}
  {
    assert (s + [x])[..|s|] == s;
  }

  lemma {:induction false} ElemsMembership(s: seq<string>, x: string)
    ensures x in Elems(s) <==> x in s
  {
    if s != [] {
      ElemsMembership(s[..|s| - 1], x);
      assert s == s[..|s| - 1] + [s[|s| - 1]];
    }
  }

  /** No string is listed twice. */
  ghost predicate NoDuplicates(s: seq<string>) {
    s == [] || (s[|s| - 1] !in s[..|s| - 1] && NoDuplicates(s[..|s| - 1]))
  }

  /** `s` with every occurrence of `x` dropped, the rest in order. */
  function Without(s: seq<string>, x: string): seq<string> {
    if s == [] then []
    else Without(s[..|s| - 1], x) + (if s[|s| - 1] == x then [] else [s[|s| - 1]])
  }

  lemma {:induction false} WithoutElems(s: seq<string>, x: string)
    ensures Elems(Without(s, x)) == Elems(s) - {x}
  {
    if s != [] {
      var init, last := s[..|s| - 1], s[|s| - 1];
      WithoutElems(init, x);
      if last != x {
        ElemsAppend(Without(init, x), last);
      } else {
        assert Without(init, x) + [] == Without(init, x);
      }
    }
  }

  lemma {:induction false} WithoutKeepsDistinct(s: seq<string>, x: string)
    requires NoDuplicates(s)
    ensures NoDuplicates(Without(s, x))
  {
    if s != [] {
      var init, last := s[..|s| - 1], s[|s| - 1];
      WithoutKeepsDistinct(init, x);
      var w := Without(init, x);
      if last != x {
        WithoutElems(init, x);
        ElemsMembership(w, last);
        ElemsMembership(init, last);
        assert (w + [last])[..|w|] == w;
      } else {
        assert w + [] == w;
      }
    }
  }

  /** Dropping the id that was appended last gives back the list as it was. */
  lemma {:induction false} WithoutLast(s: seq<string>, x: string)
    requires x !in s
    ensures Without(s + [x], x) == s
  {
    assert (s + [x])[..|s|] == s;
    WithoutAbsent(s, x);
  }

  lemma {:induction false} WithoutAbsent(s: seq<string>, x: string)
    requires x !in s
    ensures Without(s, x) == s
  {
    if s != [] {
      WithoutAbsent(s[..|s| - 1], x);
    }
  }

  /**
   * No id the counter will still hand out is taken yet, and `ids` lists exactly the keys,
   * once each.
   */
  ghost predicate NumberingOk(keys: set<string>, ids: seq<string>, counter: nat) {
    && (forall n: nat | n > counter :: FormatOrderId(n) !in keys)
    && keys == Elems(ids) && NoDuplicates(ids)
  }

  /** The next number gives an id not yet in use, and advancing the counter keeps numbering sound. */
  lemma NextNumber(keys: set<string>, ids: seq<string>, counter: nat)
    requires NumberingOk(keys, ids, counter)
    ensures FormatOrderId(counter + 1) !in keys
    ensures NumberingOk(keys, ids, counter + 1)
  {
  }

  /** Filing the id the counter last handed out keeps numbering sound. */
  lemma FileNumber(keys: set<string>, ids: seq<string>, counter: nat)
    requires NumberingOk(keys, ids, counter) && FormatOrderId(counter) !in keys
    ensures NumberingOk(keys + {FormatOrderId(counter)}, ids + [FormatOrderId(counter)], counter)
  {
    var id := FormatOrderId(counter);
    ElemsMembership(ids, id);
    ElemsAppend(ids, id);
    assert (ids + [id])[..|ids|] == ids;
    forall n: nat | n > counter
      ensures FormatOrderId(n) !in keys + {id}
    {
      if FormatOrderId(n) == id {
        FormatInjective(n, counter);
      }
    }
  }

  /** Order `o` is filed under its own id and is consistent. */
  ghost predicate Filed(k: string, o: Order)
    reads o
  {
    o.id == k && o.Valid()
  }

  /** Every order is filed under its own id and keeps its total equal to the sum of its lines. */
  ghost predicate OrdersFiled(orders: map<string, Order>)
    reads orders.Values
  {
    forall k {:trigger Filed(k, orders[k])} | k in orders :: Filed(k, orders[k])
  }

  /** Filing the order just numbered keeps every order filed and numbering sound. */
  lemma FileKeepsBookSound(orders: map<string, Order>, ids: seq<string>, counter: nat, o: Order)
    requires OrdersFiled(orders) && NumberingOk(orders.Keys, ids, counter)
    requires o.Valid() && o.id == FormatOrderId(counter) && o.id !in orders
    ensures OrdersFiled(orders[o.id := o]) && NumberingOk(orders[o.id := o].Keys, ids + [o.id], counter)
  {
    FileNumber(orders.Keys, ids, counter);
    assert orders[o.id := o].Keys == orders.Keys + {o.id};
  }

  /** Dropping an order keeps every other order filed and numbering sound. */
  lemma DropKeepsBookSound(orders: map<string, Order>, ids: seq<string>, counter: nat, id: string)
    requires OrdersFiled(orders) && NumberingOk(orders.Keys, ids, counter)
    ensures OrdersFiled(orders - {id}) && NumberingOk((orders - {id}).Keys, Without(ids, id), counter)
  {
    WithoutElems(ids, id);
    WithoutKeepsDistinct(ids, id);
    assert (orders - {id}).Keys == orders.Keys - {id};
  }

  /** Popping the order just filed gives the book back as it was before the filing. */
  lemma UndoFiling(orders: map<string, Order>, ids: seq<string>, o: Order)
    requires o.id !in orders && orders.Keys == Elems(ids)
    ensures orders[o.id := o] - {o.id} == orders
    ensures Without(ids + [o.id], o.id) == ids
  {
    ElemsMembership(ids, o.id);
    WithoutLast(ids, o.id);
  }

  /** `pedidos` with the orders in insertion order and the class-level `Pedido._id_counter`. */
  class OrderBook {
    var orders: map<string, Order>
    /** The keys of `orders` in the order they were inserted (Python dicts keep it). */
    var ids: seq<string>
    /** The number of the last automatically numbered order. */
    var counter: nat

    /** Every order is filed under its own id and keeps its total equal to the sum of its lines. */
    ghost predicate Valid()
      reads this, orders.Values
    {
      OrdersFiled(orders) && NumberingOk(orders.Keys, ids, counter)
    }

    constructor ()
      ensures Valid() && orders == map[] && ids == [] && counter == 0
    {
      orders := map[];
      ids := [];
      counter := 0;
    }

    /**
     * `Pedido(id_cliente)` with no explicit id: the class-level counter advances and the
     * new empty "Pendente" order takes "PED" + the counter. The book itself is unchanged,
     * and that id is not in it.
     */
    method NewOrder(customerId: string, now: int) returns (o: Order)
      requires Valid()
      modifies this`counter
      ensures Valid() && fresh(o) && o.Valid()
      ensures counter == old(counter) + 1
      ensures o.id == FormatOrderId(counter) && o.id !in orders
      ensures o.customerId == customerId && o.createdAt == now
      ensures o.lines == [] && o.status == Pending && o.total == 0
    {
      var numbering := NumberOrder(counter, "").value;
      NextNumber(orders.Keys, ids, counter);
      o := new Order(numbering.id, customerId, now);
      counter := numbering.counter;
      assert OrdersFiled(orders) && NumberingOk(orders.Keys, ids, counter);
    }

    /**
     * `self.pedidos[novo_pedido.id_pedido] = novo_pedido` for the order just numbered:
     * the order is filed under its id, last in insertion order, and nothing is overwritten.
     */
    method Insert(o: Order)
      requires Valid() && o.Valid() && o.id == FormatOrderId(counter) && o.id !in orders
      modifies this`orders, this`ids
      ensures Valid()
      ensures orders == old(orders)[o.id := o] && ids == old(ids) + [o.id]
    {
      FileKeepsBookSound(orders, ids, counter, o);
      orders, ids := orders[o.id := o], ids + [o.id];
    }

    /** `criar_pedido` once the customer is known: the new order is numbered, then filed. */
    method Open(customerId: string, now: int) returns (o: Order)
      requires Valid()
      modifies this
      ensures Valid() && fresh(o)
      ensures o.id == FormatOrderId(old(counter) + 1) && o.id !in old(orders)
      ensures orders == old(orders)[o.id := o] && ids == old(ids) + [o.id]
      ensures counter == old(counter) + 1
      ensures o.customerId == customerId && o.createdAt == now
      ensures o.lines == [] && o.status == Pending && o.total == 0
    {
      o := NewOrder(customerId, now);
      Insert(o);
    }

    /**
     * `pedidos.pop(id)` on an id that is present: the entry and its place in the
     * insertion order go, the counter stays where it is.
     */
    method Pop(id: string)
      requires Valid() && id in orders
      modifies this`orders, this`ids
      ensures Valid()
      ensures orders == old(orders) - {id} && ids == Without(old(ids), id)
    {
      DropKeepsBookSound(orders, ids, counter, id);
      orders, ids := orders - {id}, Without(ids, id);
    }
  }

  // --- The snack bar ---

  /** `Lanchonete`: the three dicts and the rules that guard every change to them. */
  class Lanchonete {
    const name: string
    const cardapio: Catalogue
    const clientes: Register
    const pedidos: OrderBook

    ghost predicate Valid()
      reads cardapio, cardapio.products.Values, clientes, pedidos, pedidos.orders.Values
    {
      && cardapio.Valid() && clientes.Valid() && pedidos.Valid()
      && CustomersKnown(pedidos.orders, clientes.customers)
    }

    /** A new snack bar with an empty catalogue, register and order book (no data file). */
    constructor (name: string)
      ensures Valid() && this.name == name && fresh(cardapio) && fresh(clientes) && fresh(pedidos)
      ensures cardapio.products == map[] && clientes.customers == map[]
      ensures pedidos.orders == map[] && pedidos.ids == [] && pedidos.counter == 0
    {
      this.name := name;
      cardapio := new Catalogue();
      clientes := new Register();
      pedidos := new OrderBook();
    }

    // --- Products ---

    /** `adicionar_produto`: inserts exactly the product's id, or rejects with nothing changed. */
    method AddProduct(p: Product) returns (r: Outcome)
      requires Valid()
      modifies cardapio`products
      ensures Valid()
      ensures r == ProductCheck(p.id, p.price, p.stock, old(cardapio.products).Keys)
      ensures cardapio.products == if r == Ok then old(cardapio.products)[p.id := p] else old(cardapio.products)
    {
      r := ProductCheck(p.id, p.price, p.stock, cardapio.products.Keys);
      if r == Ok {
        cardapio.products := cardapio.products[p.id := p];
      }
    }

    /** `remover_produto`: deletes the entry; orders that still refer to the product keep it. */
    method RemoveProduct(id: string) returns (r: Outcome)
      requires Valid()
      modifies cardapio`products
      ensures Valid()
      ensures r == if id in old(cardapio.products) then Ok else Err(ProductNotFound)
      ensures cardapio.products == old(cardapio.products) - {id}
    {
      if id in cardapio.products {
        cardapio.products := cardapio.products - {id};
        return Ok;
      }
      r := Err(ProductNotFound);
    }

    /**
     * `atualizar_produto_info`: validates the given fields, then updates the product in
     * place; a missing product or a failed check changes nothing.
     */
    method UpdateProductInfo(id: string, name: Option<string>, price: Option<int>, stock: Option<int>)
      returns (r: Outcome)
      requires Valid()
      modifies if id in cardapio.products then {cardapio.products[id]} else {}
      ensures Valid()
      ensures id !in cardapio.products ==> r == Err(ProductNotFound)
      ensures id in cardapio.products ==> r == ProductUpdateCheck(name, price, stock)
      ensures id in cardapio.products ==>
                var p := cardapio.products[id];
                && p.name == (if r == Ok && name.Some? then name.value else old(p.name))
                && p.price == (if r == Ok && price.Some? then price.value else old(p.price))
                && p.stock == (if r == Ok && stock.Some? then stock.value else old(p.stock))
                && p.available == old(p.available)
    {
      if id !in cardapio.products {
        return Err(ProductNotFound);
      }
      var p := cardapio.products[id];
      r := ProductUpdateCheck(name, price, stock);
      if r == Ok {
        p.UpdateInfo(name, price, stock);
      }
    }

    /** `atualizar_disponibilidade_produto`: sets the flag, never the stock. */
    method UpdateProductAvailability(id: string, available: bool) returns (r: Outcome)
      requires Valid()
      modifies if id in cardapio.products then {cardapio.products[id]} else {}
      ensures Valid()
      ensures r == if id in cardapio.products then Ok else Err(ProductNotFound)
      ensures id in cardapio.products ==>
                var p := cardapio.products[id];
                p.available == available && p.stock == old(p.stock)
                && p.price == old(p.price) && p.name == old(p.name)
    {
      if id !in cardapio.products {
        return Err(ProductNotFound);
      }
      cardapio.products[id].UpdateAvailability(available);
      r := Ok;
    }

    // --- Customers ---

    /** `cadastrar_cliente`: inserts exactly the customer's id, or rejects with nothing changed. */
    method RegisterCustomer(c: Customer) returns (r: Outcome)
      requires Valid()
      modifies clientes
      ensures Valid()
      ensures r == CustomerCheck(c, old(clientes.customers).Keys)
      ensures clientes.customers == if r == Ok then old(clientes.customers)[c.id := c] else old(clientes.customers)
    {
      r := CustomerCheck(c, clientes.customers.Keys);
      if r == Ok {
        FileCustomer(clientes.customers, pedidos.orders, c);
        clientes.customers := clientes.customers[c.id := c];
      }
    }

    /** `buscar_cliente`: the customer registered under `id`, if any. */
    function FindCustomer(id: string): (r: Option<Customer>)
      reads clientes
      requires clientes.Valid()
      ensures r.Some? <==> id in clientes.customers
      ensures r.Some? ==> r.value.id == id && !IsBlank(r.value.name) && ValidPhone(r.value.phone)
    {
      if id in clientes.customers then
        assert CustomerFiled(id, clientes.customers[id]);
        Some(clientes.customers[id])
      else
        None
    }

    /** `atualizar_info_cliente`: validates the given fields, then applies `Cliente.atualizar_info`. */
    method UpdateCustomerInfo(id: string, name: Option<string>, phone: Option<string>, address: Option<string>)
      returns (r: Outcome)
      requires Valid()
      modifies clientes
      ensures Valid()
      ensures id !in old(clientes.customers) ==> r == Err(CustomerNotFound)
      ensures id in old(clientes.customers) ==> r == CustomerUpdateCheck(name, phone)
      ensures clientes.customers ==
                if r == Ok then old(clientes.customers)[id := UpdateCustomer(old(clientes.customers)[id], name, phone, address)]
                else old(clientes.customers)
    {
      if id !in clientes.customers {
        return Err(CustomerNotFound);
      }
      r := CustomerUpdateCheck(name, phone);
      if r == Ok {
        assert CustomerFiled(id, clientes.customers[id]);
        var c := UpdateCustomer(clientes.customers[id], name, phone, address);
        FileCustomer(clientes.customers, pedidos.orders, c);
        clientes.customers := clientes.customers[id := c];
      }
    }

    // --- Orders ---

    /**
     * `criar_pedido`: for a registered customer, `Pedido(id_cliente)` takes the next
     * counter value and the order is filed under "PED" + the counter; the id is never one
     * already in the book, so no order is overwritten. An unknown customer changes nothing.
     */
    method CreateOrder(customerId: string, now: int) returns (r: Outcome, o: Order?)
      requires Valid()
      modifies pedidos
      ensures r == Ok <==> customerId in clientes.customers
      ensures r != Ok ==> r == Err(CustomerNotFound) && o == null && unchanged(pedidos)
      ensures r == Ok ==>
                && o != null && fresh(o)
                && o.id == FormatOrderId(old(pedidos.counter) + 1) && o.id !in old(pedidos.orders)
                && pedidos.orders == old(pedidos.orders)[o.id := o] && pedidos.ids == old(pedidos.ids) + [o.id]
                && pedidos.counter == old(pedidos.counter) + 1
                && o.customerId == customerId && o.createdAt == now
                && o.lines == [] && o.status == Pending && o.total == 0
      ensures Valid()
    {
      if customerId !in clientes.customers {
        return Err(CustomerNotFound), null;
      }
      o := pedidos.Open(customerId, now);
      KnownAfterFiling(old(pedidos.orders), clientes.customers, o);
      r := Ok;
    }

    /** `buscar_pedido`: the order filed under `id`, if any. */
    function FindOrder(id: string): (o: Order?)
      reads pedidos, pedidos.orders.Values
      requires pedidos.Valid()
      ensures o != null <==> id in pedidos.orders
      ensures o != null ==> o.id == id && o.Valid()
    {
      if id in pedidos.orders then
        assert Filed(id, pedidos.orders[id]);
        pedidos.orders[id]
      else
        null
    }

    /**
     * `adicionar_item_a_pedido`: looks up order and product, requires a positive
     * quantity and delegates to `Pedido.adicionar_item`. Stock is only checked here,
     * never taken.
     */
    method AddItemToOrder(orderId: string, productId: string, quantity: int) returns (r: Outcome)
      requires Valid()
      modifies if orderId in pedidos.orders then {pedidos.orders[orderId]} else {}
      ensures Valid()
      ensures orderId !in pedidos.orders ==> r == Err(OrderNotFound)
      ensures orderId in pedidos.orders && productId !in cardapio.products ==> r == Err(ProductNotFound)
      ensures orderId in pedidos.orders && productId in cardapio.products && quantity <= 0 ==> r == Err(InvalidQuantity)
      ensures orderId in pedidos.orders && productId in cardapio.products && quantity > 0 ==>
                var o := FindOrder(orderId);
                var p := cardapio.products[productId];
                var d := AddDecision(p.available, p.stock, ExistingQuantity(old(o.lines), productId), quantity);
                r == (if d == Added then Ok else Err(ItemRejected(d)))
      ensures orderId in pedidos.orders ==>
                var o := FindOrder(orderId);
                && o.status == old(o.status)
                && (r != Ok ==> o.lines == old(o.lines) && o.total == old(o.total))
                && (r == Ok ==>
                      var before := ExistingQuantity(old(o.lines), productId);
                      ExistingQuantity(o.lines, productId) == Some((if before.Some? then before.value else 0) + quantity))
    {
      if orderId !in pedidos.orders {
        return Err(OrderNotFound);
      }
      if productId !in cardapio.products {
        return Err(ProductNotFound);
      }
      if quantity <= 0 {
        return Err(InvalidQuantity);
      }
      var o := FindOrder(orderId);
      var p := cardapio.products[productId];
      ghost var oldLines := o.lines;
      var d := o.AddItem(p, quantity);
      if d == Added {
        ghost var at := FindLine(oldLines, productId);
        if at.Some? {
          assert o.lines[at.value].product.id == productId;
          assert FindLine(o.lines, productId) == at;
        } else {
          assert o.lines[|oldLines|].product.id == productId;
          assert FindLine(o.lines, productId) == Some(|oldLines|);
        }
        r := Ok;
      } else {
        r := Err(ItemRejected(d));
      }
      forall k | k in pedidos.orders ensures Filed(k, pedidos.orders[k]) {
        assert old(Filed(k, pedidos.orders[k]));
      }
    }

    /** The deduction loop of `atualizar_status_pedido` run on the catalogue for `lines`. */
    method DeliverLines(lines: seq<OrderLine>) returns (short: Option<Shortfall>)
      requires Valid()
      modifies cardapio.products.Values`stock
      ensures Valid()
      ensures var d := DeliverAsWritten(old(cardapio.StockLevels()), Demands(lines));
              cardapio.StockLevels() == d.stock && short == (if d.Failed? then Some(d.why) else None)
    {
      short := cardapio.Deliver(Demands(lines));
    }

    /** The all-or-nothing delivery run on the catalogue for the lines of an order. */
    method DeliverLinesChecked(lines: seq<OrderLine>) returns (short: Option<Shortfall>)
      requires Valid() && DistinctProducts(lines)
      modifies cardapio.products.Values`stock
      ensures Valid()
      ensures var d := DeliverValidated(old(cardapio.StockLevels()), Demands(lines));
              cardapio.StockLevels() == d.stock && short == (if d.Failed? then Some(d.why) else None)
    {
      DistinctLinesGiveDistinctDemands(lines);
      short := cardapio.DeliverChecked(Demands(lines));
    }

    /** `pedido.atualizar_status(novo_status)` on a filed order, reported as an outcome. */
    method SetStatus(orderId: string, newStatus: string) returns (r: Outcome)
      requires Valid() && orderId in pedidos.orders
      modifies pedidos.orders[orderId]
      ensures Valid()
      ensures var o := pedidos.orders[orderId];
              && r == (if Parse(newStatus).Some? then Ok else Err(InvalidStatus))
              && o.status == (if r == Ok then Parse(newStatus).value else old(o.status))
              && o.lines == old(o.lines) && o.total == old(o.total)
      ensures cardapio.StockLevels() == old(cardapio.StockLevels())
    {
      assert Filed(orderId, pedidos.orders[orderId]);
      var ok := pedidos.orders[orderId].UpdateStatus(newStatus);
      forall k | k in pedidos.orders ensures Filed(k, pedidos.orders[k]) {
        assert old(Filed(k, pedidos.orders[k]));
      }
      r := if ok then Ok else Err(InvalidStatus);
    }

    /**
     * `atualizar_status_pedido`. Moving an order into "Entregue" from any other status
     * first runs the deduction loop over its lines (`Catalogue.Deliver`); a missing or
     * short product stops it with the status unchanged, but the deductions already made
     * stay. Any other move, and "Entregue" again on a delivered order, leaves the stock
     * alone. The status itself changes only to one of the five known names.
     */
    method UpdateOrderStatus(orderId: string, newStatus: string) returns (r: Outcome)
      requires Valid()
      modifies (if orderId in pedidos.orders then {pedidos.orders[orderId]} else {}), cardapio.products.Values`stock
      ensures Valid()
      ensures orderId !in pedidos.orders ==> r == Err(OrderNotFound) && cardapio.StockLevels() == old(cardapio.StockLevels())
      ensures orderId in pedidos.orders ==>
                var o := FindOrder(orderId);
                var delivering := newStatus == "Entregue" && old(o.status) != Delivered;
                var d := DeliverAsWritten(old(cardapio.StockLevels()), Demands(old(o.lines)));
                && o.lines == old(o.lines) && o.total == old(o.total)
                && (delivering ==> cardapio.StockLevels() == d.stock)
                && (delivering && d.Failed? ==> r == Err(ShortfallFailure(d.why)) && o.status == old(o.status))
                && (delivering && d.Deducted? ==> r == Ok && o.status == Delivered)
                && (!delivering ==> cardapio.StockLevels() == old(cardapio.StockLevels()))
                && (!delivering ==> r == (if Parse(newStatus).Some? then Ok else Err(InvalidStatus)))
                && (!delivering ==> o.status == if r == Ok then Parse(newStatus).value else old(o.status))
    {
      if orderId !in pedidos.orders {
        return Err(OrderNotFound);
      }
      var o := FindOrder(orderId);
      if newStatus == "Entregue" && o.status != Delivered {
        var short := DeliverLines(o.lines);
        if short.Some? {
          return Err(ShortfallFailure(short.value));
        }
      }
      r := SetStatus(orderId, newStatus);
    }

    /**
     * The evidently intended delivery: every line is checked against the stock first
     * (`Catalogue.FindShortfall`), and the stock is deducted only when all of them can
     * be served, so a refused delivery leaves every stock level as it was.
     */
    method UpdateOrderStatusAtomic(orderId: string, newStatus: string) returns (r: Outcome)
      requires Valid()
      modifies (if orderId in pedidos.orders then {pedidos.orders[orderId]} else {}), cardapio.products.Values`stock
      ensures Valid()
      ensures orderId !in pedidos.orders ==> r == Err(OrderNotFound) && cardapio.StockLevels() == old(cardapio.StockLevels())
      ensures orderId in pedidos.orders ==>
                var o := FindOrder(orderId);
                var delivering := newStatus == "Entregue" && old(o.status) != Delivered;
                var d := DeliverValidated(old(cardapio.StockLevels()), Demands(old(o.lines)));
                && o.lines == old(o.lines) && o.total == old(o.total)
                && (delivering ==> cardapio.StockLevels() == d.stock)
                && (delivering && d.Failed? ==> r == Err(ShortfallFailure(d.why)) && o.status == old(o.status))
                && (delivering && d.Deducted? ==> r == Ok && o.status == Delivered)
                && (!delivering ==> cardapio.StockLevels() == old(cardapio.StockLevels()))
                && (!delivering ==> r == (if Parse(newStatus).Some? then Ok else Err(InvalidStatus)))
                && (!delivering ==> o.status == if r == Ok then Parse(newStatus).value else old(o.status))
    {
      if orderId !in pedidos.orders {
        return Err(OrderNotFound);
      }
      var o := FindOrder(orderId);
      if newStatus == "Entregue" && o.status != Delivered {
        var short := DeliverLinesChecked(o.lines);
        if short.Some? {
          return Err(ShortfallFailure(short.value));
        }
      }
      r := SetStatus(orderId, newStatus);
    }

    /** `remover_item_de_pedido`: delegates to `Pedido.remover_item`. */
    method RemoveItemFromOrder(orderId: string, productId: string) returns (r: Outcome)
      requires Valid()
      modifies if orderId in pedidos.orders then {pedidos.orders[orderId]} else {}
      ensures Valid()
      ensures orderId !in pedidos.orders ==> r == Err(OrderNotFound)
      ensures orderId in pedidos.orders ==>
                var o := FindOrder(orderId);
                var k := FindLine(old(o.lines), productId);
                && (r == Ok <==> k.Some?)
                && (r != Ok ==> r == Err(LineNotFound) && o.lines == old(o.lines))
                && (r == Ok ==> o.lines == old(o.lines)[..k.value] + old(o.lines)[k.value + 1..])
                && o.total == Sum(o.lines) && o.status == old(o.status)
    {
      if orderId !in pedidos.orders {
        return Err(OrderNotFound);
      }
      assert Filed(orderId, pedidos.orders[orderId]);
      var removed := pedidos.orders[orderId].RemoveItem(productId);
      forall k | k in pedidos.orders ensures Filed(k, pedidos.orders[k]) {
        assert old(Filed(k, pedidos.orders[k]));
      }
      r := if removed then Ok else Err(LineNotFound);
    }
  }
}
