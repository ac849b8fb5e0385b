/**
 * The model classes of lanchonete.py: `Produto`, `ItemPedido`, `Pedido` and `Cliente`.
 * Money is in integer cents. A product is an object shared by reference: the catalogue,
 * order lines and point-of-sale cart entries all point at the same `Product`, so a stock
 * or name change made through the catalogue is seen everywhere.
 */
module Entities {
  import opened Optional
  import opened OrderStatus

  /** `Produto`: id, name, unit price (cents), availability flag and stock count. */
  class Product {
    const id: string
    var name: string
    var price: int
    var available: bool
    var stock: int

    constructor (id: string, name: string, price: int, available: bool, stock: int)
      ensures this.id == id && this.name == name && this.price == price
      ensures this.available == available && this.stock == stock
    {
      this.id := id;
      this.name := name;
      this.price := price;
      this.available := available;
      this.stock := stock;
    }

    /** `atualizar_disponibilidade`: flips the flag and nothing else. */
    method UpdateAvailability(available: bool)
      modifies this
      ensures this.available == available
      ensures name == old(name) && price == old(price) && stock == old(stock)
    {
      this.available := available;
    }

    /**
     * `atualizar_info`: a name is taken only when it is a non-empty string (Python's
     * `if nome:`); a price or a stock is taken whenever one is given.
     */
    method UpdateInfo(name: Option<string>, price: Option<int>, stock: Option<int>)
      modifies this
      ensures this.name == if name.Some? && name.value != "" then name.value else old(this.name)
      ensures this.price == if price.Some? then price.value else old(this.price)
      ensures this.stock == if stock.Some? then stock.value else old(this.stock)
      ensures available == old(available)
    {
      if name.Some? && name.value != "" {
        this.name := name.value;
      }
      if price.Some? {
        this.price := price.value;
      }
      if stock.Some? {
        this.stock := stock.value;
      }
    }
  }

  /** `Cliente`. Nothing else holds a reference to a customer, so it is kept as a value. */
  datatype Customer = Customer(id: string, name: string, phone: string, address: Option<string>)

  /** `Cliente.atualizar_info`: each field is replaced only by a non-empty string. */
  function UpdateCustomer(c: Customer, name: Option<string>, phone: Option<string>, address: Option<string>): (r: Customer)
    ensures r.id == c.id
    ensures name.Some? && name.value != "" ==> r.name == name.value
    ensures (name.None? || name.value == "") ==> r.name == c.name
    ensures phone.Some? && phone.value != "" ==> r.phone == phone.value
    ensures (phone.None? || phone.value == "") ==> r.phone == c.phone
    ensures address.Some? && address.value != "" ==> r.address == address
    ensures (address.None? || address.value == "") ==> r.address == c.address
  {
    Customer(
      c.id,
      if name.Some? && name.value != "" then name.value else c.name,
      if phone.Some? && phone.value != "" then phone.value else c.phone,
      if address.Some? && address.value != "" then address else c.address)
  }

  /**
   * `ItemPedido`: the product, the quantity and the subtotal recorded when the line was
   * created or last merged into. A line belongs to exactly one order.
   */
  datatype OrderLine = OrderLine(product: Product, quantity: int, subtotal: int)

  /** The sum of the subtotals of a sequence of lines. */
  function Sum(lines: seq<OrderLine>): int {
    if lines == [] then 0 else lines[0].subtotal + Sum(lines[1..])
  }

  lemma {:induction false} SumAppend(lines: seq<OrderLine>, line: OrderLine)
    ensures Sum(lines + [line]) == Sum(lines) + line.subtotal
  {
    if lines != [] {
      assert (lines + [line])[1..] == lines[1..] + [line];
      SumAppend(lines[1..], line);
    }
  }

  lemma {:induction false} SumUpdate(lines: seq<OrderLine>, k: nat, line: OrderLine)
    requires k < |lines|
    ensures Sum(lines[k := line]) == Sum(lines) - lines[k].subtotal + line.subtotal
  {
    if k > 0 {
      assert lines[k := line][1..] == lines[1..][k - 1 := line];
      SumUpdate(lines[1..], k - 1, line);
    }
  }

  lemma {:induction false} SumRemove(lines: seq<OrderLine>, k: nat)
    requires k < |lines|
    ensures Sum(lines[..k] + lines[k + 1..]) == Sum(lines) - lines[k].subtotal
  {
    if k > 0 {
      var rest := lines[1..];
      assert (lines[..k] + lines[k + 1..])[1..] == rest[..k - 1] + rest[k..];
      SumRemove(rest, k - 1);
    } else {
      assert lines[..k] + lines[k + 1..] == lines[1..];
    }
  }

  /** At most one line per product id. */
  ghost predicate DistinctProducts(lines: seq<OrderLine>) {
    forall i, j {:trigger lines[i].product.id, lines[j].product.id} | 0 <= i < j < |lines| ::
      lines[i].product.id != lines[j].product.id
  }

  /** The index of the first line for product `id`, as the `for item in self.itens` searches find it. */
  function FindLine(lines: seq<OrderLine>, id: string): (r: Option<nat>)
    ensures r.Some? ==> r.value < |lines| && lines[r.value].product.id == id
    ensures r.Some? ==> forall j | 0 <= j < r.value :: lines[j].product.id != id
    ensures r.None? <==> forall j | 0 <= j < |lines| :: lines[j].product.id != id
  {
    if lines == [] then None
    else if lines[0].product.id == id then Some(0)
    else match FindLine(lines[1..], id)
      case None => None
      case Some(k) => Some(k + 1)
  }

  /** The quantity already on the order for product `id`, if it has a line. */
  function ExistingQuantity(lines: seq<OrderLine>, id: string): Option<int> {
    match FindLine(lines, id)
    case None => None
    case Some(k) => Some(lines[k].quantity)
  }

  /** What `Pedido.adicionar_item` answers; `QuantityRejected` is the ValueError of `ItemPedido`. */
  datatype AddOutcome = Added | Unavailable | InsufficientStock | ExceedsStock | QuantityRejected

  /**
   * The checks of `Pedido.adicionar_item`, in the source's order. An item is accepted
   * exactly when the product is available, its stock covers the requested quantity and,
   * when a line already exists, also the merged quantity; a brand-new line needs a
   * positive quantity.
   */
  function AddDecision(available: bool, stock: int, existing: Option<int>, quantity: int): (r: AddOutcome)
    ensures r == Added <==>
              available && quantity <= stock
              && (existing.Some? ==> existing.value + quantity <= stock)
              && (existing.None? ==> quantity > 0)
    ensures r == Unavailable <==> !available
  {
    if !available then Unavailable
    else if stock < quantity then InsufficientStock
    else if existing.Some? && stock < existing.value + quantity then ExceedsStock
    else if existing.None? && quantity <= 0 then QuantityRejected
    else Added
  }

  /**
   * `Pedido`: an order with its lines, lifecycle status and running total. The id,
   * customer and creation time never change after construction.
   */
  class Order {
    const id: string
    const customerId: string
    const createdAt: int
    var lines: seq<OrderLine>
    var status: Status
    var total: int

    /** The total is the sum of the line subtotals, and no product has two lines. */
    ghost predicate Valid()
      reads this
    {
      total == Sum(lines) && DistinctProducts(lines)
    }

    /** A new order: no lines, status "Pendente", total zero. */
    constructor (id: string, customerId: string, createdAt: int)
      ensures Valid()
      ensures this.id == id && this.customerId == customerId && this.createdAt == createdAt
      ensures lines == [] && status == Pending && total == 0
    {
      this.id := id;
      this.customerId := customerId;
      this.createdAt := createdAt;
      lines := [];
      status := Pending;
      total := 0;
    }

    /**
     * `adicionar_item`: checks availability and stock, then either merges into the
     * existing line for the product (new quantity, subtotal recomputed from the line's
     * product price, total adjusted by the difference) or appends a new line. It only
     * validates against stock; no stock is taken here.
     */
    method AddItem(p: Product, quantity: int) returns (r: AddOutcome)
      requires Valid()
      modifies this
      ensures Valid()
      ensures status == old(status)
      ensures r == AddDecision(p.available, p.stock, ExistingQuantity(old(lines), p.id), quantity)
      ensures r != Added ==> lines == old(lines) && total == old(total)
      ensures r == Added && FindLine(old(lines), p.id).Some? ==>
                var k := FindLine(old(lines), p.id).value;
                var line := old(lines)[k];
                var q := line.quantity + quantity;
                lines == old(lines)[k := OrderLine(line.product, q, line.product.price * q)]
                && total == old(total) - line.subtotal + line.product.price * q
      ensures r == Added && FindLine(old(lines), p.id).None? ==>
                lines == old(lines) + [OrderLine(p, quantity, p.price * quantity)]
                && total == old(total) + p.price * quantity
    {
      if !p.available {
        return Unavailable;
      }
      if p.stock < quantity {
        return InsufficientStock;
      }
      var i := 0;
      while i < |lines|
        invariant 0 <= i <= |lines|
        invariant lines == old(lines) && total == old(total)
        invariant forall j | 0 <= j < i :: lines[j].product.id != p.id
      {
        if lines[i].product.id == p.id {
          var line := lines[i];
          if p.stock < line.quantity + quantity {
            return ExceedsStock;
          }
          var q := line.quantity + quantity;
          var merged := OrderLine(line.product, q, line.product.price * q);
          SumUpdate(lines, i, merged);
          total := total - line.subtotal;
          lines := lines[i := merged];
          total := total + merged.subtotal;
          return Added;
        }
        i := i + 1;
      }
      if quantity <= 0 {
        return QuantityRejected;
      }
      var line := OrderLine(p, quantity, p.price * quantity);
      SumAppend(lines, line);
      lines := lines + [line];
      total := total + line.subtotal;
      r := Added;
    }

    /**
     * `remover_item`: deletes the first line for the product and subtracts its subtotal
     * from the total; answers false, changing nothing, when there is no such line.
     */
    method RemoveItem(productId: string) returns (removed: bool)
      requires Valid()
      modifies this
      ensures Valid()
      ensures status == old(status)
      ensures removed <==> FindLine(old(lines), productId).Some?
      ensures removed ==>
                var k := FindLine(old(lines), productId).value;
                lines == old(lines)[..k] + old(lines)[k + 1..]
                && total == old(total) - old(lines)[k].subtotal
      ensures !removed ==> lines == old(lines) && total == old(total)
    {
      var i := 0;
      while i < |lines|
        invariant 0 <= i <= |lines|
        invariant lines == old(lines) && total == old(total)
        invariant forall j | 0 <= j < i :: lines[j].product.id != productId
      {
        if lines[i].product.id == productId {
          var line := lines[i];
          SumRemove(lines, i);
          ghost var before := lines;
          lines := lines[..i] + lines[i + 1..];
          total := total - line.subtotal;
          assert forall a | 0 <= a < |lines| :: lines[a] == before[if a < i then a else a + 1];
          return true;
        }
        i := i + 1;
      }
      removed := false;
    }

    /** `atualizar_status`: accepts only the five known status names. */
    method UpdateStatus(s: string) returns (ok: bool)
      modifies this
      ensures ok <==> Parse(s).Some?
      ensures status == if ok then Parse(s).value else old(status)
      ensures lines == old(lines) && total == old(total)
    {
      var parsed := Parse(s);
      if parsed.Some? {
        status := parsed.value;
        return true;
      }
      return false;
    }
  }
}
