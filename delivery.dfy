/**
 * Stock deduction when an order becomes "Entregue" (lanchonete.py,
 * `Lanchonete.atualizar_status_pedido`), stated on a snapshot of the catalogue's stock
 * levels (product id to stock).
 *
 * `DeliverAsWritten` is what the source does: it walks the lines in order, deducting
 * each one, and stops at the first line whose product is missing or short, keeping the
 * deductions already made. `DeliverValidated` checks every line first and deducts only
 * when all pass.
 */
module Delivery {
  import opened Optional
  import opened Entities

  /** One line's claim on the stock: which product and how many units. */
  datatype Demand = Demand(productId: string, quantity: int)

  function Demands(lines: seq<OrderLine>): (d: seq<Demand>)
    ensures |d| == |lines|
    ensures forall i | 0 <= i < |lines| :: d[i] == Demand(lines[i].product.id, lines[i].quantity)
  {
    if lines == [] then [] else [Demand(lines[0].product.id, lines[0].quantity)] + Demands(lines[1..])
  }

  ghost predicate DistinctIds(demands: seq<Demand>) {
    forall i, j | 0 <= i < j < |demands| :: demands[i].productId != demands[j].productId
  }

  lemma DistinctLinesGiveDistinctDemands(lines: seq<OrderLine>)
    requires DistinctProducts(lines)
    ensures DistinctIds(Demands(lines))
  {
  }

  /** Why a line cannot be delivered: its product left the catalogue, or its stock is short. */
  datatype Shortfall = NoProduct(productId: string) | NotEnough(productId: string)

  /** The stock levels after the attempt, and whether it went through. */
  datatype Delivery = Deducted(stock: map<string, int>) | Failed(stock: map<string, int>, why: Shortfall)

  /** The loop of `atualizar_status_pedido`, line by line, without rollback. */
  function DeliverAsWritten(stock: map<string, int>, demands: seq<Demand>): (r: Delivery)
    ensures r.stock.Keys == stock.Keys
  {
    if demands == [] then Deducted(stock)
    else
      var d := demands[0];
      if d.productId !in stock then Failed(stock, NoProduct(d.productId))
      else if stock[d.productId] < d.quantity then Failed(stock, NotEnough(d.productId))
      else DeliverAsWritten(stock[d.productId := stock[d.productId] - d.quantity], demands[1..])
  }

  /** Units of product `id` the demands ask for in all. */
  function TotalDemand(demands: seq<Demand>, id: string): int {
    if demands == [] then 0
    else (if demands[0].productId == id then demands[0].quantity else 0) + TotalDemand(demands[1..], id)
  }

  /** Stock never becomes negative, whether the delivery goes through or stops half-way. */
  lemma {:induction false} DeliveryKeepsStockNonNegative(stock: map<string, int>, demands: seq<Demand>)
    requires forall k | k in stock :: stock[k] >= 0
    ensures var r := DeliverAsWritten(stock, demands);
            forall k | k in r.stock :: r.stock[k] >= 0
  {
    if demands != [] {
      var d := demands[0];
      if d.productId in stock && stock[d.productId] >= d.quantity {
        var next := stock[d.productId := stock[d.productId] - d.quantity];
        assert DeliverAsWritten(stock, demands) == DeliverAsWritten(next, demands[1..]);
        DeliveryKeepsStockNonNegative(next, demands[1..]);
      }
    }
  }

  /** A delivery that goes through takes from each product exactly what the lines ask for. */
  lemma {:induction false} DeliveredDeductsDemand(stock: map<string, int>, demands: seq<Demand>)
    requires DeliverAsWritten(stock, demands).Deducted?
    ensures var r := DeliverAsWritten(stock, demands);
            forall k | k in stock :: r.stock[k] == stock[k] - TotalDemand(demands, k)
  {
    if demands != [] {
      var d := demands[0];
      var next := stock[d.productId := stock[d.productId] - d.quantity];
      DeliveredDeductsDemand(next, demands[1..]);
    }
  }

  /**
   * Cancelling a delivered order gives nothing back, so delivering it once more (a
   * status change from "Cancelado" back to "Entregue") takes every line from the stock
   * a second time.
   */
  lemma RedeliveryDeductsAgain(stock: map<string, int>, demands: seq<Demand>)
    requires DeliverAsWritten(stock, demands).Deducted?
    requires DeliverAsWritten(DeliverAsWritten(stock, demands).stock, demands).Deducted?
    ensures var again := DeliverAsWritten(DeliverAsWritten(stock, demands).stock, demands);
            forall k | k in stock :: again.stock[k] == stock[k] - 2 * TotalDemand(demands, k)
  {
    DeliveredDeductsDemand(stock, demands);
    DeliveredDeductsDemand(DeliverAsWritten(stock, demands).stock, demands);
  }

  /** Five in stock, an order for two delivered, cancelled and delivered again: one is left. */
  lemma RedeliveryWitness()
    ensures DeliverAsWritten(map["X" := 5], [Demand("X", 2)]) == Deducted(map["X" := 3])
    ensures DeliverAsWritten(map["X" := 3], [Demand("X", 2)]) == Deducted(map["X" := 1])
  {
    assert [Demand("X", 2)][1..] == [];
    assert map["X" := 5]["X" := 3] == map["X" := 3];
    assert map["X" := 3]["X" := 1] == map["X" := 1];
  }

  /** The first line that cannot be served from `stock` as it stands, if any. */
  function FirstShortfall(stock: map<string, int>, demands: seq<Demand>): Option<Shortfall> {
    if demands == [] then None
    else
      var d := demands[0];
      if d.productId !in stock then Some(NoProduct(d.productId))
      else if stock[d.productId] < d.quantity then Some(NotEnough(d.productId))
      else FirstShortfall(stock, demands[1..])
  }

  /** There is no shortfall exactly when every demand names a product with enough stock. */
  lemma {:induction false} NoShortfallIffCovered(stock: map<string, int>, demands: seq<Demand>)
    ensures FirstShortfall(stock, demands).None? <==>
              forall i | 0 <= i < |demands| ::
                demands[i].productId in stock && demands[i].quantity <= stock[demands[i].productId]
  {
    if demands != [] {
      NoShortfallIffCovered(stock, demands[1..]);
      assert forall i | 1 <= i < |demands| :: demands[1..][i - 1] == demands[i];
    }
  }

  /** Applies every demand to the stock it names, without checking anything. */
  function DeductAll(stock: map<string, int>, demands: seq<Demand>): (r: map<string, int>)
    ensures r.Keys == stock.Keys
  {
    if demands == [] then stock
    else
      var d := demands[0];
      var next := if d.productId in stock then stock[d.productId := stock[d.productId] - d.quantity] else stock;
      DeductAll(next, demands[1..])
  }

  /** Validate every line, then deduct: the all-or-nothing delivery. */
  function DeliverValidated(stock: map<string, int>, demands: seq<Demand>): (r: Delivery)
    ensures r.Failed? ==> r.stock == stock
  {
    match FirstShortfall(stock, demands)
    case Some(why) => Failed(stock, why)
    case None => Deducted(DeductAll(stock, demands))
  }

  lemma {:induction false} ShortfallIgnoresOtherProducts(stock: map<string, int>, id: string, v: int, demands: seq<Demand>)
    requires id in stock
    requires forall i | 0 <= i < |demands| :: demands[i].productId != id
    ensures FirstShortfall(stock[id := v], demands) == FirstShortfall(stock, demands)
  {
    if demands != [] {
      ShortfallIgnoresOtherProducts(stock, id, v, demands[1..]);
    }
  }

  /**
   * In a delivery checked in full, serving demand `i` from the stock still leaves every
   * later demand covered, since no later demand names the same product.
   */
  lemma {:induction false} CoveredAfterServing(stock: map<string, int>, demands: seq<Demand>, i: nat)
    requires i < |demands| && DistinctIds(demands) && FirstShortfall(stock, demands[i..]).None?
    ensures var d := demands[i];
            && d.productId in stock && d.quantity <= stock[d.productId]
            && FirstShortfall(stock[d.productId := stock[d.productId] - d.quantity], demands[i + 1..]).None?
  {
    var d := demands[i];
    var rest := demands[i + 1..];
    assert demands[i..][0] == d && demands[i..][1..] == rest;
    assert forall j | 0 <= j < |rest| :: rest[j].productId != d.productId by {
      forall j | 0 <= j < |rest| ensures rest[j].productId != d.productId {
        assert rest[j] == demands[i + 1 + j];
      }
    }
    ShortfallIgnoresOtherProducts(stock, d.productId, stock[d.productId] - d.quantity, demands[i + 1..]);
  }

  /** One step of `DeductAll` from position `i`. */
  lemma DeductStep(stock: map<string, int>, demands: seq<Demand>, i: nat)
    requires i < |demands| && demands[i].productId in stock
    ensures var d := demands[i];
            DeductAll(stock, demands[i..]) == DeductAll(stock[d.productId := stock[d.productId] - d.quantity], demands[i + 1..])
  {
    assert demands[i..][1..] == demands[i + 1..];
  }

  /**
   * Delivering from position `i` on is delivering demand `i` alone and, if that goes
   * through, the rest from the stock it leaves.
   */
  lemma DeliverStep(stock: map<string, int>, demands: seq<Demand>, i: nat)
    requires i < |demands|
    ensures var one := DeliverAsWritten(stock, [demands[i]]);
            DeliverAsWritten(stock, demands[i..])
            == if one.Failed? then one else DeliverAsWritten(one.stock, demands[i + 1..])
  {
    assert demands[i..][1..] == demands[i + 1..];
    assert [demands[i]][1..] == [];
  }

  /**
   * A refused delivery, as written, leaves the stock with every line before the failing
   * one deducted: some line `i` cannot be served from what the lines before it left, and
   * the stock is exactly those earlier lines taken from the original levels. Nothing is
   * given back.
   */
  lemma {:induction false} FailedDeliveryKeepsEarlierDeductions(stock: map<string, int>, demands: seq<Demand>)
    requires DeliverAsWritten(stock, demands).Failed?
    ensures var r := DeliverAsWritten(stock, demands);
            exists i | 0 <= i < |demands| ::
              && r.stock == DeductAll(stock, demands[..i])
              && FirstShortfall(DeductAll(stock, demands[..i]), [demands[i]]) == Some(r.why)
  {
    var r := DeliverAsWritten(stock, demands);
    var d := demands[0];
    assert [d][1..] == [];
    if d.productId !in stock || stock[d.productId] < d.quantity {
      assert demands[..0] == [];
      assert r.stock == DeductAll(stock, demands[..0]);
    } else {
      var next := stock[d.productId := stock[d.productId] - d.quantity];
      var rest := demands[1..];
      FailedDeliveryKeepsEarlierDeductions(next, rest);
      var j :| 0 <= j < |rest| && r.stock == DeductAll(next, rest[..j])
               && FirstShortfall(DeductAll(next, rest[..j]), [rest[j]]) == Some(r.why);
      assert demands[..j + 1][0] == d && demands[..j + 1][1..] == rest[..j];
      assert DeductAll(stock, demands[..j + 1]) == DeductAll(next, rest[..j]);
      assert demands[j + 1] == rest[j];
    }
  }

  /**
   * When no product has two lines (as in every valid order), validating first changes
   * nothing on success: both deliveries go through together, leave the same stock, and
   * fail for the same reason. They differ only in the stock a failure leaves behind
   * (`FailedDeliveryKeepsEarlierDeductions` against `DeliverValidated`'s own contract).
   */
  lemma {:induction false} ValidatedAgreesWithAsWritten(stock: map<string, int>, demands: seq<Demand>)
    requires DistinctIds(demands)
    ensures var v := DeliverValidated(stock, demands);
            var w := DeliverAsWritten(stock, demands);
            v.Deducted? == w.Deducted?
            && (v.Deducted? ==> v.stock == w.stock)
            && (v.Failed? ==> v.why == w.why)
  {
    if demands != [] {
      var d := demands[0];
      if d.productId in stock && stock[d.productId] >= d.quantity {
        var next := stock[d.productId := stock[d.productId] - d.quantity];
        assert DistinctIds(demands[1..]);
        assert forall i | 0 <= i < |demands[1..]| :: demands[1..][i].productId != d.productId by {
          forall i | 0 <= i < |demands[1..]| ensures demands[1..][i].productId != d.productId {
            assert demands[1..][i] == demands[i + 1];
          }
        }
        ShortfallIgnoresOtherProducts(stock, d.productId, stock[d.productId] - d.quantity, demands[1..]);
        ValidatedAgreesWithAsWritten(next, demands[1..]);
      }
    }
  }

  /** The validated delivery never drives stock negative either. */
  lemma ValidatedKeepsStockNonNegative(stock: map<string, int>, demands: seq<Demand>)
    requires DistinctIds(demands)
    requires forall k | k in stock :: stock[k] >= 0
    ensures var r := DeliverValidated(stock, demands);
            forall k | k in r.stock :: r.stock[k] >= 0
  {
    ValidatedAgreesWithAsWritten(stock, demands);
    DeliveryKeepsStockNonNegative(stock, demands);
  }

  /**
   * The source as written: an order of one unit of X and five of Y, with three X and two
   * Y in stock, is refused for Y after X has already lost its unit. Validating first
   * refuses it with the stock untouched.
   */
  lemma PartialDeductionWitness()
    ensures DeliverAsWritten(map["X" := 3, "Y" := 2], [Demand("X", 1), Demand("Y", 5)])
            == Failed(map["X" := 2, "Y" := 2], NotEnough("Y"))
    ensures DeliverValidated(map["X" := 3, "Y" := 2], [Demand("X", 1), Demand("Y", 5)])
            == Failed(map["X" := 3, "Y" := 2], NotEnough("Y"))
  {
    var demands := [Demand("X", 1), Demand("Y", 5)];
    assert demands[1..] == [Demand("Y", 5)];
    assert map["X" := 3, "Y" := 2]["X" := 2] == map["X" := 2, "Y" := 2];
  }
}
