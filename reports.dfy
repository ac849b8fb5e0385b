/**
 * The report queries of `Lanchonete` (lanchonete.py, `relatorio_total_vendas_por_periodo`,
 * `relatorio_produtos_mais_vendidos`, `relatorio_pedidos_por_cliente`). They change
 * nothing, so they are functions: the first two over a value snapshot of the orders,
 * taken in the insertion order of the `pedidos` dict, the third over the order objects
 * themselves. Timestamps are integers and money is in cents.
 */
module Reports {
  import opened Optional
  import opened OrderStatus
  import opened Entities
  import opened Shop
  import opened Sorting

  // --- The orders as the reports see them ---

  /** `self.pedidos.values()`: the filed orders in the order their ids were inserted. */
  function OrdersInOrder(orders: map<string, Order>, ids: seq<string>): (r: seq<Order>)
    ensures |r| <= |ids|
    ensures forall i | 0 <= i < |r| :: r[i] in orders.Values
  {
    if ids == [] then []
    else
      var id := ids[|ids| - 1];
      OrdersInOrder(orders, ids[..|ids| - 1]) + if id in orders then [orders[id]] else []
  }

  /** In a sound order book every listed id yields its order, in the same position. */
  lemma {:induction false} OrdersInOrderFollowsIds(orders: map<string, Order>, ids: seq<string>)
    requires forall i | 0 <= i < |ids| :: ids[i] in orders
    ensures var r := OrdersInOrder(orders, ids);
            |r| == |ids| && forall i | 0 <= i < |ids| :: r[i] == orders[ids[i]]
  {
    if ids != [] {
      OrdersInOrderFollowsIds(orders, ids[..|ids| - 1]);
    }
  }

  /**
   * When `ids` lists exactly the keys (as in a sound order book), the reports visit every
   * filed order, in the order the ids were inserted.
   */
  lemma BookListsEveryOrder(orders: map<string, Order>, ids: seq<string>)
    requires orders.Keys == Elems(ids)
    ensures forall i | 0 <= i < |ids| :: ids[i] in orders
    ensures var r := OrdersInOrder(orders, ids);
            && |r| == |ids|
            && (forall i | 0 <= i < |ids| :: r[i] == orders[ids[i]])
            && (forall k | k in orders :: orders[k] in r)
            && forall o :: o in r <==> o in orders.Values
  {
    var r := OrdersInOrder(orders, ids);
    forall i | 0 <= i < |ids| ensures ids[i] in orders {
      ElemsMembership(ids, ids[i]);
    }
    OrdersInOrderFollowsIds(orders, ids);
    forall k | k in orders ensures orders[k] in r {
      ElemsMembership(ids, k);
      var i :| 0 <= i < |ids| && ids[i] == k;
      assert r[i] == orders[k];
    }
  }

  /** What a report reads of a line: the product's current name and the quantity. */
  datatype LineRecord = LineRecord(name: string, quantity: int)

  /** What a report reads of an order. */
  datatype OrderRecord = OrderRecord(createdAt: int, status: Status, total: int, lines: seq<LineRecord>)

  function LineRecords(lines: seq<OrderLine>): (r: seq<LineRecord>)
    reads set i | 0 <= i < |lines| :: lines[i].product
    ensures |r| == |lines|
    ensures forall i | 0 <= i < |lines| :: r[i] == LineRecord(lines[i].product.name, lines[i].quantity)
  {
    if lines == [] then []
    else LineRecords(lines[..|lines| - 1]) + [LineRecord(lines[|lines| - 1].product.name, lines[|lines| - 1].quantity)]
  }

  /** The products the lines of the orders refer to. */
  ghost function ProductsOf(os: seq<Order>): set<Product>
    reads set o | o in os
  {
    set o, i | o in os && 0 <= i < |o.lines| :: o.lines[i].product
  }

  /** The snapshot of the orders, in their order. */
  function Records(os: seq<Order>): (r: seq<OrderRecord>)
    reads set o | o in os
    reads ProductsOf(os)
    ensures |r| == |os|
    ensures forall i | 0 <= i < |os| ::
              r[i] == OrderRecord(os[i].createdAt, os[i].status, os[i].total, LineRecords(os[i].lines))
  {
    if os == [] then []
    else
      var o := os[|os| - 1];
      Records(os[..|os| - 1]) + [OrderRecord(o.createdAt, o.status, o.total, LineRecords(o.lines))]
  }

  // --- relatorio_total_vendas_por_periodo ---

  /** An order counts towards the period's sales when it was delivered and falls within the bounds that are given. */
  predicate InPeriod(r: OrderRecord, start: Option<int>, end: Option<int>) {
    && r.status == Delivered
    && (start.None? || start.value <= r.createdAt)
    && (end.None? || r.createdAt <= end.value)
  }

  /**
   * The sum of `valor_total` over the orders that count for the period: never negative
   * when no total is, and zero when no order counts (none delivered, or an empty period).
   */
  function TotalSales(rs: seq<OrderRecord>, start: Option<int>, end: Option<int>): (r: int)
    ensures (forall i | 0 <= i < |rs| :: rs[i].total >= 0) ==> r >= 0
    ensures (forall i | 0 <= i < |rs| :: !InPeriod(rs[i], start, end)) ==> r == 0
  {
    if rs == [] then 0
    else
      var r := rs[|rs| - 1];
      TotalSales(rs[..|rs| - 1], start, end) + if InPeriod(r, start, end) then r.total else 0
  }

  /** The sales of a list of orders are the sales of its parts added up. */
  lemma {:induction false} TotalSalesAppend(a: seq<OrderRecord>, b: seq<OrderRecord>, start: Option<int>, end: Option<int>)
    ensures TotalSales(a + b, start, end) == TotalSales(a, start, end) + TotalSales(b, start, end)
  {
    if b == [] {
      assert a + b == a;
    } else {
      assert (a + b)[..|a + b| - 1] == a + b[..|b| - 1];
      TotalSalesAppend(a, b[..|b| - 1], start, end);
    }
  }

  /**
   * Splitting a period at any moment `m` inside it splits its sales: what was sold up to
   * and including `m`, plus what was sold from `m + 1` on.
   */
  lemma {:induction false} TotalSalesSplit(rs: seq<OrderRecord>, start: Option<int>, end: Option<int>, m: int)
    requires start.None? || start.value <= m + 1
    requires end.None? || m <= end.value
    ensures TotalSales(rs, start, end) == TotalSales(rs, start, Some(m)) + TotalSales(rs, Some(m + 1), end)
  {
    if rs != [] {
      TotalSalesSplit(rs[..|rs| - 1], start, end, m);
    }
  }

  // --- relatorio_produtos_mais_vendidos ---

  /** A product name and the units of it sold. */
  type Tally = (string, int)

  function ProductName(t: Tally): string { t.0 }

  function UnitCount(t: Tally): int { t.1 }

  /** The units recorded under `name`, summed over the pairs. */
  function Units(acc: seq<Tally>, name: string): int {
    if acc == [] then 0 else (if acc[0].0 == name then acc[0].1 else 0) + Units(acc[1..], name)
  }

  /** The names the pairs list. */
  function Names(acc: seq<Tally>): set<string> {
    if acc == [] then {} else {acc[0].0} + Names(acc[1..])
  }

  lemma {:induction false} NamesListed(acc: seq<Tally>, name: string)
    ensures name in Names(acc) <==> exists i | 0 <= i < |acc| :: acc[i].0 == name
  {
    if acc != [] {
      NamesListed(acc[1..], name);
      if name in Names(acc[1..]) {
        var i :| 0 <= i < |acc[1..]| && acc[1..][i].0 == name;
        assert acc[i + 1].0 == name;
      }
      if exists i | 0 <= i < |acc| :: acc[i].0 == name {
        var i :| 0 <= i < |acc| && acc[i].0 == name;
        if i > 0 {
          assert acc[1..][i - 1].0 == name;
        }
      }
    }
  }

  /** `vendas[nome] = vendas.get(nome, 0) + quantidade` on a dict kept as pairs in insertion order. */
  function Bump(acc: seq<Tally>, name: string, q: int): (r: seq<Tally>)
    ensures forall n :: Units(r, n) == Units(acc, n) + if n == name then q else 0
    ensures Names(r) == Names(acc) + {name}
    ensures name in Names(acc) ==> |r| == |acc| && forall i | 0 <= i < |acc| :: r[i].0 == acc[i].0
    ensures name !in Names(acc) ==> r == acc + [(name, q)]
  {
    if acc == [] then [(name, q)]
    else if acc[0].0 == name then [(name, acc[0].1 + q)] + acc[1..]
    else
      var rest := Bump(acc[1..], name, q);
      assert ([acc[0]] + rest)[1..] == rest;
      assert acc == [acc[0]] + acc[1..];
      [acc[0]] + rest
  }

  /** The names the pairs list, in their order: the keys of the dict in insertion order. */
  function Keys(acc: seq<Tally>): seq<string> {
    seq(|acc|, i requires 0 <= i < |acc| => acc[i].0)
  }

  /** A new name is appended to the keys; a sale of a listed name leaves them as they are. */
  lemma BumpKeys(acc: seq<Tally>, name: string, q: int)
    ensures Keys(Bump(acc, name, q)) == if name in Keys(acc) then Keys(acc) else Keys(acc) + [name]
  {
    var r := Bump(acc, name, q);
    NamesListed(acc, name);
    assert name in Keys(acc) <==> name in Names(acc) by {
      if name in Keys(acc) {
        var i :| 0 <= i < |acc| && Keys(acc)[i] == name;
        assert acc[i].0 == name;
      }
      if name in Names(acc) {
        var i :| 0 <= i < |acc| && acc[i].0 == name;
        assert Keys(acc)[i] == name;
      }
    }
    if name in Names(acc) {
      assert Keys(r) == Keys(acc);
    } else {
      assert name !in Keys(acc);
      assert Keys(r) == Keys(acc) + [name];
    }
  }

  lemma {:induction false} DistinctTail(acc: seq<Tally>)
    requires acc != [] && DistinctBy(acc, ProductName)
    ensures DistinctBy(acc[1..], ProductName)
    ensures acc[0].0 !in Names(acc[1..])
  {
    var rest := acc[1..];
    forall a, b | 0 <= a < b < |rest| ensures rest[a].0 != rest[b].0 {
      assert rest[a] == acc[a + 1] && rest[b] == acc[b + 1];
    }
    NamesListed(rest, acc[0].0);
    if acc[0].0 in Names(rest) {
      var k :| 0 <= k < |rest| && rest[k].0 == acc[0].0;
      assert false;
    }
  }

  /** A name is never listed twice: a sale of a listed name adds to its pair. */
  lemma {:induction false} BumpKeepsDistinct(acc: seq<Tally>, name: string, q: int)
    requires DistinctBy(acc, ProductName)
    ensures DistinctBy(Bump(acc, name, q), ProductName)
  {
    if acc != [] && acc[0].0 != name {
      var rest := Bump(acc[1..], name, q);
      var r := [acc[0]] + rest;
      DistinctTail(acc);
      BumpKeepsDistinct(acc[1..], name, q);
      forall a, b | 0 <= a < b < |r| ensures r[a].0 != r[b].0 {
        if a == 0 {
          assert r[b] == rest[b - 1];
          NamesListed(rest, rest[b - 1].0);
        } else {
          assert r[a] == rest[a - 1] && r[b] == rest[b - 1];
        }
      }
    }
  }

  /** Units of `name` on the lines. */
  function LineUnits(lines: seq<LineRecord>, name: string): int {
    if lines == [] then 0
    else LineUnits(lines[..|lines| - 1], name) + if lines[|lines| - 1].name == name then lines[|lines| - 1].quantity else 0
  }

  /** The names on the lines. */
  function LineNames(lines: seq<LineRecord>): set<string> {
    if lines == [] then {} else LineNames(lines[..|lines| - 1]) + {lines[|lines| - 1].name}
  }

  /** The inner loop over `pedido.itens`. */
  function TallyLines(acc: seq<Tally>, lines: seq<LineRecord>): (r: seq<Tally>)
    ensures forall n :: Units(r, n) == Units(acc, n) + LineUnits(lines, n)
    ensures Names(r) == Names(acc) + LineNames(lines)
  {
    if lines == [] then acc
    else Bump(TallyLines(acc, lines[..|lines| - 1]), lines[|lines| - 1].name, lines[|lines| - 1].quantity)
  }

  /** The names on the lines, in their order. */
  function LineNameSeq(lines: seq<LineRecord>): seq<string> {
    seq(|lines|, i requires 0 <= i < |lines| => lines[i].name)
  }

  /**
   * `d` followed by the names of `s` it does not hold yet, each once, in the order of
   * their first appearance in `s`.
   */
  function Extend(d: seq<string>, s: seq<string>): seq<string> {
    if s == [] then d
    else
      var e := Extend(d, s[..|s| - 1]);
      if s[|s| - 1] in e then e else e + [s[|s| - 1]]
  }

  /** Some occurrence of `a` in `s` comes before the first occurrence of `b`. */
  ghost predicate AppearsBefore(s: seq<string>, a: string, b: string) {
    exists k | 0 <= k < |s| :: s[k] == a && b !in s[..k]
  }

  /**
   * `r` lists every name of `s` exactly once, and a name comes before another only if
   * it appears in `s` before the other first does.
   */
  ghost predicate FirstAppearanceOrder(r: seq<string>, s: seq<string>) {
    && (forall x :: x in r <==> x in s)
    && (forall i, j | 0 <= i < j < |r| :: r[i] != r[j])
    && forall i, j | 0 <= i < j < |r| :: AppearsBefore(s, r[i], r[j])
  }

  lemma {:induction false} ExtendAppend(d: seq<string>, a: seq<string>, b: seq<string>)
    ensures Extend(Extend(d, a), b) == Extend(d, a + b)
  {
    if b == [] {
      assert a + b == a;
    } else {
      assert (a + b)[..|a + b| - 1] == a + b[..|b| - 1];
      ExtendAppend(d, a, b[..|b| - 1]);
    }
  }

  /** Starting from no names, `Extend` lists the names of `s` in the order of their first appearance. */
  lemma {:induction false} ExtendIsFirstAppearanceOrder(s: seq<string>)
    ensures FirstAppearanceOrder(Extend([], s), s)
  {
    if s != [] {
      var init, x := s[..|s| - 1], s[|s| - 1];
      var e, r := Extend([], init), Extend([], s);
      ExtendIsFirstAppearanceOrder(init);
      assert FirstAppearanceOrder(e, init);
      assert s == init + [x];
      forall i, j | 0 <= i < j < |r|
        ensures AppearsBefore(s, r[i], r[j])
      {
        if j < |e| {
          assert r[i] == e[i] && r[j] == e[j];
          assert AppearsBefore(init, e[i], e[j]);
          var k :| 0 <= k < |init| && init[k] == e[i] && e[j] !in init[..k];
          assert s[..k] == init[..k];
          assert s[k] == r[i];
        } else {
          assert r[i] in init;
          var k :| 0 <= k < |init| && init[k] == r[i];
          assert s[..k] == init[..k];
          assert s[k] == r[i];
          assert r[j] !in s[..k];
        }
      }
    }
  }

  lemma {:induction false} TallyLinesKeys(acc: seq<Tally>, lines: seq<LineRecord>)
    ensures Keys(TallyLines(acc, lines)) == Extend(Keys(acc), LineNameSeq(lines))
  {
    if lines != [] {
      var init, last := lines[..|lines| - 1], lines[|lines| - 1];
      TallyLinesKeys(acc, init);
      BumpKeys(TallyLines(acc, init), last.name, last.quantity);
      assert LineNameSeq(lines)[..|lines| - 1] == LineNameSeq(init);
    }
  }

  lemma {:induction false} TallyLinesKeepsDistinct(acc: seq<Tally>, lines: seq<LineRecord>)
    requires DistinctBy(acc, ProductName)
    ensures DistinctBy(TallyLines(acc, lines), ProductName)
  {
    if lines != [] {
      var init, last := lines[..|lines| - 1], lines[|lines| - 1];
      TallyLinesKeepsDistinct(acc, init);
      BumpKeepsDistinct(TallyLines(acc, init), last.name, last.quantity);
    }
  }

  /** The units of `name` on the lines of the delivered orders. */
  function UnitsSold(rs: seq<OrderRecord>, name: string): int {
    if rs == [] then 0
    else
      var r := rs[|rs| - 1];
      UnitsSold(rs[..|rs| - 1], name) + if r.status == Delivered then LineUnits(r.lines, name) else 0
  }

  /** The names on the lines of the delivered orders. */
  function NamesSold(rs: seq<OrderRecord>): set<string> {
    if rs == [] then {}
    else
      var r := rs[|rs| - 1];
      NamesSold(rs[..|rs| - 1]) + if r.status == Delivered then LineNames(r.lines) else {}
  }

  /** `vendas_por_produto`: the units per name over the delivered orders, names in first-sale order. */
  function Sales(rs: seq<OrderRecord>): (r: seq<Tally>)
    ensures forall n :: Units(r, n) == UnitsSold(rs, n)
    ensures Names(r) == NamesSold(rs)
  {
    if rs == [] then []
    else
      var acc, r := Sales(rs[..|rs| - 1]), rs[|rs| - 1];
      if r.status == Delivered then TallyLines(acc, r.lines) else acc
  }

  /** The names on the lines of the delivered orders, in the order they were sold. */
  function SoldNameSeq(rs: seq<OrderRecord>): seq<string> {
    if rs == [] then []
    else
      var r := rs[|rs| - 1];
      SoldNameSeq(rs[..|rs| - 1]) + if r.status == Delivered then LineNameSeq(r.lines) else []
  }

  /** The product names in the order of their first sale. */
  function FirstSaleOrder(rs: seq<OrderRecord>): seq<string> {
    Extend([], SoldNameSeq(rs))
  }

  /** Some sale of `a` comes before the first sale of `b`. */
  ghost predicate SoldBefore(rs: seq<OrderRecord>, a: string, b: string) {
    AppearsBefore(SoldNameSeq(rs), a, b)
  }

  lemma {:induction false} SalesKeys(rs: seq<OrderRecord>)
    ensures Keys(Sales(rs)) == FirstSaleOrder(rs)
  {
    if rs != [] {
      var init, r := rs[..|rs| - 1], rs[|rs| - 1];
      SalesKeys(init);
      if r.status == Delivered {
        TallyLinesKeys(Sales(init), r.lines);
        ExtendAppend([], SoldNameSeq(init), LineNameSeq(r.lines));
      } else {
        assert SoldNameSeq(rs) == SoldNameSeq(init) + [] == SoldNameSeq(init);
      }
    }
  }

  /**
   * `vendas_por_produto` lists the names in the order of their first sale: of two
   * names, the one listed first was sold before the other was first sold.
   */
  lemma SalesInFirstSaleOrder(rs: seq<OrderRecord>)
    ensures Keys(Sales(rs)) == FirstSaleOrder(rs)
    ensures var sales := Sales(rs);
            forall p, q | 0 <= p < q < |sales| :: SoldBefore(rs, sales[p].0, sales[q].0)
  {
    var sales := Sales(rs);
    SalesKeys(rs);
    ExtendIsFirstAppearanceOrder(SoldNameSeq(rs));
    assert FirstAppearanceOrder(Keys(sales), SoldNameSeq(rs));
    forall p, q | 0 <= p < q < |sales|
      ensures SoldBefore(rs, sales[p].0, sales[q].0)
    {
      assert Keys(sales)[p] == sales[p].0 && Keys(sales)[q] == sales[q].0;
    }
  }

  /** Every product name sold has one pair. */
  lemma {:induction false} SalesAreDistinct(rs: seq<OrderRecord>)
    ensures DistinctBy(Sales(rs), ProductName)
  {
    if rs != [] {
      SalesAreDistinct(rs[..|rs| - 1]);
      if rs[|rs| - 1].status == Delivered {
        TallyLinesKeepsDistinct(Sales(rs[..|rs| - 1]), rs[|rs| - 1].lines);
      }
    }
  }

  /** With each name listed once, the units of a listed name are those of its pair. */
  lemma {:induction false} UnitsOfListed(acc: seq<Tally>, i: nat)
    requires i < |acc| && DistinctBy(acc, ProductName)
    ensures Units(acc, acc[i].0) == acc[i].1
  {
    DistinctTail(acc);
    if i == 0 {
      UnitsOfAbsent(acc[1..], acc[0].0);
    } else {
      UnitsOfListed(acc[1..], i - 1);
    }
  }

  lemma {:induction false} UnitsOfAbsent(acc: seq<Tally>, name: string)
    requires name !in Names(acc)
    ensures Units(acc, name) == 0
  {
    if acc != [] {
      UnitsOfAbsent(acc[1..], name);
    }
  }

  /**
   * `sorted(vendas_por_produto.items(), key=lambda item: item[1], reverse=True)`: the same
   * pairs, from most to fewest units.
   */
  function Ranking(rs: seq<OrderRecord>): (r: seq<Tally>)
    ensures multiset(r) == multiset(Sales(rs))
    ensures Descending(r, UnitCount)
  {
    SortPermutes(Sales(rs), UnitCount);
    SortIsDescending(Sales(rs), UnitCount);
    SortDesc(Sales(rs), UnitCount)
  }

  /**
   * The ranking lists every product name sold exactly once, with the units sold of it,
   * from most to fewest units.
   */
  lemma RankingIsComplete(rs: seq<OrderRecord>)
    ensures var ranking := Ranking(rs);
            && DistinctBy(ranking, ProductName)
            && Descending(ranking, UnitCount)
            && (forall i | 0 <= i < |ranking| :: ranking[i].0 in NamesSold(rs) && ranking[i].1 == UnitsSold(rs, ranking[i].0))
            && forall name | name in NamesSold(rs) :: exists j | 0 <= j < |ranking| :: ranking[j].0 == name
  {
    var sales := Sales(rs);
    var ranking := Ranking(rs);
    SalesAreDistinct(rs);
    SortIsDescending(sales, UnitCount);
    SortKeepsDistinct(sales, UnitCount, ProductName);
    SortPermutes(sales, UnitCount);
    forall i | 0 <= i < |ranking|
      ensures ranking[i].0 in NamesSold(rs) && ranking[i].1 == UnitsSold(rs, ranking[i].0)
    {
      assert ranking[i] in multiset(sales);
      var k :| 0 <= k < |sales| && sales[k] == ranking[i];
      UnitsOfListed(sales, k);
      NamesListed(sales, sales[k].0);
    }
    forall name | name in NamesSold(rs)
      ensures exists j | 0 <= j < |ranking| :: ranking[j].0 == name
    {
      NamesListed(sales, name);
      var k :| 0 <= k < |sales| && sales[k].0 == name;
      assert sales[k] in multiset(ranking);
      var j :| 0 <= j < |ranking| && ranking[j] == sales[k];
    }
  }

  /**
   * `relatorio_produtos_mais_vendidos`: the first `top_n` of the ranking; at most `top_n`
   * pairs of `vendas_por_produto`, from most to fewest units.
   */
  function TopProducts(rs: seq<OrderRecord>, n: int): (r: seq<Tally>)
    ensures n >= 0 ==> |r| <= n
    ensures forall i | 0 <= i < |r| :: r[i] in multiset(Sales(rs))
    ensures Descending(r, UnitCount)
  {
    Head(Ranking(rs), n)
  }

  /**
   * The best sellers: each listed name was sold in exactly the listed number of units,
   * no name is listed twice, and the list runs from most to fewest units.
   */
  lemma TopProductsAreRanked(rs: seq<OrderRecord>, n: int)
    ensures var top := TopProducts(rs, n);
            && (forall i | 0 <= i < |top| :: top[i].0 in NamesSold(rs) && top[i].1 == UnitsSold(rs, top[i].0))
            && DistinctBy(top, ProductName)
            && Descending(top, UnitCount)
  {
    RankingIsComplete(rs);
  }

  /** A product sold but left off the list sold no more units than any product on it. */
  lemma UnlistedSoldNoMore(rs: seq<OrderRecord>, n: int, name: string)
    requires name in NamesSold(rs)
    requires forall i | 0 <= i < |TopProducts(rs, n)| :: TopProducts(rs, n)[i].0 != name
    ensures forall i | 0 <= i < |TopProducts(rs, n)| :: UnitsSold(rs, name) <= TopProducts(rs, n)[i].1
  {
    var ranking := Ranking(rs);
    var top := TopProducts(rs, n);
    RankingIsComplete(rs);
    var j :| 0 <= j < |ranking| && ranking[j].0 == name;
    if j < |top| {
      assert false;
    }
  }

  /** The pairs with `c` units are ranked in their `vendas_por_produto` order. */
  lemma RankingTiesKeepSalesOrder(rs: seq<OrderRecord>, c: int)
    ensures WithKey(Ranking(rs), UnitCount, c) == WithKey(Sales(rs), UnitCount, c)
  {
    SortIsStable(Sales(rs), UnitCount, c);
  }

  /**
   * Products that sold the same number of units are listed in the order of their first
   * sale: of two such products on the list, the earlier one was sold before the later
   * one was first sold.
   */
  lemma TopProductsTiesKeepFirstSaleOrder(rs: seq<OrderRecord>, n: int)
    ensures var top := TopProducts(rs, n);
            forall i, j | 0 <= i < j < |top| && top[i].1 == top[j].1 :: SoldBefore(rs, top[i].0, top[j].0)
  {
    var top, ranking, sales := TopProducts(rs, n), Ranking(rs), Sales(rs);
    SalesInFirstSaleOrder(rs);
    forall i, j | 0 <= i < j < |top| && top[i].1 == top[j].1
      ensures SoldBefore(rs, top[i].0, top[j].0)
    {
      assert Precedes(ranking, top[i], top[j]) by {
        assert ranking[i] == top[i] && ranking[j] == top[j];
      }
      SortKeepsTieOrder(sales, UnitCount, top[i], top[j]);
      var p, q :| 0 <= p < q < |sales| && sales[p] == top[i] && sales[q] == top[j];
    }
  }

  // --- relatorio_pedidos_por_cliente ---

  function CreatedAt(o: Order): int { o.createdAt }

  /** `pedido.id_cliente == id_cliente`. */
  function PlacedBy(id: string): Order -> bool {
    (o: Order) => o.customerId == id
  }

  /**
   * The orders of customer `id`, latest first, orders created at the same time in
   * insertion order; no orders at all when the customer is not registered.
   */
  function CustomerOrders(registered: bool, os: seq<Order>, id: string): (r: seq<Order>)
    ensures !registered ==> r == []
    ensures Descending(r, CreatedAt)
  {
    if !registered then []
    else
      SortIsDescending(Select(os, PlacedBy(id)), CreatedAt);
      SortDesc(Select(os, PlacedBy(id)), CreatedAt)
  }

  /**
   * The report lists exactly the customer's orders, each as often as in the book, from
   * the latest to the earliest, and orders created at the same moment in the book's order.
   */
  lemma CustomerOrdersAreTheirs(registered: bool, os: seq<Order>, id: string)
    ensures !registered ==> CustomerOrders(registered, os, id) == []
    ensures registered ==>
              var r := CustomerOrders(registered, os, id);
              && (forall o :: o in r <==> o in os && o.customerId == id)
              && multiset(r) == multiset(Select(os, PlacedBy(id)))
              && Descending(r, CreatedAt)
              && forall c :: WithKey(r, CreatedAt, c)
                             == WithKey(Select(os, PlacedBy(id)), CreatedAt, c)
  {
    if registered {
      var mine := Select(os, PlacedBy(id));
      var r := CustomerOrders(registered, os, id);
      SortIsDescending(mine, CreatedAt);
      SortPermutes(mine, CreatedAt);
      forall o
        ensures o in r <==> o in os && o.customerId == id
      {
        assert o in r <==> o in multiset(mine);
        SelectMembership(os, PlacedBy(id), o);
      }
      forall c
        ensures WithKey(r, CreatedAt, c) == WithKey(mine, CreatedAt, c)
      {
        SortIsStable(mine, CreatedAt, c);
      }
    }
  }

  // --- The reports on the snack bar ---

  /**
   * `relatorio_total_vendas_por_periodo(data_inicio, data_fim)`; `None` is an absent
   * bound. Nothing is sold in a period that ends before it starts, nor when no filed
   * order was delivered.
   */
  function SalesInPeriod(shop: Lanchonete, start: Option<int>, end: Option<int>): (r: int)
    reads shop.pedidos, set o | o in OrdersInOrder(shop.pedidos.orders, shop.pedidos.ids)
    reads ProductsOf(OrdersInOrder(shop.pedidos.orders, shop.pedidos.ids))
    ensures (forall o | o in OrdersInOrder(shop.pedidos.orders, shop.pedidos.ids) :: o.total >= 0) ==> r >= 0
    ensures (forall o | o in OrdersInOrder(shop.pedidos.orders, shop.pedidos.ids) :: o.status != Delivered) ==> r == 0
    ensures start.Some? && end.Some? && end.value < start.value ==> r == 0
  {
    var os := OrdersInOrder(shop.pedidos.orders, shop.pedidos.ids);
    assert forall i | 0 <= i < |os| :: os[i] in os;
    TotalSales(Records(os), start, end)
  }

  /**
   * `relatorio_produtos_mais_vendidos(top_n)`: at most `top_n` product names, none twice,
   * each with the units of it sold in the delivered filed orders, from most to fewest.
   */
  function BestSellers(shop: Lanchonete, n: int): (r: seq<Tally>)
    reads shop.pedidos, set o | o in OrdersInOrder(shop.pedidos.orders, shop.pedidos.ids)
    reads ProductsOf(OrdersInOrder(shop.pedidos.orders, shop.pedidos.ids))
    ensures n >= 0 ==> |r| <= n
    ensures forall i | 0 <= i < |r| ::
              r[i].1 == UnitsSold(Records(OrdersInOrder(shop.pedidos.orders, shop.pedidos.ids)), r[i].0)
    ensures DistinctBy(r, ProductName) && Descending(r, UnitCount)
  {
    var rs := Records(OrdersInOrder(shop.pedidos.orders, shop.pedidos.ids));
    TopProductsAreRanked(rs, n);
    TopProducts(rs, n)
  }

  /**
   * `relatorio_pedidos_por_cliente(id_cliente)`: nothing for an unregistered customer;
   * otherwise, in a sound order book, exactly the filed orders of the customer, latest first.
   */
  function OrdersOfCustomer(shop: Lanchonete, id: string): (r: seq<Order>)
    reads shop.clientes, shop.pedidos
    ensures id !in shop.clientes.customers ==> r == []
    ensures forall o | o in r :: o in shop.pedidos.orders.Values && o.customerId == id
    ensures shop.pedidos.orders.Keys == Elems(shop.pedidos.ids) && id in shop.clientes.customers ==>
              forall o | o in shop.pedidos.orders.Values && o.customerId == id :: o in r
    ensures Descending(r, CreatedAt)
  {
    var registered := id in shop.clientes.customers;
    CustomerOrdersInBook(registered, shop.pedidos.orders, shop.pedidos.ids, id);
    CustomerOrders(registered, OrdersInOrder(shop.pedidos.orders, shop.pedidos.ids), id)
  }

  /** The customer's report draws on the filed orders; in a sound book it lists all of theirs. */
  lemma CustomerOrdersInBook(registered: bool, orders: map<string, Order>, ids: seq<string>, id: string)
    ensures var r := CustomerOrders(registered, OrdersInOrder(orders, ids), id);
            && (forall o | o in r :: o in orders.Values && o.customerId == id)
            && (orders.Keys == Elems(ids) && registered ==>
                  forall o | o in orders.Values && o.customerId == id :: o in r)
  {
    var os := OrdersInOrder(orders, ids);
    var r := CustomerOrders(registered, os, id);
    if registered {
      var mine := Select(os, PlacedBy(id));
      SortPermutes(mine, CreatedAt);
      forall o | o in r
        ensures o in orders.Values && o.customerId == id
      {
        assert o in multiset(mine);
        SelectMembership(os, PlacedBy(id), o);
      }
      if orders.Keys == Elems(ids) {
        BookListsEveryOrder(orders, ids);
        forall o | o in orders.Values && o.customerId == id
          ensures o in r
        {
          SelectMembership(os, PlacedBy(id), o);
          assert o in multiset(r);
        }
      }
    }
  }

  // --- The report loops ---

  /**
   * The accumulator loop of `relatorio_total_vendas_por_periodo`, over the snapshot of
   * the orders in dict order (`Records(OrdersInOrder(..))`, as in `SalesInPeriod`): it
   * skips delivered orders created before the start or after the end and adds up the
   * totals of the others.
   */
  method TotalSalesReport(rs: seq<OrderRecord>, start: Option<int>, end: Option<int>) returns (total: int)
    ensures total == TotalSales(rs, start, end)
  {
    total := 0;
    var i := 0;
    while i < |rs|
      invariant 0 <= i <= |rs|
      invariant total == TotalSales(rs[..i], start, end)
    {
      assert rs[..i + 1][..i] == rs[..i];
      var r := rs[i];
      i := i + 1;
      if r.status == Delivered {
        if start.Some? && r.createdAt < start.value {
          continue;
        }
        if end.Some? && r.createdAt > end.value {
          continue;
        }
        total := total + r.total;
      }
    }
    assert rs[..i] == rs;
  }

  /**
   * The inner loop of `relatorio_produtos_mais_vendidos` over `pedido.itens`: each line's
   * quantity is added under its product name.
   */
  method TallyOrderLines(acc: seq<Tally>, lines: seq<LineRecord>) returns (r: seq<Tally>)
    ensures r == TallyLines(acc, lines)
  {
    r := acc;
    var j := 0;
    while j < |lines|
      invariant 0 <= j <= |lines|
      invariant r == TallyLines(acc, lines[..j])
    {
      assert lines[..j + 1][..j] == lines[..j];
      r := Bump(r, lines[j].name, lines[j].quantity);
      j := j + 1;
    }
    assert lines[..j] == lines;
  }

  /**
   * The loops of `relatorio_produtos_mais_vendidos`, over the snapshot of the orders in
   * dict order (as in `BestSellers`): for every line of every delivered order the line's
   * quantity is added under its product name in `vendas_por_produto`; the pairs are then
   * sorted and cut to `top_n`.
   */
  method BestSellersReport(rs: seq<OrderRecord>, n: int) returns (top: seq<Tally>)
    ensures top == TopProducts(rs, n)
  {
    var acc := [];
    var i := 0;
    while i < |rs|
      invariant 0 <= i <= |rs|
      invariant acc == Sales(rs[..i])
    {
      assert rs[..i + 1][..i] == rs[..i];
      var r := rs[i];
      if r.status == Delivered {
        acc := TallyOrderLines(acc, r.lines);
      }
      i := i + 1;
    }
    assert rs[..i] == rs;
    top := Head(SortDesc(acc, UnitCount), n);
  }
}
