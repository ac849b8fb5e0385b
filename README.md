# Snack-bar orders and stock, modelled in Dafny

This project models the order and stock rules of the snack-bar system in `lanchonete.py`:

- the catalogue of products (`cardapio`), with price, availability flag and stock;
- the customer register (`clientes`);
- orders (`Pedido`), with their lines (`ItemPedido`), running total and status;
- the order book (`pedidos`) with its order counter, which issues the ids `PED0001`, `PED0002`, …;
- the reports over the order book;
- the point-of-sale cart (`carrinho_pdv`) of the sales tab, with its checkout.

Money is kept in integer cents and timestamps are integers.

The objects the source updates in place are Dafny classes:

| class | models | what changes in place |
|---|---|---|
| `Entities.Product` | `Produto` | its fields |
| `Entities.Order` | `Pedido` | its lines, status and total |
| `Shop.Catalogue` | `cardapio` | the map from product id to product |
| `Shop.Register` | `clientes` | the map from customer id to customer |
| `Shop.OrderBook` | `pedidos` and `Pedido._id_counter` | the orders, their insertion order and the counter |
| `Shop.Lanchonete` | `Lanchonete` | its three parts above |
| `PointOfSale.Till` | the sales tab | the cart, a sequence of entries keyed by product id |

Customers and order lines are values (`Entities.Customer`, `Entities.OrderLine`). A product is one object shared by reference. The catalogue, the order lines and the cart entries all point at it. So a stock or name change made through the catalogue is seen everywhere, as in the source.

Stock is taken in one place only: when an order moves into "Entregue" from another status (`Shop.Lanchonete.UpdateOrderStatus`). That method is proved against `Delivery.DeliverAsWritten`, a function over the map from product id to stock.

The reports are functions over a snapshot of the orders, taken in the order the ids were inserted (`Reports.OrdersInOrder`, `Reports.Records`). Two of them are written in the source as accumulator loops. Those two are also methods with loops, proved equal to the functions (`Reports.TotalSalesReport`, `Reports.BestSellersReport`).

The best-seller tally is a dict, so its names stay in the order in which each was first sold. This is modelled by `Reports.FirstSaleOrder` and proved in `Reports.SalesInFirstSaleOrder`. Because the sort is stable, products with equal units are listed in that order (`Reports.TopProductsTiesKeepFirstSaleOrder`).

Python's stable `sorted(..., reverse=True)` is modelled as an insertion sort (`Sorting.SortDesc`). It is proved to be a permutation, descending and stable.

Files:

- `option.dfy`: `Option`.
- `status.dfy`: the five order statuses.
- `validation.dfy`: the id and phone validators and `str.strip`.
- `order_ids.dfy`: the order id format and the counter rule.
- `entities.dfy`: `Produto`, `Cliente`, `ItemPedido` and `Pedido`.
- `delivery.dfy`: stock deduction on delivery.
- `shop.dfy`: `Lanchonete`.
- `sorting.dfy`: list comprehension, stable descending sort and slicing.
- `reports.dfy`: the three reports.
- `pos.dfy`: the point-of-sale cart.

## Model

| member | source | states |
|---|---|---|
| OrderStatus.Parse | lanchonete.py:125-130 | a string is accepted exactly when it is one of the five status names, and the status it yields is named by that string |
| OrderStatus.NameThenParse | lanchonete.py:125-130 | every status is accepted under its own name |
| Validation.IsBlank | lanchonete.py:231 | `not s.strip()`: every character is whitespace; `StripLeft` and `Strip` are empty exactly on such strings |
| Validation.StripLeft | lanchonete.py:231 | everything dropped in front is whitespace; the result is empty exactly when the string is blank, and otherwise does not start with whitespace |
| Validation.StripRight | lanchonete.py:231 | everything dropped at the end is whitespace; the result does not end with whitespace and keeps a non-space first character |
| Validation.Strip | lanchonete.py:262 | `strip()` drops only whitespace, before and after the part it keeps; that part is empty exactly when the string is blank, and otherwise neither starts nor ends with whitespace |
| Validation.StripLeftIsSuffix | lanchonete.py:262 | what `lstrip` keeps is a suffix of the string |
| Validation.StripRightIsPrefix | lanchonete.py:262 | what `rstrip` keeps is a prefix of the string |
| Validation.StripIsInfix | lanchonete.py:262 | what `strip` keeps is the contiguous part of the string starting where `lstrip` stops; with `Strip`'s contract this fixes the result |
| Validation.ValidId | lanchonete.py:200-201 | a valid id is non-empty and not blank |
| Validation.ValidPhone | lanchonete.py:203-204 | a valid phone has 8 to 15 characters and is also a valid id |
| Validation.DigitsAreLettersOrDigits | lanchonete.py:201-204 | a string of digits passes the alphanumeric test |
| OrderIds.Decimal | lanchonete.py:83 | the numeral of `n` is non-empty, all digits, one digit exactly when `n < 10`, with no leading zero unless `n` is 0 |
| OrderIds.PadTo4 | lanchonete.py:83 | zero-padding gives a digit string of length `max(4, len)` |
| OrderIds.PaddedIsZerosThenNumeral | lanchonete.py:83 | the padded numeral is zeros followed by the numeral |
| OrderIds.ValueOfDecimal | lanchonete.py:78-83 | reading a numeral back gives the number |
| OrderIds.LeadingZerosIgnored | lanchonete.py:78 | leading zeros do not change the value `int()` reads |
| OrderIds.FormatOrderId | lanchonete.py:83 | `f"PED{n:04d}"`; what it guarantees is proved in `FormatThenParse` and `FormatInjective` |
| OrderIds.ParseOrderId | lanchonete.py:78 | the number `int(id[3:])` of an id of the form PED + digits; `FormatThenParse` proves it undoes `FormatOrderId` |
| OrderIds.FormatThenParse | lanchonete.py:78-83 | the number read back from a generated id is the counter it was generated from |
| OrderIds.FormatInjective | lanchonete.py:82-83 | distinct counter values give distinct ids |
| OrderIds.NumberOrder | lanchonete.py:76-83 | with no id the counter advances by one and the id is "PED" + the padded counter; an explicit id is accepted exactly when what follows its first three characters is a non-empty digit string, is kept, and sets the counter to the larger of the counter and that number |
| OrderIds.ExplicitIdPrecedesLaterIds | lanchonete.py:76-83 | after an explicit id "PED" + digits, the next generated id has a strictly larger number, so it differs from the explicit id |
| Entities.Product.constructor | lanchonete.py:10-15 | a product holds exactly the given id, name, price, flag and stock |
| Entities.Product.UpdateAvailability | lanchonete.py:21-22 | only the availability flag changes |
| Entities.Product.UpdateInfo | lanchonete.py:24-31 | a name is taken only if non-empty; price and stock whenever given; the flag is kept |
| Entities.UpdateCustomer | lanchonete.py:169-176 | each of name, phone and address is replaced exactly when a non-empty value is given; the id is kept |
| Entities.SumAppend | lanchonete.py:110-112 | appending a line adds its subtotal to the sum |
| Entities.SumUpdate | lanchonete.py:104-107 | replacing a line changes the sum by the difference of the subtotals |
| Entities.SumRemove | lanchonete.py:119-120 | deleting a line subtracts its subtotal from the sum |
| Entities.FindLine | lanchonete.py:99-100 | the index found is the first line for the product id; none is found exactly when no line has that id |
| Entities.AddDecision | lanchonete.py:91-113 | an item is accepted exactly when the product is available and stock covers the quantity and any merged quantity; a new line also needs a positive quantity; the refusal is "unavailable" exactly when the product is unavailable |
| Entities.Order.constructor | lanchonete.py:74-89 | a new order has no lines, status "Pendente" and total 0, and keeps its total equal to the sum of its lines |
| Entities.Order.AddItem | lanchonete.py:91-113 | a refusal changes nothing; a repeat add merges into the existing line, recomputes its subtotal at the line's product price and adjusts the total by the difference; a first add appends one line; the total stays the sum of the subtotals and no product gets two lines |
| Entities.Order.RemoveItem | lanchonete.py:115-123 | answers true exactly when a line has the id; deletes the first such line and subtracts its subtotal; otherwise nothing changes |
| Entities.Order.UpdateStatus | lanchonete.py:125-130 | the status changes exactly when the name is one of the five; lines and total never change |
| Delivery.Demands | lanchonete.py:334-335 | one demand per line, with the line's product id and quantity |
| Delivery.DistinctLinesGiveDistinctDemands | lanchonete.py:99-108 | an order with one line per product asks for each product once |
| Delivery.DeliverAsWritten | lanchonete.py:333-341 | the deduction loop keeps the set of products |
| Delivery.DeliveryKeepsStockNonNegative | lanchonete.py:336-341 | whether the loop finishes or stops half-way, no stock becomes negative |
| Delivery.FailedDeliveryKeepsEarlierDeductions | lanchonete.py:333-341 | a refused delivery leaves the stock with exactly the lines before the failing one deducted, and that line cannot be served from what they left |
| Delivery.DeliveredDeductsDemand | lanchonete.py:334-341 | a delivery that goes through takes from every product exactly the units its lines ask for |
| Delivery.RedeliveryDeductsAgain | lanchonete.py:333-347 | a delivered order that is cancelled and delivered again takes its units from the stock twice |
| Delivery.RedeliveryWitness | lanchonete.py:333-347 | five in stock and an order for two, delivered, cancelled and delivered again, leaves one |
| Delivery.FirstShortfall | lanchonete.py:334-341 | the first order line the catalogue cannot serve, missing product or too little stock; characterised by `NoShortfallIffCovered` |
| Delivery.NoShortfallIffCovered | lanchonete.py:334-341 | there is no shortfall exactly when every line names a catalogue product with enough stock |
| Delivery.DeductAll | lanchonete.py:340 | deducting keeps the set of products |
| Delivery.DeliverValidated | lanchonete.py:333-341 | the all-or-nothing delivery leaves the stock untouched when it fails |
| Delivery.ShortfallIgnoresOtherProducts | lanchonete.py:334-341 | changing a product no line names does not change the first shortfall |
| Delivery.CoveredAfterServing | lanchonete.py:334-341 | with one line per product, serving one line of a covered order leaves the rest covered |
| Delivery.DeductStep | lanchonete.py:340 | deducting from position `i` is deducting line `i`, then the rest |
| Delivery.DeliverStep | lanchonete.py:334-341 | delivering from position `i` is delivering line `i`, then the rest from what it leaves |
| Delivery.ValidatedAgreesWithAsWritten | lanchonete.py:333-341 | with one line per product, validating first gives the same success, the same stock on success and the same reason on failure |
| Delivery.ValidatedKeepsStockNonNegative | lanchonete.py:333-341 | the all-or-nothing delivery never makes stock negative |
| Delivery.PartialDeductionWitness | lanchonete.py:334-341 | X×1 and Y×5 with 3 X and 2 Y in stock: as written the delivery fails on Y with X already down to 2; validated, it fails with the stock untouched |
| Shop.ProductCheck | lanchonete.py:207-215 | a product passes exactly when its id is alphanumeric and new, its price positive and its stock non-negative; a bad id and a duplicate id give their own errors |
| Shop.ProductUpdateCheck | lanchonete.py:231-236 | an update passes exactly when each given name is not blank, each given price is positive and each given stock is non-negative |
| Shop.CustomerCheck | lanchonete.py:257-265 | a customer passes exactly when the id is alphanumeric and new, the name not blank and the phone 8 to 15 digits |
| Shop.CustomerUpdateCheck | lanchonete.py:276-280 | an update passes exactly when each given name is not blank and each given phone is valid |
| Shop.Catalogue.constructor | lanchonete.py:193 | the catalogue starts empty |
| Shop.Catalogue.Take | lanchonete.py:340 | `estoque -= quantidade` lowers one product's stock by the quantity and changes no other stock |
| Shop.Catalogue.Serve | lanchonete.py:335-340 | one pass of the loop agrees with `DeliverAsWritten` on a single line |
| Shop.Catalogue.Deliver | lanchonete.py:333-341 | the deduction loop leaves the stock that `DeliverAsWritten` gives and reports its shortfall |
| Shop.Catalogue.FindShortfall | lanchonete.py:334-339 | finds the first line the stock cannot serve, without changing anything |
| Shop.Catalogue.DeliverChecked | lanchonete.py:333-341 | the all-or-nothing delivery leaves the stock that `DeliverValidated` gives |
| Shop.KnownAfterFiling | lanchonete.py:294-297 | filing an order of a registered customer keeps every order's customer registered |
| Shop.FileCustomer | lanchonete.py:267 | filing a customer that passes the checks keeps the register sound |
| Shop.Register.constructor | lanchonete.py:194 | the register starts empty |
| Shop.ElemsAppend | lanchonete.py:297 | appending an id adds it to the listed ids |
| Shop.ElemsMembership | lanchonete.py:355 | an id is listed exactly when it occurs in the sequence |
| Shop.WithoutElems | lanchonete.py:1642 | popping an id removes exactly that id from the listed ids |
| Shop.WithoutKeepsDistinct | lanchonete.py:1642 | popping keeps the ids free of repeats |
| Shop.WithoutLast | lanchonete.py:1642 | popping the id just appended restores the sequence |
| Shop.WithoutAbsent | lanchonete.py:1642 | popping an absent id changes nothing |
| Shop.NextNumber | lanchonete.py:82 | the next counter value gives an id that is not in use |
| Shop.FileNumber | lanchonete.py:82-83 | filing the id just numbered keeps numbering sound |
| Shop.FileKeepsBookSound | lanchonete.py:297 | filing a new order keeps every order filed under its own id with total = sum of lines |
| Shop.DropKeepsBookSound | lanchonete.py:1642 | popping an order keeps the book sound |
| Shop.UndoFiling | lanchonete.py:1642 | popping the order just filed restores the book |
| Shop.OrderBook.constructor | lanchonete.py:195 | the book starts empty with the counter at 0 |
| Shop.OrderBook.NewOrder | lanchonete.py:81-89 | `Pedido(id_cliente)` advances the counter and takes the id "PED" + the padded counter, which is not in the book |
| Shop.OrderBook.Insert | lanchonete.py:297 | `self.pedidos[id] = pedido` adds exactly that entry, last in insertion order |
| Shop.OrderBook.Open | lanchonete.py:296-297 | a new order is numbered and filed under a fresh id |
| Shop.OrderBook.Pop | lanchonete.py:1642 | `pedidos.pop(id)` deletes exactly that entry and its place in the insertion order |
| Shop.Lanchonete.constructor | lanchonete.py:191-195 | a new snack bar has an empty catalogue, register and book |
| Shop.Lanchonete.AddProduct | lanchonete.py:207-219 | the answer is the check's; the catalogue gains exactly that id on success and is unchanged otherwise |
| Shop.Lanchonete.RemoveProduct | lanchonete.py:221-226 | the id is gone afterwards; the answer says whether it was there |
| Shop.Lanchonete.UpdateProductInfo | lanchonete.py:228-241 | a missing product or a failed check changes nothing; otherwise the given fields are set and the flag is kept |
| Shop.Lanchonete.UpdateProductAvailability | lanchonete.py:243-249 | only the flag of the named product changes |
| Shop.Lanchonete.RegisterCustomer | lanchonete.py:257-269 | the answer is the check's; the register gains exactly that customer on success and is unchanged otherwise |
| Shop.Lanchonete.FindCustomer | lanchonete.py:271-272 | a customer is found exactly when registered, and a found customer is a valid one |
| Shop.Lanchonete.UpdateCustomerInfo | lanchonete.py:274-285 | an unknown id or a failed check changes nothing; otherwise `Cliente.atualizar_info` is applied |
| Shop.Lanchonete.CreateOrder | lanchonete.py:293-299 | succeeds exactly for a registered customer; then the counter advances by one and an empty "Pendente" order is filed under "PED" + the padded counter without overwriting any order; otherwise the book is unchanged |
| Shop.Lanchonete.FindOrder | lanchonete.py:349-350 | an order is found exactly when filed, and it is filed under its own id |
| Shop.Lanchonete.AddItemToOrder | lanchonete.py:301-317 | unknown order, unknown product and a non-positive quantity are refused in that order; otherwise the answer is `Pedido.adicionar_item`'s; on success the product's quantity on the order grows by the quantity; on failure nothing changes |
| Shop.Lanchonete.DeliverLines | lanchonete.py:333-341 | runs the deduction loop for an order's lines |
| Shop.Lanchonete.DeliverLinesChecked | lanchonete.py:333-341 | runs the all-or-nothing delivery for an order's lines |
| Shop.Lanchonete.SetStatus | lanchonete.py:343-347 | the status changes exactly to a valid name; stock is untouched |
| Shop.Lanchonete.UpdateOrderStatus | lanchonete.py:328-347 | moving into "Entregue" from another status leaves the stock `DeliverAsWritten` gives; a shortfall refuses with the status unchanged; any other change leaves the stock alone and sets the status only to a valid name |
| Shop.Lanchonete.UpdateOrderStatusAtomic | lanchonete.py:328-347 | the same with `DeliverValidated`: a refused delivery leaves every stock level as it was |
| Shop.Lanchonete.RemoveItemFromOrder | lanchonete.py:319-326 | succeeds exactly when the order has a line for the product, and deletes the first one; the total stays the sum of the lines |
| Sorting.Select | lanchonete.py:379 | the comprehension keeps only elements satisfying the condition |
| Sorting.SelectAppend | lanchonete.py:379 | selecting from a concatenation selects from each part |
| Sorting.SelectMembership | lanchonete.py:379 | an element is selected exactly when it is in the list and satisfies the condition |
| Sorting.WithKeyAppend | lanchonete.py:371 | the elements of one key in a concatenation are those of each part |
| Sorting.InsertDesc | lanchonete.py:371 | inserting adds one element |
| Sorting.SortDesc | lanchonete.py:371 | sorting keeps the length |
| Sorting.InsertPermutes | lanchonete.py:371 | inserting adds exactly the element |
| Sorting.SortPermutes | lanchonete.py:371 | the sort is a permutation |
| Sorting.InsertKeepsDescending | lanchonete.py:371 | inserting into a descending list keeps it descending |
| Sorting.SortIsDescending | lanchonete.py:371 | the sort result is in descending key order |
| Sorting.NoneWithKey | lanchonete.py:371 | a list with no element of key `c` has none to list |
| Sorting.DescendingTail | lanchonete.py:371 | the tail of a descending list is descending |
| Sorting.InsertFrontIsStable | lanchonete.py:371 | an element placed before smaller keys comes last among its own key |
| Sorting.InsertIsStable | lanchonete.py:371 | inserting puts the element after the earlier elements of its key |
| Sorting.SortIsStable | lanchonete.py:371 | the sort is stable: the elements of each key keep their original order |
| Sorting.SortKeepsTieOrder | lanchonete.py:371 | of two elements with equal keys, the sort lists first the one that came first |
| Sorting.InsertKeepsDistinct | lanchonete.py:371 | inserting a new image keeps images distinct |
| Sorting.SortKeepsDistinct | lanchonete.py:371 | sorting keeps distinct images distinct |
| Sorting.Head | lanchonete.py:372 | `s[:n]` has `min(n, len)` elements for `n >= 0` and all but the last `-n` for `n < 0`, each the element at the same position |
| Reports.OrdersInOrder | lanchonete.py:355 | the orders visited are filed orders, at most one per id |
| Reports.OrdersInOrderFollowsIds | lanchonete.py:355 | when every id is filed, the i-th order visited is the order of the i-th id |
| Reports.BookListsEveryOrder | lanchonete.py:355 | in a sound book every filed order is visited, in insertion order |
| Reports.LineRecords | lanchonete.py:368 | a line is reported with its product's current name and its quantity |
| Reports.Records | lanchonete.py:355-358 | each order is reported with its creation time, status, total and lines |
| Reports.TotalSales | lanchonete.py:353-362 | the sum of the totals of the delivered orders inside the given bounds; never negative when no total is, and zero when no order counts (none delivered, or an end before the start) |
| Reports.TotalSalesAppend | lanchonete.py:353-362 | the sales of a list are the sales of its parts added up |
| Reports.TotalSalesSplit | lanchonete.py:353-362 | splitting a period at a moment inside it splits its sales |
| Reports.NamesListed | lanchonete.py:369 | a name is tallied exactly when some pair carries it |
| Reports.Bump | lanchonete.py:369 | `vendas[nome] = vendas.get(nome, 0) + q` adds `q` to that name only and lists the name; a name already listed leaves every key in its place, a new name is appended last with `q` units |
| Reports.BumpKeys | lanchonete.py:369 | the dict's keys gain the name, at the end, exactly when it was not a key yet |
| Reports.DistinctTail | lanchonete.py:369 | the tail of a tally lists each name once and not the head's |
| Reports.BumpKeepsDistinct | lanchonete.py:369 | the dict never lists a name twice |
| Reports.TallyLines | lanchonete.py:367-369 | the inner loop adds each line's units under its name |
| Reports.TallyLinesKeys | lanchonete.py:367-369 | the inner loop appends to the keys the names on the lines that are not keys yet, in the order of the lines |
| Reports.ExtendIsFirstAppearanceOrder | lanchonete.py:369 | the reference order lists every name of a sequence once, a name before another only if it appears before the other first does |
| Reports.TallyLinesKeepsDistinct | lanchonete.py:367-369 | the inner loop never lists a name twice |
| Reports.Sales | lanchonete.py:365-369 | `vendas_por_produto` holds the units sold of each name over the delivered orders, and exactly the names sold |
| Reports.SalesInFirstSaleOrder | lanchonete.py:365-369 | `vendas_por_produto` lists the names in the order of their first sale: of two names, the one listed first was sold before the other was first sold |
| Reports.SalesAreDistinct | lanchonete.py:365-369 | each name sold has one entry |
| Reports.UnitsOfListed | lanchonete.py:369 | the units of a listed name are those of its pair |
| Reports.UnitsOfAbsent | lanchonete.py:369 | an unlisted name has no units |
| Reports.Ranking | lanchonete.py:371 | `sorted(vendas_por_produto.items(), ..., reverse=True)` holds the same pairs, from most to fewest units |
| Reports.RankingIsComplete | lanchonete.py:365-371 | the ranking lists every name sold once, with its units sold, from most to fewest units |
| Reports.TopProducts | lanchonete.py:372 | the slice `[:top_n]` of the ranking: at most `top_n` pairs of `vendas_por_produto`, from most to fewest units |
| Reports.TopProductsAreRanked | lanchonete.py:364-372 | each listed name was sold in exactly the listed units; no name is listed twice; the list runs from most to fewest |
| Reports.UnlistedSoldNoMore | lanchonete.py:364-372 | a product sold but not listed sold no more units than any product listed |
| Reports.RankingTiesKeepSalesOrder | lanchonete.py:371 | pairs with equal units keep their `vendas_por_produto` order in the ranking |
| Reports.TopProductsTiesKeepFirstSaleOrder | lanchonete.py:365-372 | of two listed products with equal units, the one listed first was sold before the other was first sold |
| Reports.CustomerOrders | lanchonete.py:374-380 | nothing for an unregistered customer; otherwise the customer's orders, latest first |
| Reports.CustomerOrdersAreTheirs | lanchonete.py:374-380 | an unregistered customer gets nothing; otherwise exactly the customer's orders, each as often as filed, latest first, ties in book order |
| Reports.CustomerOrdersInBook | lanchonete.py:374-380 | the report lists only filed orders of that customer; in a sound book, every filed order of a registered customer |
| Reports.SalesInPeriod | lanchonete.py:353-362 | the period report on the snack bar's orders: never negative when no order total is; zero when no filed order was delivered or the period ends before it starts |
| Reports.BestSellers | lanchonete.py:364-372 | the best-seller report on the snack bar's orders: at most `top_n` names, none twice, each with the units of it sold in delivered filed orders, from most to fewest |
| Reports.OrdersOfCustomer | lanchonete.py:374-380 | the customer report on the snack bar: empty for an unregistered customer; only filed orders of that customer; in a sound book, all of them; latest first |
| Reports.TotalSalesReport | lanchonete.py:353-362 | the accumulator loop, with its two `continue`s, adds up exactly the totals `TotalSales` counts for the period |
| Reports.TallyOrderLines | lanchonete.py:367-369 | the inner loop over `pedido.itens` computes exactly `TallyLines` |
| Reports.BestSellersReport | lanchonete.py:364-372 | the two tally loops, the sort and the slice give exactly `TopProducts`, whose ranking the lemmas above describe |
| PointOfSale.FindEntry | lanchonete.py:1559 | the entry found has the product id; none is found exactly when no entry has it |
| PointOfSale.FoundIsOnly | lanchonete.py:1565 | in a well-formed cart the entry for an id is the only one |
| PointOfSale.CartLines | lanchonete.py:1632-1637 | one line per entry, with the entry's product, quantity and subtotal at the current price |
| PointOfSale.NoEarlierLine | lanchonete.py:1632-1637 | while copying, the new order has no line yet for the entry's product |
| PointOfSale.Shortages | lanchonete.py:1616-1621 | the ids whose stock no longer covers the staged quantity; characterised by `NoShortagesIffCovered` and `ShortagesAreShort` |
| PointOfSale.NoShortagesIffCovered | lanchonete.py:1616-1623 | the stock re-check reports nothing exactly when every staged quantity is covered |
| PointOfSale.ShortagesAreShort | lanchonete.py:1616-1621 | every id reported short has an entry whose stock is below its staged quantity |
| PointOfSale.FirstUnavailable | lanchonete.py:1637-1638 | the entry found is the first whose product is no longer available |
| PointOfSale.UnavailableAt | lanchonete.py:1637-1638 | an unavailable entry with only available ones before it is the first one |
| PointOfSale.RemovedIndex | lanchonete.py:1586 | deleting an entry moves every later entry one place forward |
| PointOfSale.RemovedEntryFor | lanchonete.py:1586 | deleting an entry unstages its product and no other |
| PointOfSale.RemovedEntry | lanchonete.py:1586 | deleting an entry keeps the cart well formed and unstages that product only |
| PointOfSale.StagedQuantity | lanchonete.py:1559 | `carrinho_pdv.get(id, {}).get("quantidade", 0)`; how staging changes it is proved in `StagedEntry` |
| PointOfSale.StageEntry | lanchonete.py:1565-1568 | grows the entry of the product's id or adds a new one last; its effect is proved in `StagedEntry` |
| PointOfSale.StagedEntry | lanchonete.py:1565-1568 | staging keeps the cart well formed and adds the quantity to that product only |
| PointOfSale.SaleVerdict | lanchonete.py:1602-1644 | a sale goes through exactly when a customer is chosen, the cart has entries, nothing is short, the customer is registered and every product is still available |
| PointOfSale.Till.constructor | lanchonete.py:467 | the cart starts empty |
| PointOfSale.Till.AddToCart | lanchonete.py:1536-1568 | a missing or unavailable product, a non-integer, a non-positive quantity and staged + new > stock are refused in that order with the cart unchanged; otherwise the entry grows or is added last, and the staged total stays within stock |
| PointOfSale.Till.RemoveFromCart | lanchonete.py:1576-1590 | succeeds exactly when the product has an entry, and deletes only it |
| PointOfSale.Till.ClearCart | lanchonete.py:1592-1600 | an empty cart is refused; afterwards the cart is empty |
| PointOfSale.Till.FindShortages | lanchonete.py:1616-1621 | the loop collects the ids whose stock no longer covers the staged quantity |
| PointOfSale.Till.CopyEntry | lanchonete.py:1637-1638 | a covered entry is copied as a new last line exactly when its product is available |
| PointOfSale.Till.CopyCart | lanchonete.py:1632-1644 | the copy loop stops at the first unavailable product, or copies every entry as a line |
| PointOfSale.Till.Fill | lanchonete.py:1632-1644 | a refused copy pops the order, restoring the book, and keeps the cart; otherwise the cart is emptied |
| PointOfSale.Till.PlaceOrder | lanchonete.py:1627-1644 | the order is created and filled, or the book is left as it was |
| PointOfSale.Till.Checkout | lanchonete.py:1602-1675 | the answer is the first failing check in source order; the counter advances exactly when `criar_pedido` runs; a refusal keeps the cart and the book; a sale files one new order whose lines are the cart's, and empties the cart; no stock is touched |

## Left out

- JSON persistence (`salvar_dados`, `carregar_dados`, `to_dict`, `from_dict`) is file I/O and is not modelled. Two consequences are not captured. First, an order loaded from file keeps its stored `valor_total` and its lines are attached without recomputing it (lanchonete.py:408-423). A loaded order can therefore break the total-equals-sum invariant that every modelled operation keeps.
- Shop.Lanchonete.CreateOrder and OrderIds.ExplicitIdPrecedesLaterIds: second, loading rebuilds the orders with their explicit ids (each raising the counter, lanchonete.py:78-80) and then resets the counter to the stored `next_pedido_id`, or 0 when the key is missing (lanchonete.py:429). A loaded book can therefore break `Shop.NumberingOk`. The next `criar_pedido` can then issue an id already filed, and lanchonete.py:297 overwrites that order. The guarantee that a new order overwrites nothing, and the effect of a larger next number, hold only for books built by the modelled operations.
- The Tk widgets, `messagebox` confirmations and `exibir_mensagem` are not modelled. The selected product, typed quantity and chosen customer are parameters, and every confirmation is taken as "yes".
- `LanchoneteApp.adicionar_item_a_pedido` and `remover_item_de_pedido` (lanchonete.py:1069-1151) are not modelled. They refer to attributes the app does not have and are never called.
- Prices and totals are integer cents, not floats, so the model has no rounding.
- `datetime.now()` and ISO timestamps are integers. The creation time is a parameter.
- `int()` on the typed quantity becomes an `Option<int>`: `None` when Python raises `ValueError`. The same goes for `int(id_pedido[3:])` on an explicit order id, which, like the source, does not look at the first three characters. `int()` also accepts signs, surrounding spaces, underscores and non-ASCII decimal digits; the model reads only ASCII digit strings.
- `\d` in `_validar_telefone` also matches non-ASCII Unicode digits; the model accepts ASCII digits only.
- The `__str__` methods, `exibir_cardapio`, `listar_clientes` and the report text are not modelled.
- `Pedido._id_counter` is a class attribute. Here it is a field of the one order book, which is equivalent for a single `Lanchonete`.
- `Product.id` is a `const`. The source never reassigns it.
- Reports.TotalSalesReport: loops over the value snapshot of the orders (`Reports.Records` of `Reports.OrdersInOrder`), not over the order objects. `Reports.SalesInPeriod` ties that snapshot to the book. Nothing can change the orders while the query runs.
- Reports.BestSellersReport: loops over the same value snapshot. `Reports.BestSellers` ties it to the book.
- Shop.Lanchonete.AddItemToOrder: on success it states the product's new quantity on the order, not the whole new line list. `Entities.Order.AddItem` states the full list.
- PointOfSale.Till.Checkout: states no stock-unchanged clause. Its `modifies` clause names only the cart and the order book, so no product can change.

## Findings

| source | as written | input that shows it | evidently intended | confidence | as-written member | corrected member |
|---|---|---|---|---|---|---|
| lanchonete.py:334-341 | the delivery loop deducts each line as it goes and returns on the first missing or short product, keeping the deductions already made for earlier lines, while the order stays undelivered | stock X=3, Y=2; order X×1, Y×5; status set to "Entregue": refused for Y, and X is left at 2 | a refused delivery leaves every stock level unchanged: check every line first, then deduct | not executed | Delivery.PartialDeductionWitness | Shop.Lanchonete.UpdateOrderStatusAtomic |
