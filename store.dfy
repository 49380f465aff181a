/** The tables `createSale` and `updatePaymentStatus` touch (customers keyed by
    phone, sales, sale_items) and the effect of each statement they issue
    (server/controllers/salesController.js:18-60, 148-151). Identifiers come
    from one counter shared by the three tables, so the ids the model hands out are
    fresh and distinct but fixed by that counter (a database has a sequence per table). */
module Store {
  import opened Common

  datatype Customer = Customer(id: nat, name: string, phone: string, address: Option<string>)

  datatype Sale = Sale(id: nat, customerId: nat, staffId: nat, total: int,
                       status: Option<string>, paymentDate: Option<string>)

  /** One entry of the request's `items`; amounts are whole currency units. */
  datatype Item = Item(serviceId: Value, itemType: Value, quantity: Value, unitPrice: Value, subtotal: int)

  datatype SaleItem = SaleItem(id: nat, saleId: nat, item: Item)

  datatype Tables = Tables(customers: seq<Customer>, sales: seq<Sale>, saleItems: seq<SaleItem>, nextId: nat)

  /** The statements of the sales controller, by what they mean. */
  datatype Stmt =
    | /** SELECT id FROM customers WHERE phone = ? */
      FindCustomer(phone: string)
    | /** UPDATE customers SET name = ?, address = COALESCE(?, address) WHERE id = ? */
      UpdateCustomer(id: nat, name: string, address: Option<string>)
    | /** INSERT INTO customers (name, phone, address) VALUES (?, ?, ?) */
      InsertCustomer(name: string, phone: string, address: Option<string>)
    | /** INSERT INTO sales (customer_id, staff_id, total_amount, payment_status, payment_date) ... */
      InsertSale(customerId: nat, staffId: nat, total: int, status: Option<string>, paymentDate: Option<string>)
    | /** INSERT INTO sale_items (sale_id, service_id, item_type, quantity, unit_price, subtotal) ... */
      InsertSaleItem(saleId: nat, item: Item)
    | /** UPDATE sales SET payment_status = ?, payment_date = ? WHERE id = ? */
      SetPayment(saleId: nat, newStatus: string, paymentDate: Option<string>)

  /** The normalised reply: the ids a SELECT found, or the new id of an insert and
      the number of rows changed. */
  datatype Reply = Found(ids: seq<nat>) | Written(insertId: nat, affected: nat)

  /** The ids of the customers with this phone, in table order. */
  function WithPhone(cs: seq<Customer>, phone: string): (ids: seq<nat>)
    ensures |ids| <= |cs|
    ensures forall id :: id in ids <==> exists k :: 0 <= k < |cs| && cs[k].phone == phone && cs[k].id == id
  {
    if cs == [] then []
    else
      var rest := WithPhone(cs[1..], phone);
      assert forall k :: 0 <= k < |cs| - 1 ==> cs[1..][k] == cs[k + 1];
      if cs[0].phone == phone then [cs[0].id] + rest else rest
  }

  /** `name = ?, address = COALESCE(?, address)` on every customer with this id. */
  function Rename(cs: seq<Customer>, id: nat, name: string, address: Option<string>): (r: seq<Customer>)
    ensures |r| == |cs|
    ensures forall k :: 0 <= k < |cs| ==>
      r[k] == if cs[k].id == id
              then Customer(id, name, cs[k].phone, if address.Some? then address else cs[k].address)
              else cs[k]
  {
    seq(|cs|, k requires 0 <= k < |cs| =>
      if cs[k].id == id then Customer(id, name, cs[k].phone, if address.Some? then address else cs[k].address)
      else cs[k])
  }

  /** `payment_status = ?, payment_date = ?` on every sale with this id. */
  function Repay(ss: seq<Sale>, id: nat, status: string, paymentDate: Option<string>): (r: seq<Sale>)
    ensures |r| == |ss|
    ensures forall k :: 0 <= k < |ss| ==>
      r[k] == if ss[k].id == id then ss[k].(status := Some(status), paymentDate := paymentDate) else ss[k]
  {
    seq(|ss|, k requires 0 <= k < |ss| =>
      if ss[k].id == id then ss[k].(status := Some(status), paymentDate := paymentDate) else ss[k])
  }

  function CustomersWithId(cs: seq<Customer>, id: nat): nat {
    if cs == [] then 0 else (if cs[0].id == id then 1 else 0) + CustomersWithId(cs[1..], id)
  }

  function SalesWithId(ss: seq<Sale>, id: nat): nat {
    if ss == [] then 0 else (if ss[0].id == id then 1 else 0) + SalesWithId(ss[1..], id)
  }

  /** What a statement does to the tables and what the caller gets back. */
  function Apply(t: Tables, s: Stmt): (Tables, Reply) {
    match s
    case FindCustomer(phone) => (t, Found(WithPhone(t.customers, phone)))
    case UpdateCustomer(id, name, address) =>
      (t.(customers := Rename(t.customers, id, name, address)), Written(0, CustomersWithId(t.customers, id)))
    case InsertCustomer(name, phone, address) =>
      (t.(customers := t.customers + [Customer(t.nextId, name, phone, address)], nextId := t.nextId + 1),
       Written(t.nextId, 1))
    case InsertSale(customerId, staffId, total, status, paymentDate) =>
      (t.(sales := t.sales + [Sale(t.nextId, customerId, staffId, total, status, paymentDate)], nextId := t.nextId + 1),
       Written(t.nextId, 1))
    case InsertSaleItem(saleId, item) =>
      (t.(saleItems := t.saleItems + [SaleItem(t.nextId, saleId, item)], nextId := t.nextId + 1),
       Written(t.nextId, 1))
    case SetPayment(saleId, status, paymentDate) =>
      (t.(sales := Repay(t.sales, saleId, status, paymentDate)), Written(0, SalesWithId(t.sales, saleId)))
  }
}
