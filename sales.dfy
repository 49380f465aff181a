/** The sales controller (server/controllers/salesController.js): `createSale`
    as a transaction on a session, the validation of `updatePaymentStatus`, and
    the statement `getUnpaidSales` builds. The statements' effects on the tables
    are those of module Store; the clock is the parameter `now`. */
module Sales {
  import opened Common
  import opened Text
  import opened Store
  import opened Sessions

  /** The fields of the request body `createSale` reads; `None` is a field that
      is absent or null. */
  datatype Request = Request(customerName: Option<string>, customerPhone: Option<string>,
                             customerAddress: Option<string>, items: Option<seq<Item>>,
                             paymentStatus: Option<string>)

  datatype Response = Created(saleId: nat) | BadRequest(error: string) | ServerError(error: string)

  /** A string field is truthy in JavaScript when present and not empty. */
  predicate Truthy(v: Option<string>) {
    v.Some? && v.value != ""
  }

  /** The 400 condition: a name, a phone or the items are missing, or there are no items. */
  predicate Missing(req: Request) {
    !Truthy(req.customerName) || !Truthy(req.customerPhone) || req.items.None? || |req.items.value| == 0
  }

  /** `customer_address || null`. */
  function AddressParam(address: Option<string>): (r: Option<string>)
    ensures r.Some? <==> Truthy(address)
    ensures r.Some? ==> r == address
  {
    if Truthy(address) then address else None
  }

  /** `payment_status === 'paid' ? new Date().toISOString() : null`, the clock
      reading being `now`. */
  function PaymentDate(status: Option<string>, now: string): (r: Option<string>)
    ensures r.Some? <==> status == Some("paid")
    ensures r.Some? ==> r.value == now
  {
    if status == Some("paid") then Some(now) else None
  }

  /** The sum of the items' subtotals, taken from the front like the source's loop. */
  function Total(items: seq<Item>): int {
    if items == [] then 0 else Total(items[..|items| - 1]) + items[|items| - 1].subtotal
  }

  // ---------------------------------------------------------------------------
  // The statements a valid request issues

  /** The ids in the reply to the customer lookup. */
  function IdsOf(r: Reply): seq<nat> {
    match r
    case Found(ids) => ids
    case Written(_, _) => []
  }

  /** The `insertId` of a reply. */
  function InsertId(r: Reply): nat {
    match r
    case Written(id, _) => id
    case Found(_) => 0
  }

  /** The customer the sale is for: the first one with the phone, or the one about to be inserted. */
  function CustomerIdOf(t: Tables, phone: string): nat {
    var ids := WithPhone(t.customers, phone);
    if |ids| > 0 then ids[0] else t.nextId
  }

  /** The second statement: update the customer found, or insert a new one. */
  function CustomerStmt(t: Tables, req: Request): Stmt
    requires !Missing(req)
  {
    var ids := WithPhone(t.customers, req.customerPhone.value);
    if |ids| > 0 then UpdateCustomer(ids[0], req.customerName.value, AddressParam(req.customerAddress))
    else InsertCustomer(req.customerName.value, req.customerPhone.value, AddressParam(req.customerAddress))
  }

  /** The tables after the customer statement. */
  function AfterCustomer(t: Tables, req: Request): Tables
    requires !Missing(req)
  {
    Apply(t, CustomerStmt(t, req)).0
  }

  /** The id the new sale receives. */
  function SaleIdOf(t: Tables, req: Request): nat
    requires !Missing(req)
  {
    AfterCustomer(t, req).nextId
  }

  /** The sale row's insert. */
  function SaleStmt(customerId: nat, staffId: nat, items: seq<Item>, status: Option<string>, now: string): Stmt {
    InsertSale(customerId, staffId, Total(items), status, PaymentDate(status, now))
  }

  function ItemStmts(saleId: nat, items: seq<Item>): (r: seq<Stmt>)
    ensures |r| == |items|
  {
    seq(|items|, k requires 0 <= k < |items| => InsertSaleItem(saleId, items[k]))
  }

  /** The lookup and the customer statement. */
  function CustomerStmts(t: Tables, req: Request): (r: seq<Stmt>)
    requires !Missing(req)
    ensures |r| == 2
  {
    [FindCustomer(req.customerPhone.value), CustomerStmt(t, req)]
  }

  /** The sale's insert and one insert per item, on tables `t` where the sale gets id `t.nextId`. */
  function SaleAndItems(t: Tables, customerId: nat, staffId: nat, items: seq<Item>, status: Option<string>, now: string): (r: seq<Stmt>)
    ensures |r| == 1 + |items|
  {
    [SaleStmt(customerId, staffId, items, status, now)] + ItemStmts(t.nextId, items)
  }

  /** Every statement of a successful `createSale` on tables `t`, in order. */
  function Statements(t: Tables, req: Request, staffId: nat, now: string): (r: seq<Stmt>)
    requires !Missing(req)
    ensures |r| == 3 + |req.items.value|
  {
    CustomerStmts(t, req)
      + SaleAndItems(AfterCustomer(t, req), CustomerIdOf(t, req.customerPhone.value), staffId, req.items.value, req.paymentStatus, now)
  }

  /** The session calls that issue `ss`. */
  function QueryCalls(ss: seq<Stmt>): (r: seq<Call>)
    ensures |r| == |ss|
  {
    seq(|ss|, k requires 0 <= k < |ss| => CallQuery(ss[k]))
  }

  /** The tables after running `ss` in order. */
  function RunAll(t: Tables, ss: seq<Stmt>): Tables {
    if ss == [] then t else Apply(RunAll(t, ss[..|ss| - 1]), ss[|ss| - 1]).0
  }

  /** The `sale_items` rows for `items`, numbered from `first`. */
  function ItemRows(first: nat, saleId: nat, items: seq<Item>): (r: seq<SaleItem>)
    ensures |r| == |items|
  {
    seq(|items|, k requires 0 <= k < |items| => SaleItem(first + k, saleId, items[k]))
  }

  /** No statement throws among the `n` queries from number `q0` on. */
  predicate NoFault(fault: Option<nat>, q0: nat, n: nat) {
    fault.None? || fault.value < q0 || q0 + n <= fault.value
  }

  // ---------------------------------------------------------------------------
  // What a successful `createSale` writes

  /** The subtotals are added in item order, and splitting the items splits the total. */
  lemma {:induction false} TotalAppend(a: seq<Item>, b: seq<Item>)
    ensures Total(a + b) == Total(a) + Total(b)
    decreases |b|
  {
    if b == [] {
      assert a + b == a;
    } else {
      var b0 := b[..|b| - 1];
      assert (a + b)[..|a + b| - 1] == a + b0;
      TotalAppend(a, b0);
    }
  }

  /** Running `a` then `b` is running `a + b`. */
  lemma {:induction false} RunAllAppend(t: Tables, a: seq<Stmt>, b: seq<Stmt>)
    ensures RunAll(t, a + b) == RunAll(RunAll(t, a), b)
    decreases |b|
  {
    if b == [] {
      assert a + b == a;
    } else {
      assert (a + b)[..|a + b| - 1] == a + b[..|b| - 1];
      RunAllAppend(t, a, b[..|b| - 1]);
    }
  }

  /** One `sale_items` row per item, in item order, each with the sale's id and a
      fresh id of its own; nothing else changes. */
  lemma {:induction false} ItemsInserted(t: Tables, saleId: nat, items: seq<Item>)
    ensures RunAll(t, ItemStmts(saleId, items))
         == t.(saleItems := t.saleItems + ItemRows(t.nextId, saleId, items), nextId := t.nextId + |items|)
    decreases |items|
  {
    if items != [] {
      var n := |items| - 1;
      var init := items[..n];
      assert ItemStmts(saleId, items)[..n] == ItemStmts(saleId, init);
      ItemsInserted(t, saleId, init);
      assert ItemRows(t.nextId, saleId, items) == ItemRows(t.nextId, saleId, init) + [SaleItem(t.nextId + n, saleId, items[n])];
    } else {
      assert t.saleItems + ItemRows(t.nextId, saleId, items) == t.saleItems;
    }
  }

  /** The customer step reuses the first customer with the phone, renaming it and
      changing its address only when one is given; otherwise it inserts exactly one
      customer, whose id is the sale's customer id. */
  lemma {:induction false} CustomerFoundOrInserted(t: Tables, req: Request)
    requires !Missing(req)
    ensures var phone := req.customerPhone.value;
      var t1 := AfterCustomer(t, req);
      var id := CustomerIdOf(t, phone);
      t1.sales == t.sales && t1.saleItems == t.saleItems &&
      if exists k :: 0 <= k < |t.customers| && t.customers[k].phone == phone then
        && t1.nextId == t.nextId
        && |t1.customers| == |t.customers|
        && (exists k :: 0 <= k < |t.customers| && t.customers[k].phone == phone && t.customers[k].id == id)
        && (forall k :: 0 <= k < |t.customers| && t.customers[k].id == id ==>
              t1.customers[k] == Customer(id, req.customerName.value, t.customers[k].phone,
                                          if Truthy(req.customerAddress) then req.customerAddress else t.customers[k].address))
        && (forall k :: 0 <= k < |t.customers| && t.customers[k].id != id ==> t1.customers[k] == t.customers[k])
      else
        && id == t.nextId && t1.nextId == t.nextId + 1
        && t1.customers == t.customers + [Customer(id, req.customerName.value, phone, AddressParam(req.customerAddress))]
  {
    var phone := req.customerPhone.value;
    var ids := WithPhone(t.customers, phone);
    if |ids| > 0 {
      assert ids[0] in ids;
    } else {
      forall k | 0 <= k < |t.customers|
        ensures t.customers[k].phone != phone
      {
        assert t.customers[k].id !in ids;
      }
    }
  }

  /** A successful `createSale` writes exactly: the customer step, one sale whose
      total is the sum of the subtotals and which carries a payment date exactly
      when it is paid, and one `sale_items` row per item, in order, pointing at the
      sale. */
  lemma {:induction false} SaleWrites(t: Tables, req: Request, staffId: nat, now: string)
    requires !Missing(req)
    ensures var t1 := AfterCustomer(t, req);
      var sid := SaleIdOf(t, req);
      var items := req.items.value;
      var w := RunAll(t, Statements(t, req, staffId, now));
      && w.customers == t1.customers
      && w.sales == t.sales + [Sale(sid, CustomerIdOf(t, req.customerPhone.value), staffId, Total(items),
                                    req.paymentStatus, PaymentDate(req.paymentStatus, now))]
      && (w.sales[|t.sales|].paymentDate.Some? <==> req.paymentStatus == Some("paid"))
      && w.saleItems == t.saleItems + ItemRows(sid + 1, sid, items)
      && w.nextId == sid + 1 + |items|
  {
    var items := req.items.value;
    var sid := SaleIdOf(t, req);
    var head := CustomerStmts(t, req) + [SaleStmt(CustomerIdOf(t, req.customerPhone.value), staffId, items, req.paymentStatus, now)];
    assert Statements(t, req, staffId, now) == head + ItemStmts(sid, items);
    CustomerFoundOrInserted(t, req);
    SaleHeadRuns(t, req, staffId, now);
    RunAllAppend(t, head, ItemStmts(sid, items));
    ItemsInserted(RunAll(t, head), sid, items);
  }

  /** The customer statements and the sale insert leave the tables as the insert
      into `AfterCustomer` does. */
  lemma {:induction false} SaleHeadRuns(t: Tables, req: Request, staffId: nat, now: string)
    requires !Missing(req)
    ensures var head := CustomerStmts(t, req)
              + [SaleStmt(CustomerIdOf(t, req.customerPhone.value), staffId, req.items.value, req.paymentStatus, now)];
      RunAll(t, head) == Apply(AfterCustomer(t, req), head[2]).0
  {
    var head := CustomerStmts(t, req)
      + [SaleStmt(CustomerIdOf(t, req.customerPhone.value), staffId, req.items.value, req.paymentStatus, now)];
    CustomerStmtsRun(t, req);
    assert head[..2] == CustomerStmts(t, req);
    RunAllStep(t, head, 2);
    assert head[..3] == head;
  }

  /** The issued statements and the tables as the session's handle sees them agree
      statement by statement. */
  lemma {:induction false} RunAllStep(t: Tables, ss: seq<Stmt>, n: nat)
    requires n < |ss|
    ensures RunAll(t, ss[..n + 1]) == Apply(RunAll(t, ss[..n]), ss[n]).0
  {
    assert ss[..n + 1][..n] == ss[..n];
  }

  // ---------------------------------------------------------------------------
  // The transaction

  /** The session ran a prefix of `ss`, starting from call log `c0`, query count
      `q0` and tables `t0`, and now has call log `calls`, query count `q` and
      tables `data`. With `ok` every statement ran; without it the last query
      issued threw, and the statements before it ran. */
  predicate Issued(ss: seq<Stmt>, fault: Option<nat>, t0: Tables, c0: seq<Call>, q0: nat,
                   data: Tables, calls: seq<Call>, q: nat, ok: bool) {
    && q0 <= q <= q0 + |ss|
    && calls == c0 + QueryCalls(ss[..q - q0])
    && (ok <==> NoFault(fault, q0, |ss|))
    && (ok ==> q == q0 + |ss| && data == RunAll(t0, ss))
    && (!ok ==> q0 < q && fault == Some(q - 1) && data == RunAll(t0, ss[..q - q0 - 1]))
  }

  /** One query: it runs, or it is the one that throws. */
  lemma {:induction false} IssuedOne(s: Stmt, fault: Option<nat>, t0: Tables, c0: seq<Call>, q0: nat)
    ensures Issued([s], fault, t0, c0, q0, if fault == Some(q0) then t0 else Apply(t0, s).0,
                   c0 + [CallQuery(s)], q0 + 1, fault != Some(q0))
  {
    assert [s][..1] == [s] && [s][..0] == [];
  }

  /** Running all of `a` and then a prefix of `b` is running a prefix of `a + b`. */
  lemma {:induction false} IssuedSeq(a: seq<Stmt>, b: seq<Stmt>, fault: Option<nat>, t0: Tables, c0: seq<Call>, q0: nat,
                                     t1: Tables, c1: seq<Call>, q1: nat, data: Tables, calls: seq<Call>, q: nat, ok: bool)
    requires Issued(a, fault, t0, c0, q0, t1, c1, q1, true)
    requires Issued(b, fault, t1, c1, q1, data, calls, q, ok)
    ensures Issued(a + b, fault, t0, c0, q0, data, calls, q, ok)
  {
    if ok {
      IssuedSeqOk(a, b, fault, t0, c0, q0, t1, c1, q1, data, calls, q);
    } else {
      IssuedSeqFailed(a, b, fault, t0, c0, q0, t1, c1, q1, data, calls, q);
    }
  }

  lemma {:induction false} IssuedSeqOk(a: seq<Stmt>, b: seq<Stmt>, fault: Option<nat>, t0: Tables, c0: seq<Call>, q0: nat,
                                       t1: Tables, c1: seq<Call>, q1: nat, data: Tables, calls: seq<Call>, q: nat)
    requires Issued(a, fault, t0, c0, q0, t1, c1, q1, true)
    requires Issued(b, fault, t1, c1, q1, data, calls, q, true)
    ensures Issued(a + b, fault, t0, c0, q0, data, calls, q, true)
  {
    assert a[..|a|] == a && b[..|b|] == b && (a + b)[..|a| + |b|] == a + b;
    ConcatCalls(a, b, c0, c1, calls, |b|);
    ConcatRuns(t0, a, b, data, |b|);
  }

  lemma {:induction false} IssuedSeqFailed(a: seq<Stmt>, b: seq<Stmt>, fault: Option<nat>, t0: Tables, c0: seq<Call>, q0: nat,
                                       t1: Tables, c1: seq<Call>, q1: nat, data: Tables, calls: seq<Call>, q: nat)
    requires Issued(a, fault, t0, c0, q0, t1, c1, q1, true)
    requires Issued(b, fault, t1, c1, q1, data, calls, q, false)
    ensures Issued(a + b, fault, t0, c0, q0, data, calls, q, false)
  {
    assert a[..|a|] == a;
    ConcatCalls(a, b, c0, c1, calls, q - q1);
    ConcatRuns(t0, a, b, data, q - q1 - 1);
  }

  /** The call log of all of `a` and then a prefix of `b`. */
  lemma {:induction false} ConcatCalls(a: seq<Stmt>, b: seq<Stmt>, c0: seq<Call>, c1: seq<Call>, calls: seq<Call>, j: nat)
    requires j <= |b| && c1 == c0 + QueryCalls(a) && calls == c1 + QueryCalls(b[..j])
    ensures calls == c0 + QueryCalls((a + b)[..|a| + j])
  {
    assert (a + b)[..|a| + j] == a + b[..j];
    assert QueryCalls(a + b[..j]) == QueryCalls(a) + QueryCalls(b[..j]);
  }

  /** The tables after all of `a` and then a prefix of `b`. */
  lemma {:induction false} ConcatRuns(t0: Tables, a: seq<Stmt>, b: seq<Stmt>, data: Tables, j: nat)
    requires j <= |b| && data == RunAll(RunAll(t0, a), b[..j])
    ensures data == RunAll(t0, (a + b)[..|a| + j])
  {
    assert (a + b)[..|a| + j] == a + b[..j];
    RunAllAppend(t0, a, b[..j]);
  }

  /** A query that throws inside `a` ends a prefix of `a + b` as well. */
  lemma {:induction false} IssuedFailed(a: seq<Stmt>, b: seq<Stmt>, fault: Option<nat>, t0: Tables, c0: seq<Call>, q0: nat,
                                        data: Tables, calls: seq<Call>, q: nat)
    requires Issued(a, fault, t0, c0, q0, data, calls, q, false)
    ensures Issued(a + b, fault, t0, c0, q0, data, calls, q, false)
  {
    PrefixOfConcat(a, b, q - q0);
    PrefixOfConcat(a, b, q - q0 - 1);
  }

  /** The first `n` statements of `a + b`, when `n` does not pass the end of `a`. */
  lemma {:induction false} PrefixOfConcat(a: seq<Stmt>, b: seq<Stmt>, n: nat)
    requires n <= |a|
    ensures (a + b)[..n] == a[..n]
  {
  }

  /** The lookup changes nothing; the lookup and the customer statement give `AfterCustomer`. */
  lemma {:induction false} CustomerStmtsRun(t: Tables, req: Request)
    requires !Missing(req)
    ensures RunAll(t, CustomerStmts(t, req)[..1]) == t
    ensures RunAll(t, CustomerStmts(t, req)) == AfterCustomer(t, req)
  {
    var ss := CustomerStmts(t, req);
    assert ss[..1][..0] == [] && ss[..2] == ss;
    RunAllStep(t, ss, 1);
  }

  /** The customer lookup and the update or insert that follows it
      (server/controllers/salesController.js:18-37). `None` means a query threw. */
  method FindOrCreateCustomer(session: Session, req: Request) returns (customerId: Option<nat>)
    requires !Missing(req)
    modifies session, session.engine
    ensures Issued(CustomerStmts(old(session.engine.handle.data), req), session.fault,
                   old(session.engine.handle.data), old(session.calls), old(session.queries),
                   session.engine.handle.data, session.calls, session.queries, customerId.Some?)
    ensures customerId.Some? ==> customerId.value == CustomerIdOf(old(session.engine.handle.data), req.customerPhone.value)
    ensures session.engine.handle.saved == old(session.engine.handle.saved)
    ensures session.engine.handle.open == old(session.engine.handle.open)
    ensures session.inTx == old(session.inTx) && session.returned == old(session.returned)
  {
    ghost var t0, c0, q0 := session.engine.handle.data, session.calls, session.queries;
    var phone := req.customerPhone.value;
    ghost var ss := CustomerStmts(t0, req);
    var found := session.Query(FindCustomer(phone));
    IssuedOne(ss[0], session.fault, t0, c0, q0);
    if found.Err? {
      IssuedFailed([ss[0]], [ss[1]], session.fault, t0, c0, q0, session.engine.handle.data, session.calls, session.queries);
      return None;
    }
    ghost var c1, q1 := session.calls, session.queries;
    var ids := IdsOf(found.value);
    assert ids == WithPhone(t0.customers, phone);
    var r;
    if |ids| > 0 {
      r := session.Query(UpdateCustomer(ids[0], req.customerName.value, AddressParam(req.customerAddress)));
      customerId := Some(ids[0]);
    } else {
      r := session.Query(InsertCustomer(req.customerName.value, phone, AddressParam(req.customerAddress)));
      if r.Ok? {
        customerId := Some(InsertId(r.value));
      }
    }
    IssuedOne(ss[1], session.fault, t0, c1, q1);
    IssuedSeq([ss[0]], [ss[1]], session.fault, t0, c0, q0, t0, c1, q1,
              session.engine.handle.data, session.calls, session.queries, r.Ok?);
    assert [ss[0]] + [ss[1]] == ss;
    if r.Err? {
      customerId := None;
    }
  }

  /** One insert per item, in order (server/controllers/salesController.js:55-60).
      `false` means a query threw. */
  method InsertItems(session: Session, saleId: nat, items: seq<Item>) returns (ok: bool)
    modifies session, session.engine
    ensures Issued(ItemStmts(saleId, items), session.fault,
                   old(session.engine.handle.data), old(session.calls), old(session.queries),
                   session.engine.handle.data, session.calls, session.queries, ok)
    ensures session.engine.handle.saved == old(session.engine.handle.saved)
    ensures session.engine.handle.open == old(session.engine.handle.open)
    ensures session.inTx == old(session.inTx) && session.returned == old(session.returned)
  {
    ghost var t0, c0, q0 := session.engine.handle.data, session.calls, session.queries;
    ghost var ss := ItemStmts(saleId, items);
    assert ss[..0] == [];
    var i := 0;
    while i < |items|
      invariant 0 <= i <= |items|
      invariant Issued(ss[..i], session.fault, t0, c0, q0, session.engine.handle.data, session.calls, session.queries, true)
      invariant session.engine.handle.saved == old(session.engine.handle.saved)
      invariant session.engine.handle.open == old(session.engine.handle.open)
      invariant session.inTx == old(session.inTx) && session.returned == old(session.returned)
    {
      ghost var t1, c1, q1 := session.engine.handle.data, session.calls, session.queries;
      var r := session.Query(InsertSaleItem(saleId, items[i]));
      IssuedOne(ss[i], session.fault, t1, c1, q1);
      IssuedSeq(ss[..i], [ss[i]], session.fault, t0, c0, q0, t1, c1, q1,
                session.engine.handle.data, session.calls, session.queries, r.Ok?);
      assert ss[..i] + [ss[i]] == ss[..i + 1];
      if r.Err? {
        IssuedFailed(ss[..i + 1], ss[i + 1..], session.fault, t0, c0, q0,
                     session.engine.handle.data, session.calls, session.queries);
        assert ss[..i + 1] + ss[i + 1..] == ss;
        return false;
      }
      i := i + 1;
    }
    assert ss[..i] == ss;
    ok := true;
  }

  /** The sale's insert followed by the items' inserts
      (server/controllers/salesController.js:39-60). `None` means a query threw. */
  method InsertSaleAndItems(session: Session, customerId: nat, staffId: nat, items: seq<Item>,
                            status: Option<string>, now: string) returns (saleId: Option<nat>)
    modifies session, session.engine
    ensures Issued(SaleAndItems(old(session.engine.handle.data), customerId, staffId, items, status, now), session.fault,
                   old(session.engine.handle.data), old(session.calls), old(session.queries),
                   session.engine.handle.data, session.calls, session.queries, saleId.Some?)
    ensures saleId.Some? ==> saleId.value == old(session.engine.handle.data).nextId
    ensures session.engine.handle.saved == old(session.engine.handle.saved)
    ensures session.engine.handle.open == old(session.engine.handle.open)
    ensures session.inTx == old(session.inTx) && session.returned == old(session.returned)
  {
    ghost var t0, c0, q0 := session.engine.handle.data, session.calls, session.queries;
    ghost var sale := SaleStmt(customerId, staffId, items, status, now);
    ghost var rest := ItemStmts(t0.nextId, items);
    assert SaleAndItems(t0, customerId, staffId, items, status, now) == [sale] + rest;
    var total := SumSubtotals(items);
    var r := session.Query(InsertSale(customerId, staffId, total, status, PaymentDate(status, now)));
    IssuedOne(sale, session.fault, t0, c0, q0);
    if r.Err? {
      IssuedFailed([sale], rest, session.fault, t0, c0, q0, session.engine.handle.data, session.calls, session.queries);
      return None;
    }
    ghost var t1, c1, q1 := session.engine.handle.data, session.calls, session.queries;
    var id := InsertId(r.value);
    assert id == t0.nextId;
    var ok := InsertItems(session, id, items);
    IssuedSeq([sale], rest, session.fault, t0, c0, q0, t1, c1, q1,
              session.engine.handle.data, session.calls, session.queries, ok);
    saleId := if ok then Some(id) else None;
  }

  /** The statements of the `try` block after validation: find or create the
      customer, add the sale, add its items. `None` means a query threw; the
      handle's open transaction is left for the caller to end. */
  method WriteSale(session: Session, req: Request, staffId: nat, now: string) returns (out: Option<nat>)
    requires !Missing(req)
    modifies session, session.engine
    ensures Issued(Statements(old(session.engine.handle.data), req, staffId, now), session.fault,
                   old(session.engine.handle.data), old(session.calls), old(session.queries),
                   session.engine.handle.data, session.calls, session.queries, out.Some?)
    ensures out.Some? ==> out.value == SaleIdOf(old(session.engine.handle.data), req)
    ensures session.engine.handle.saved == old(session.engine.handle.saved)
    ensures session.engine.handle.open == old(session.engine.handle.open)
    ensures session.inTx == old(session.inTx) && session.returned == old(session.returned)
  {
    ghost var t0, c0, q0 := session.engine.handle.data, session.calls, session.queries;
    ghost var head := CustomerStmts(t0, req);
    ghost var rest := SaleAndItems(AfterCustomer(t0, req), CustomerIdOf(t0, req.customerPhone.value),
                                   staffId, req.items.value, req.paymentStatus, now);
    assert Statements(t0, req, staffId, now) == head + rest;
    var customerId := FindOrCreateCustomer(session, req);
    if customerId.None? {
      IssuedFailed(head, rest, session.fault, t0, c0, q0, session.engine.handle.data, session.calls, session.queries);
      return None;
    }
    CustomerStmtsRun(t0, req);
    ghost var t1, c1, q1 := session.engine.handle.data, session.calls, session.queries;
    out := InsertSaleAndItems(session, customerId.value, staffId, req.items.value, req.paymentStatus, now);
    IssuedSeq(head, rest, session.fault, t0, c0, q0, t1, c1, q1,
              session.engine.handle.data, session.calls, session.queries, out.Some?);
  }

  /** The flow of `createSale` (server/controllers/salesController.js:4-76): BEGIN,
      validation, the writes, COMMIT; ROLLBACK and 500 when anything throws;
      `release` in every case. With `rollbackInvalid` the 400 path rolls back
      before answering; the source does not. */
  method Transaction(session: Session, req: Request, staffId: nat, now: string, rollbackInvalid: bool)
    returns (resp: Response)
    requires !session.inTx
    modifies session, session.engine
    ensures var h0 := old(session.engine.handle);
      var k := session.engine.kind;
      var b := BeginOn(k, h0).handle;
      && session.returned == old(session.returned) + (if k == Sqlite then 0 else 1)
      && (!BeginOn(k, h0).ok ==>
            resp.ServerError? && session.engine.handle == h0 && !session.inTx
            && session.calls == old(session.calls) + [CallBegin, CallRollback, CallRelease])
      && (BeginOn(k, h0).ok && Missing(req) && !rollbackInvalid ==>
            resp.BadRequest? && session.engine.handle == b && session.inTx == (k == Sqlite)
            && session.calls == old(session.calls) + [CallBegin, CallRelease])
      && (BeginOn(k, h0).ok && Missing(req) && rollbackInvalid ==>
            resp.BadRequest? && session.engine.handle == Handle(b.saved, b.saved, false) && !session.inTx
            && session.calls == old(session.calls) + [CallBegin, CallRollback, CallRelease])
      && (BeginOn(k, h0).ok && !Missing(req) ==>
            var ss := Statements(h0.data, req, staffId, now);
            var n := session.queries - old(session.queries);
            && !session.inTx
            && (resp.Created? <==> NoFault(session.fault, old(session.queries), |ss|))
            && (resp.Created? ==>
                  resp.saleId == SaleIdOf(h0.data, req)
                  && session.engine.handle == Handle(RunAll(h0.data, ss), RunAll(h0.data, ss), false)
                  && session.calls == old(session.calls) + [CallBegin] + QueryCalls(ss) + [CallCommit, CallRelease])
            && (!resp.Created? ==>
                  resp.ServerError? && 0 <= n <= |ss|
                  && session.engine.handle == Handle(b.saved, b.saved, false)
                  && session.calls == old(session.calls) + [CallBegin] + QueryCalls(ss[..n]) + [CallRollback, CallRelease]))
  {
    var begun := session.BeginTransaction();
    if !begun {
      var rolledBack := session.Rollback();
      resp := ServerError("Failed to create sale");
    } else if Missing(req) {
      if rollbackInvalid {
        var rolledBack := session.Rollback();
      }
      resp := BadRequest("Missing required fields");
    } else {
      resp := WriteAndCommit(session, req, staffId, now);
    }
    session.Release();
  }

  /** The `try` block after validation, inside an open transaction, with the
      `catch` block: COMMIT after the writes, or ROLLBACK and 500. */
  method WriteAndCommit(session: Session, req: Request, staffId: nat, now: string) returns (resp: Response)
    requires !Missing(req)
    requires session.engine.handle.open && session.inTx == (session.engine.kind == Sqlite)
    modifies session, session.engine
    ensures var h := old(session.engine.handle);
      var ss := Statements(h.data, req, staffId, now);
      var n := session.queries - old(session.queries);
      && !session.inTx && session.returned == old(session.returned)
      && (resp.Created? <==> NoFault(session.fault, old(session.queries), |ss|))
      && (resp.Created? ==>
            resp.saleId == SaleIdOf(h.data, req)
            && session.engine.handle == Handle(RunAll(h.data, ss), RunAll(h.data, ss), false)
            && session.calls == old(session.calls) + QueryCalls(ss) + [CallCommit])
      && (!resp.Created? ==>
            resp.ServerError? && 0 <= n <= |ss|
            && session.engine.handle == Handle(h.saved, h.saved, false)
            && session.calls == old(session.calls) + QueryCalls(ss[..n]) + [CallRollback])
  {
    var out := WriteSale(session, req, staffId, now);
    if out.Some? {
      var committed := session.Commit();
      // The transaction is open, so COMMIT cannot fail and the `catch` block is not entered.
      assert committed;
      resp := Created(out.value);
    } else {
      var rolledBack := session.Rollback();
      resp := ServerError("Failed to create sale");
    }
  }

  /** `createSale` as written: a request that fails validation is answered with
      400 inside the transaction, which is then neither committed nor rolled back. */
  method CreateSale(session: Session, req: Request, staffId: nat, now: string) returns (resp: Response)
    requires !session.inTx
    modifies session, session.engine
    ensures var h0 := old(session.engine.handle);
      var k := session.engine.kind;
      && session.returned == old(session.returned) + (if k == Sqlite then 0 else 1)
      && (k == Sqlite && h0.open ==> resp.ServerError? && session.engine.handle == h0)
      && (!h0.open && Missing(req) ==> resp.BadRequest? && session.engine.handle.open)
      && (!h0.open && !Missing(req) ==>
            && !session.engine.handle.open
            && (resp.Created? <==> NoFault(session.fault, old(session.queries), 3 + |req.items.value|))
            && (resp.Created? ==> resp.saleId == SaleIdOf(h0.data, req)
                                  && session.engine.handle.data == RunAll(h0.data, Statements(h0.data, req, staffId, now)))
            && (resp.ServerError? ==> session.engine.handle.data == h0.data))
  {
    resp := Transaction(session, req, staffId, now, false);
  }

  /** `createSale` with the 400 path rolling back first: no path leaves the
      handle inside a transaction. */
  method CreateSaleFixed(session: Session, req: Request, staffId: nat, now: string) returns (resp: Response)
    requires !session.inTx
    modifies session, session.engine
    ensures var h0 := old(session.engine.handle);
      var k := session.engine.kind;
      && session.returned == old(session.returned) + (if k == Sqlite then 0 else 1)
      && (k == Sqlite && h0.open ==> resp.ServerError? && session.engine.handle == h0)
      && (!h0.open ==> !session.engine.handle.open && !session.inTx)
      && (!h0.open && Missing(req) ==> resp.BadRequest? && session.engine.handle.data == h0.data)
      && (!h0.open && !Missing(req) ==>
            && (resp.Created? <==> NoFault(session.fault, old(session.queries), 3 + |req.items.value|))
            && (resp.Created? ==> resp.saleId == SaleIdOf(h0.data, req)
                                  && session.engine.handle.data == RunAll(h0.data, Statements(h0.data, req, staffId, now)))
            && (resp.ServerError? ==> session.engine.handle.data == h0.data))
  {
    resp := Transaction(session, req, staffId, now, true);
  }

  /** On SQLite, one request turned away with 400 leaves the shared handle inside
      its transaction, and the next valid request fails with 500. */
  method StuckAfterBadRequest(data: Tables, bad: Request, good: Request, staffId: nat, now: string)
    returns (first: Response, second: Response)
    requires Missing(bad) && !Missing(good)
    ensures first.BadRequest? && second.ServerError?
  {
    var engine := new Engine(Sqlite, data);
    var s1 := new Session(engine, None);
    first := CreateSale(s1, bad, staffId, now);
    var s2 := new Session(engine, None);
    second := CreateSale(s2, good, staffId, now);
  }

  /** With the corrected flow, the request after the 400 goes through. */
  method RecoversAfterBadRequest(data: Tables, bad: Request, good: Request, staffId: nat, now: string)
    returns (first: Response, second: Response)
    requires Missing(bad) && !Missing(good)
    ensures first.BadRequest? && second == Created(SaleIdOf(data, good))
  {
    var engine := new Engine(Sqlite, data);
    var s1 := new Session(engine, None);
    first := CreateSaleFixed(s1, bad, staffId, now);
    var s2 := new Session(engine, None);
    second := CreateSaleFixed(s2, good, staffId, now);
  }

  /** The source's `for (const item of items) totalAmount += item.subtotal`. */
  method SumSubtotals(items: seq<Item>) returns (total: int)
    ensures total == Total(items)
  {
    total := 0;
    var i := 0;
    while i < |items|
      invariant 0 <= i <= |items|
      invariant total == Total(items[..i])
    {
      assert items[..i + 1][..i] == items[..i];
      total := total + items[i].subtotal;
      i := i + 1;
    }
    assert items[..i] == items;
  }
  // ---------------------------------------------------------------------------
  // updatePaymentStatus

  /** `updatePaymentStatus` up to its query (server/controllers/salesController.js:139-151):
      a status other than `paid` or `unpaid` is refused before any statement is
      built; otherwise the one UPDATE it sends. */
  function PaymentUpdate(saleId: nat, status: Option<string>, now: string): (r: Result<Stmt>)
    ensures r.Err? <==> status != Some("paid") && status != Some("unpaid")
    ensures r.Ok? ==> r.value.SetPayment? && r.value.saleId == saleId && Some(r.value.newStatus) == status
                      && (r.value.paymentDate.Some? <==> status == Some("paid"))
  {
    if status == Some("paid") || status == Some("unpaid") then
      Ok(SetPayment(saleId, status.value, PaymentDate(status, now)))
    else
      Err("Invalid payment status")
  }

  /** The accepted update sets the status of the sales with that id, with a payment
      date exactly when they become paid; nothing else changes, and sending it twice
      is the same as sending it once. */
  lemma {:induction false} PaymentApplied(t: Tables, saleId: nat, status: Option<string>, now: string)
    requires PaymentUpdate(saleId, status, now).Ok?
    ensures var s := PaymentUpdate(saleId, status, now).value;
      var t1 := Apply(t, s).0;
      && t1.customers == t.customers && t1.saleItems == t.saleItems && t1.nextId == t.nextId
      && |t1.sales| == |t.sales|
      && (forall k :: 0 <= k < |t.sales| && t.sales[k].id == saleId ==>
            t1.sales[k] == t.sales[k].(status := status, paymentDate := PaymentDate(status, now))
            && (t1.sales[k].paymentDate.Some? <==> status == Some("paid")))
      && (forall k :: 0 <= k < |t.sales| && t.sales[k].id != saleId ==> t1.sales[k] == t.sales[k])
      && Apply(t1, s).0 == t1
  {
    var s := PaymentUpdate(saleId, status, now).value;
    var t1 := Apply(t, s).0;
    var t2 := Apply(t1, s).0;
    assert t2.sales == t1.sales by {
      forall k | 0 <= k < |t1.sales| ensures t2.sales[k] == t1.sales[k] {
        if t1.sales[k].id == saleId {
          assert t.sales[k].id == saleId;
        }
      }
    }
  }

  // ---------------------------------------------------------------------------
  // getUnpaidSales

  const Indent12 := "            "
  const Indent19 := "                   "
  // The lines of the statement, each written as its clauses.
  const UnpaidLine1 := "SELECT s.id, " + "s.total_amount, " + "s.created_at,\n"
  const UnpaidLine2 := "c.name AS customer_name, " + "c.phone AS customer_phone,\n"
  const UnpaidLine3 := "u.full_name AS " + "staff_name,\n"
  const UnpaidLine4 := "(SELECT COUNT(*) " + "FROM sale_items si " + "WHERE si.sale_id = s.id) " + "AS item_count\n"
  const UnpaidLine5 := "FROM sales s\n"
  const UnpaidLine6 := "JOIN customers c " + "ON s.customer_id = c.id\n"
  const UnpaidLine7 := "JOIN users u " + "ON s.staff_id = u.id\n"
  const UnpaidLine8 := "WHERE s.payment_status = " + "'unpaid'\n"

  /** The statement `getUnpaidSales` starts from (server/controllers/salesController.js:164-173),
      character for character. */
  const UnpaidSelect :=
    "\n" + Indent12 + UnpaidLine1 + Indent19 + UnpaidLine2 + Indent19 + UnpaidLine3
    + Indent19 + UnpaidLine4 + Indent12 + UnpaidLine5 + Indent12 + UnpaidLine6
    + Indent12 + UnpaidLine7 + Indent12 + UnpaidLine8 + "        "

  /** The search filter, its two placeholders written apart. */
  const UnpaidFilter := " AND (c.name LIKE " + "?" + " OR c.phone LIKE " + "?" + ")"

  const UnpaidOrder := " ORDER BY s.created_at DESC"

  /** `q && q.trim() !== ''`: a search term that is not blank. */
  predicate Searching(q: Option<string>) {
    q.Some? && Trim(q.value) != ""
  }

  /** The `LIKE` pattern for a search term. */
  function Pattern(q: string): string {
    "%" + Trim(q) + "%"
  }

  /** The query and parameters `getUnpaidSales` sends: the filter and its two
      parameters exactly when the trimmed search term is not empty, so that the
      statement always has one `?` per parameter. */
  method UnpaidSalesQuery(q: Option<string>) returns (query: string, params: seq<Value>)
    ensures Count(query, '?') == |params|
    ensures Searching(q) ==> query == UnpaidSelect + UnpaidFilter + UnpaidOrder
                             && params == [Str(Pattern(q.value)), Str(Pattern(q.value))]
    ensures !Searching(q) ==> query == UnpaidSelect + UnpaidOrder && params == []
  {
    query := UnpaidSelect;
    params := [];
    if q.Some? && q.value != "" && Trim(q.value) != "" {
      query := query + UnpaidFilter;
      params := params + [Str("%" + Trim(q.value) + "%"), Str("%" + Trim(q.value) + "%")];
    }
    assert q.Some? && q.value == "" ==> Trim(q.value) == "";
    query := query + UnpaidOrder;
    PlaceholderCounts();
  }

  /** The statement has one `?` per parameter when the base statement and the
      ORDER BY clause have none and the filter has two. */
  lemma {:induction false} PlaceholderCounts()
    ensures Count(UnpaidSelect + UnpaidFilter + UnpaidOrder, '?') == 2
    ensures Count(UnpaidSelect + UnpaidOrder, '?') == 0
  {
    SelectHasNoPlaceholder();
    assert '?' !in UnpaidOrder;
    FilterHasTwo(" AND (c.name LIKE ", " OR c.phone LIKE ", ")");
    CountParts(UnpaidSelect, UnpaidFilter, UnpaidOrder);
  }

  lemma {:induction false} CountParts(base: string, filter: string, order: string)
    requires '?' !in base && '?' !in order && Count(filter, '?') == 2
    ensures Count(base + filter + order, '?') == 2
    ensures Count(base + order, '?') == 0
  {
    CountNoChar(base, '?');
    CountNoChar(order, '?');
    CountAppend(base, filter, '?');
    CountAppend(base + filter, order, '?');
    CountAppend(base, order, '?');
  }

  lemma {:induction false} FilterHasTwo(a: string, b: string, c: string)
    requires '?' !in a && '?' !in b && '?' !in c
    ensures Count(a + "?" + b + "?" + c, '?') == 2
  {
    CountNoChar(a, '?');
    CountNoChar(b, '?');
    CountNoChar(c, '?');
    assert Count("?", '?') == 1;
    CountAppend(a, "?", '?');
    CountAppend(a + "?", b, '?');
    CountAppend(a + "?" + b, "?", '?');
    CountAppend(a + "?" + b + "?", c, '?');
  }

  lemma SelectHasNoPlaceholder()
    ensures '?' !in UnpaidSelect
  {
    Line1HasNoPlaceholder();
    Line2HasNoPlaceholder();
    Line3HasNoPlaceholder();
    Line4HasNoPlaceholder();
    Line5HasNoPlaceholder();
    Line6HasNoPlaceholder();
    Line7HasNoPlaceholder();
    Line8HasNoPlaceholder();
    assert '?' !in Indent12 && '?' !in Indent19;
    LayoutHasNoPlaceholder(Indent12, Indent19, UnpaidLine1, UnpaidLine2, UnpaidLine3, UnpaidLine4,
                           UnpaidLine5, UnpaidLine6, UnpaidLine7, UnpaidLine8);
  }

  /** The statement's layout adds no `?` to its lines and indents. */
  lemma LayoutHasNoPlaceholder(i12: string, i19: string, l1: string, l2: string, l3: string, l4: string,
                               l5: string, l6: string, l7: string, l8: string)
    requires '?' !in i12 && '?' !in i19
    requires '?' !in l1 && '?' !in l2 && '?' !in l3 && '?' !in l4
    requires '?' !in l5 && '?' !in l6 && '?' !in l7 && '?' !in l8
    ensures '?' !in "\n" + i12 + l1 + i19 + l2 + i19 + l3 + i19 + l4 + i12 + l5 + i12 + l6
                    + i12 + l7 + i12 + l8 + "        "
  {
  }

  lemma Line1HasNoPlaceholder()
    ensures '?' !in UnpaidLine1
  {
  }

  lemma Line2HasNoPlaceholder()
    ensures '?' !in UnpaidLine2
  {
  }

  lemma Line3HasNoPlaceholder()
    ensures '?' !in UnpaidLine3
  {
  }

  lemma Line4HasNoPlaceholder()
    ensures '?' !in UnpaidLine4
  {
  }

  lemma Line5HasNoPlaceholder()
    ensures '?' !in UnpaidLine5
  {
  }

  lemma Line6HasNoPlaceholder()
    ensures '?' !in UnpaidLine6
  {
  }

  lemma Line7HasNoPlaceholder()
    ensures '?' !in UnpaidLine7
  {
  }

  lemma Line8HasNoPlaceholder()
    ensures '?' !in UnpaidLine8
  {
  }
}
