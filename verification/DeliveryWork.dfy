/**
 The work of one call on deliveries after its first, unlocked read, and what it
 reads and writes: rows of one order (backend/app/services/delivery_service.py,
 lines 376-663, delivery_ledger.py, lines 57-90, and order_cancellation.py, lines
 97-339).
 */
module DeliveryWork {
  import opened Wrappers
  import opened DeliveryClosing

  /** What a call still has to do after its first read. A creation keeps the rider that
      it saw, and a start has checked the status that it saw. */
  datatype Work =
    | Whole(step: Step)
    | LateCreate(order: OrderId, id: DeliveryId, rider: RiderId, otpRequired: bool, otp: string)
    | LateStart(id: DeliveryId, now: int)

  function Perform(db: Db, work: Work): Result<Db, Refusal> {
    match work
    case Whole(step) => Call(db, step)
    case LateCreate(order, id, rider, otpRequired, otp) => WriteCreate(db, order, id, rider, otpRequired, otp)
    case LateStart(id, now) => WriteStart(db, id, now)
  }

  function Done(db: Db, work: Work): Db {
    match Perform(db, work)
    case Success(after) => after
    case Failure(_) => db
  }

  function Replay(db: Db, works: seq<Work>): Db {
    if works == [] then db else Done(Replay(db, works[..|works| - 1]), works[|works| - 1])
  }

  lemma {:induction false} ReplayExtends(start: Db, history: seq<Work>, work: Work)
    ensures Replay(start, history + [work]) == Done(Replay(start, history), work)
  {
  }

  predicate Cancels(work: Work) {
    work.Whole? && work.step.CancelOrder?
  }

  predicate Closes(work: Work) {
    work.Whole? && (work.step.CompleteDelivery? || work.step.FailDelivery?)
  }

  /** The delivery rows that the work locks. */
  function Rows(db: Db, work: Work): set<DeliveryId> {
    if work.LateStart? then {work.id}
    else if Closes(work) then {work.step.id}
    else if Cancels(work) then set d | d in db.deliveries && db.deliveries[d].order == work.step.order
    else {}
  }

  /** The rider whose row is locked: of the order that is cancelled, or of a closing
      that has passed its checks and pays a bonus. */
  function Payee(db: Db, work: Work): Option<RiderId> {
    if Cancels(work) then
      if work.step.order in db.orders then db.orders[work.step.order].rider else None
    else if Closes(work) && work.step.id in db.deliveries then
      var d := db.deliveries[work.step.id];
      var unpaid := db.ledger - {Key(d.order, work.step.CompleteDelivery?)};
      var r := Call(db.(ledger := unpaid), work.step.(accepts := true));
      if r.Success? && r.value.ledger != unpaid then Some(d.rider) else None
    else None
  }

  /** The order whose rows a step of another writer touches. */
  function Touched(db: Db, step: Step): Option<OrderId> {
    match step
    case NewOrder(order) => Some(order)
    case MoveOrder(order, _, _) => Some(order)
    case MoveDelivery(id, _) => if id in db.deliveries then Some(db.deliveries[id].order) else None
    case _ => None
  }

  // ----- the rows of one order -----

  /** The rows of one order. */
  function Slice(db: Db, order: OrderId): Db {
    Db(map o | o in db.orders && o == order :: db.orders[o],
       map d | d in db.deliveries && db.deliveries[d].order == order :: db.deliveries[d],
       map k | k in db.ledger && k.order == order :: db.ledger[k])
  }

  function Overlay(db: Db, rows: Db): Db {
    Db(db.orders + rows.orders, db.deliveries + rows.deliveries, db.ledger + rows.ledger)
  }

  // ----- work is about one order -----

  predicate About(db: Db, work: Work, order: OrderId) {
    match work
    case LateCreate(o, _, _, _, _) => o == order
    case LateStart(id, _) => id in db.deliveries && db.deliveries[id].order == order
    case Whole(step) =>
      if Closes(work) then step.id in db.deliveries && db.deliveries[step.id].order == order
      else Cancels(work) && step.order == order
  }

  ghost predicate SameRows(a: map<DeliveryId, Delivery>, b: map<DeliveryId, Delivery>, order: OrderId) {
    forall d :: d in a && a[d].order == order ==> d in b && b[d] == a[d]
  }

  /** Both states hold the same rows of an order. */
  ghost predicate Same(a: Db, b: Db, order: OrderId) {
    && (order in a.orders <==> order in b.orders) && (order in a.orders ==> a.orders[order] == b.orders[order])
    && SameRows(a.deliveries, b.deliveries, order) && SameRows(b.deliveries, a.deliveries, order)
    && SameEntry(a.ledger, b.ledger, Key(order, true)) && SameEntry(a.ledger, b.ledger, Key(order, false))
  }

  /** Rows of one order were written, none was lost, and no delivery moved to another order. */
  ghost predicate WritesOnly(db: Db, after: Db, order: OrderId) {
    && (forall o :: o != order ==> Same(db, after, o))
    && db.orders.Keys <= after.orders.Keys && db.ledger.Keys <= after.ledger.Keys
    && KeepsDeliveries(db, after)
  }

  ghost predicate KeepsDeliveries(db: Db, after: Db) {
    forall d :: d in db.deliveries ==> d in after.deliveries && after.deliveries[d].order == db.deliveries[d].order
  }

  lemma {:induction false} CloseWritesOnly(db: Db, id: DeliveryId, row: Delivery, order: Order, success: bool,
                                           actor: UserId, accepts: bool)
    requires id in db.deliveries && row.order == db.deliveries[id].order
    requires Close(db, id, row, order, success, actor, accepts).Success?
    ensures WritesOnly(db, Close(db, id, row, order, success, actor, accepts).value, row.order)
  {
  }

  /** A successful completion or failure is one closing of its delivery. */
  lemma {:induction false} ClosingIsClose(db: Db, step: Step) returns (row: Delivery, order: Order)
    requires Closes(Whole(step)) && Call(db, step).Success?
    ensures step.id in db.deliveries && row.order == db.deliveries[step.id].order
    ensures Call(db, step) == Close(db, step.id, row, order, step.CompleteDelivery?, step.actor.id, step.accepts)
  {
    var d := db.deliveries[step.id];
    if step.CompleteDelivery? {
      row := CompletedRow(d, step.otp, step.config, step.now);
      order := db.orders[d.order].(status := ENTREGADO, deliveredAt := Some(step.now));
    } else {
      row := FailedRow(d, step.cause.value, step.config, step.now);
      order := db.orders[d.order].(status := FALLIDO, failureReason := step.cause);
    }
  }

  lemma {:induction false} ClosingWritesOnly(db: Db, step: Step, order: OrderId)
    requires Closes(Whole(step)) && About(db, Whole(step), order) && Call(db, step).Success?
    ensures WritesOnly(db, Call(db, step).value, order)
  {
    var row, closed := ClosingIsClose(db, step);
    CloseWritesOnly(db, step.id, row, closed, step.CompleteDelivery?, step.actor.id, step.accepts);
  }

  lemma {:induction false} CancelWritesOnly(db: Db, order: OrderId, clear: bool)
    requires Cancel(db, order, clear).Success?
    ensures WritesOnly(db, Cancel(db, order, clear).value, order)
  {
  }

  lemma {:induction false} RowWritesOnly(db: Db, id: DeliveryId, row: Delivery)
    requires id in db.deliveries ==> row.order == db.deliveries[id].order
    ensures WritesOnly(db, db.(deliveries := db.deliveries[id := row]), row.order)
  {
  }

  lemma {:induction false} OrderRowWritesOnly(db: Db, order: OrderId, row: Order)
    ensures WritesOnly(db, db.(orders := db.orders[order := row]), order)
  {
  }

  /** Work about an order writes rows of that order only. */
  lemma {:induction false} PerformWritesOnly(db: Db, work: Work, order: OrderId)
    requires About(db, work, order) && Perform(db, work).Success?
    ensures WritesOnly(db, Perform(db, work).value, order)
  {
    match work {
      case LateCreate(_, id, _, _, _) => RowWritesOnly(db, id, Perform(db, work).value.deliveries[id]);
      case LateStart(id, _) => RowWritesOnly(db, id, Perform(db, work).value.deliveries[id]);
      case Whole(step) =>
        if Closes(work) {
          ClosingWritesOnly(db, step, order);
        } else {
          CancelWritesOnly(db, order, step.clear);
        }
    }
  }

  lemma {:induction false} OutsideWritesOnly(db: Db, step: Step, order: OrderId)
    requires Touched(db, step) == Some(order)
    ensures WritesOnly(db, Do(db, step), order)
  {
    if Call(db, step).Success? {
      match step {
        case NewOrder(_) => OrderRowWritesOnly(db, order, Call(db, step).value.orders[order]);
        case MoveOrder(_, _, _) => OrderRowWritesOnly(db, order, Call(db, step).value.orders[order]);
        case MoveDelivery(id, _) => RowWritesOnly(db, id, Call(db, step).value.deliveries[id]);
        case _ =>
      }
    }
  }

  lemma {:induction false} LedgerIsTheEffect(db: Db, after: Db, order: OrderId)
    requires WritesOnly(db, after, order)
    ensures Overlay(db, Slice(after, order)).ledger == after.ledger
  {
    var both := Overlay(db, Slice(after, order)).ledger;
    forall key: Key ensures (key in both <==> key in after.ledger) && (key in both ==> both[key] == after.ledger[key]) {
      assert key == Key(key.order, true) || key == Key(key.order, false);
      assert key.order != order ==> Same(db, after, key.order);
    }
  }

  lemma {:induction false} OrdersAreTheEffect(db: Db, after: Db, order: OrderId)
    requires WritesOnly(db, after, order)
    ensures Overlay(db, Slice(after, order)).orders == after.orders
  {
    var both := Overlay(db, Slice(after, order)).orders;
    forall o ensures (o in both <==> o in after.orders) && (o in both ==> both[o] == after.orders[o]) {
      assert o != order ==> Same(db, after, o);
    }
  }

  /** So those rows laid over the tables are the whole effect. */
  lemma {:induction false} SliceIsTheEffect(db: Db, after: Db, order: OrderId)
    requires WritesOnly(db, after, order)
    ensures Overlay(db, Slice(after, order)) == after
  {
    LedgerIsTheEffect(db, after, order);
    OrdersAreTheEffect(db, after, order);
    var both := Overlay(db, Slice(after, order)).deliveries;
    forall d | d in after.deliveries ensures d in both && both[d] == after.deliveries[d] {
      assert after.deliveries[d].order != order ==> Same(db, after, after.deliveries[d].order);
    }
    assert both == after.deliveries;
  }

  lemma {:induction false} SameSlice(a: Db, b: Db, order: OrderId)
    requires Same(a, b, order)
    ensures Slice(a, order) == Slice(b, order)
  {
    var x, y := Slice(a, order), Slice(b, order);
    forall key: Key ensures SameEntry(x.ledger, y.ledger, key) {
      assert key == Key(key.order, true) || key == Key(key.order, false);
    }
    assert x.orders == y.orders && x.deliveries == y.deliveries && x.ledger == y.ledger;
  }

  lemma {:induction false} PayReadsOnly(a: map<Key, Entry>, b: map<Key, Entry>, key: Key, entry: Entry, accepts: bool)
    requires SameEntry(a, b, Key(key.order, true)) && SameEntry(a, b, Key(key.order, false))
    ensures var (x, y) := (PayBonus(a, key, entry, accepts), PayBonus(b, key, entry, accepts));
            && (x.Some? <==> y.Some?)
            && (x.Some? ==> SameEntry(x.value, y.value, Key(key.order, true))
                            && SameEntry(x.value, y.value, Key(key.order, false)))
  {
    assert key == Key(key.order, true) || key == Key(key.order, false);
  }

  lemma {:induction false} CloseReadsOnly(a: Db, b: Db, id: DeliveryId, row: Delivery, order: Order, success: bool,
                                          actor: UserId, accepts: bool)
    requires Same(a, b, row.order)
    ensures var x := Close(a, id, row, order, success, actor, accepts);
            var y := Close(b, id, row, order, success, actor, accepts);
            (x.Success? <==> y.Success?) && (x.Success? ==> Same(x.value, y.value, row.order))
  {
    PayReadsOnly(a.ledger, b.ledger, Key(row.order, success), Entry(row.rider, FrozenCents(row), id, actor), accepts);
  }

  lemma {:induction false} CompleteReadsOnly(a: Db, b: Db, step: Step, order: OrderId)
    requires step.CompleteDelivery? && About(a, Whole(step), order) && Same(a, b, order)
    ensures Call(a, step).Success? <==> Call(b, step).Success?
    ensures Call(a, step).Success? ==> Same(Call(a, step).value, Call(b, step).value, order)
  {
    if CheckLock(a, step.id, step.actor).None? {
      var row := CompletedRow(a.deliveries[step.id], step.otp, step.config, step.now);
      var closed := a.orders[order].(status := ENTREGADO, deliveredAt := Some(step.now));
      CloseReadsOnly(a, b, step.id, row, closed, true, step.actor.id, step.accepts);
    }
  }

  lemma {:induction false} FailReadsOnly(a: Db, b: Db, step: Step, order: OrderId)
    requires step.FailDelivery? && About(a, Whole(step), order) && Same(a, b, order)
    ensures Call(a, step).Success? <==> Call(b, step).Success?
    ensures Call(a, step).Success? ==> Same(Call(a, step).value, Call(b, step).value, order)
  {
    if CheckLock(a, step.id, step.actor).None? && step.cause.Some? {
      var row := FailedRow(a.deliveries[step.id], step.cause.value, step.config, step.now);
      var closed := a.orders[order].(status := FALLIDO, failureReason := step.cause);
      CloseReadsOnly(a, b, step.id, row, closed, false, step.actor.id, step.accepts);
    }
  }

  lemma {:induction false} CancelReadsOnly(a: Db, b: Db, order: OrderId, clear: bool)
    requires Same(a, b, order)
    ensures var (x, y) := (Cancel(a, order, clear), Cancel(b, order, clear));
            (x.Success? <==> y.Success?) && (x.Success? ==> Same(x.value, y.value, order))
  {
    assert order in a.orders ==> (Cancellable(a, order) <==> Cancellable(b, order));
  }

  /** Apart from an insert, whose identifier is unique over all orders, work about an
      order is decided by the rows of that order alone. */
  lemma {:induction false} PerformReadsOnly(a: Db, b: Db, work: Work, order: OrderId)
    requires About(a, work, order) && Same(a, b, order) && !work.LateCreate?
    ensures About(b, work, order) && Rows(a, work) == Rows(b, work)
    ensures Perform(a, work).Success? <==> Perform(b, work).Success?
    ensures Perform(a, work).Success? ==> Same(Perform(a, work).value, Perform(b, work).value, order)
  {
    if work.Whole? {
      match work.step {
        case CompleteDelivery(_, _, _, _, _, _) => CompleteReadsOnly(a, b, work.step, order);
        case FailDelivery(_, _, _, _, _, _) => FailReadsOnly(a, b, work.step, order);
        case CancelOrder(_, clear) => CancelReadsOnly(a, b, order, clear);
        case _ =>
      }
    }
  }

  lemma {:induction false} RowsOfTheOrder(db: Db, work: Work, order: OrderId)
    requires About(db, work, order)
    ensures forall d :: d in Rows(db, work) ==> d in db.deliveries && db.deliveries[d].order == order
  {
  }

  lemma {:induction false} ClosingIsLocked(db: Db, work: Work)
    requires Closes(work) && Perform(db, work).Success?
    ensures var after := Perform(db, work).value;
            && (forall d :: d in db.deliveries && after.deliveries[d] != db.deliveries[d] ==> d in Rows(db, work))
            && (forall key :: key in after.ledger && key !in db.ledger ==> Payee(db, work) == Some(after.ledger[key].rider))
            && work.step.id in after.deliveries
            && (Payee(db, work).Some? <==> FrozenCents(after.deliveries[work.step.id]) > 0)
  {
    var row, order := ClosingIsClose(db, work.step);
  }

  /** Every row that changes is locked: the deliveries that a work writes, and the rider
      who gets a bonus or whose order is cancelled. */
  lemma {:induction false} WritesAreLocked(db: Db, work: Work, order: OrderId)
    requires About(db, work, order) && Perform(db, work).Success?
    ensures var after := Perform(db, work).value;
            && (forall d :: d in db.deliveries && after.deliveries[d] != db.deliveries[d] ==> d in Rows(db, work))
            && (forall key :: key in after.ledger && key !in db.ledger ==> Payee(db, work) == Some(after.ledger[key].rider))
            && (Closes(work) ==>
                  && work.step.id in after.deliveries
                  && (Payee(db, work).Some? <==> FrozenCents(after.deliveries[work.step.id]) > 0))
            && (Cancels(work) ==> order in db.orders && Payee(db, work) == db.orders[order].rider)
  {
    if Closes(work) {
      ClosingIsLocked(db, work);
    }
  }

  lemma {:induction false} AboutStays(db: Db, after: Db, work: Work, order: OrderId, written: OrderId)
    requires About(db, work, order) && WritesOnly(db, after, written)
    ensures About(after, work, order)
  {
  }
}
