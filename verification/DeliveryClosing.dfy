/**
 Deliveries, their orders and the bonuses they pay
 (backend/app/services/delivery_service.py, delivery_ledger.py and
 order_cancellation.py, backend/app/crud/delivery.py and order.py). Every service
 call is one transaction; `accepts` says whether the ledger writer lets a new
 entry through.
 */
module DeliveryClosing {
  import opened Wrappers
  import DeliveryBonus

  type OrderId = nat
  type DeliveryId = nat
  type RiderId = nat
  type UserId = nat

  datatype OrderStatus = PENDIENTE | ASIGNADO | EN_RECOLECCION | RECOLECTADO | EN_RUTA | ENTREGADO | FALLIDO | CANCELADO

  datatype DeliveryStatus = PENDIENTE | INICIADA | EN_PICKUP | EN_ROUTE | EN_DESTINO | COMPLETADA | FALLIDA | CANCELADA

  datatype BonusKind = SUCCESS | FAILED_ATTEMPT

  datatype Frozen = Frozen(cents: nat, kind: BonusKind, at: int, warning: Option<DeliveryBonus.Warning>)

  datatype Order = Order(status: OrderStatus, rider: Option<RiderId>, deliveredAt: Option<int>, failureReason: Option<Cause>)

  datatype Delivery = Delivery(
    order: OrderId, rider: RiderId, status: DeliveryStatus, frozen: Option<Frozen>,
    otpRequired: bool, otp: string, startedAt: Option<int>, completedAt: Option<int>, cause: Option<Cause>)

  datatype Cause =
    | CLIENTE_NO_ESTA | CLIENTE_NO_CONTESTA | DIRECCION_INCORRECTA | DIRECCION_NO_EXISTE | COMERCIO_CERRADO
    | CLIENTE_RECHAZA | ZONA_INSEGURA | FUERZA_MAYOR | EDIFICIO_RESTRINGIDO
    | REPARTIDOR_NO_QUIERE_ENTREGAR | REPARTIDOR_LLEGO_TARDE | REPARTIDOR_ERROR_PROPIO
    | REPARTIDOR_VEHICULO_FALLA | REPARTIDOR_SIN_BATERIA | OTRO_REPARTIDOR

  predicate Payable(cause: Cause) {
    !cause.REPARTIDOR_NO_QUIERE_ENTREGAR? && !cause.REPARTIDOR_LLEGO_TARDE? && !cause.REPARTIDOR_ERROR_PROPIO?
    && !cause.REPARTIDOR_VEHICULO_FALLA? && !cause.REPARTIDOR_SIN_BATERIA? && !cause.OTRO_REPARTIDOR?
  }

  /** The unique key of a bonus: `pago_entrega_` or `pago_fallido_` and the order. */
  datatype Key = Key(order: OrderId, success: bool)

  datatype Entry = Entry(rider: RiderId, cents: nat, delivery: DeliveryId, actor: UserId)

  datatype Db = Db(orders: map<OrderId, Order>, deliveries: map<DeliveryId, Delivery>, ledger: map<Key, Entry>)

  datatype Refusal =
    | NotFound | WrongState | NoRider | Duplicate | Forbidden | OrderMissing | OrderCancelled | DeliveryCancelled
    | WrongOtp | OppositeOutcome | BadCause | LedgerRefused | NeedsReview

  /** The actor and whether the account may write this delivery at this moment. */
  datatype Actor = Actor(id: UserId, allowed: bool)

  predicate Closed(status: DeliveryStatus) {
    status == COMPLETADA || status == FALLIDA || status == CANCELADA
  }

  predicate OrderClosed(status: OrderStatus) {
    status == ENTREGADO || status == FALLIDO || status == CANCELADO
  }

  // ----- create and start -----

  /** What `create_delivery` checks on the order it has read. */
  function CheckCreate(seen: Order): Option<Refusal> {
    if seen.status != ASIGNADO && seen.status != EN_RECOLECCION then Some(WrongState)
    else if seen.rider.None? then Some(NoRider)
    else None
  }

  /** The insert, which locks the order first; the key and the order of a delivery are unique. */
  function WriteCreate(db: Db, order: OrderId, id: DeliveryId, rider: RiderId, otpRequired: bool, otp: string)
    : Result<Db, Refusal>
  {
    if order !in db.orders then Failure(NotFound)
    else if db.orders[order].status == CANCELADO then Failure(OrderCancelled)
    else if id in db.deliveries || exists d :: d in db.deliveries && db.deliveries[d].order == order then Failure(Duplicate)
    else
      Success(db.(deliveries := db.deliveries[id :=
        Delivery(order, rider, DeliveryStatus.PENDIENTE, None, otpRequired, otp, None, None, None)]))
  }

  function Create(db: Db, order: OrderId, id: DeliveryId, otpRequired: bool, otp: string): Result<Db, Refusal> {
    if order !in db.orders then Failure(NotFound)
    else
      var refusal := CheckCreate(db.orders[order]);
      if refusal.Some? then Failure(refusal.value)
      else WriteCreate(db, order, id, db.orders[order].rider.value, otpRequired, otp)
  }

  /** What `start_delivery` checks on the row it has read. */
  function CheckStart(seen: Delivery, rider: RiderId): Option<Refusal> {
    if seen.status != DeliveryStatus.PENDIENTE && seen.status != INICIADA && seen.status != EN_PICKUP then Some(WrongState)
    else if seen.rider != rider then Some(Forbidden)
    else None
  }

  /** What it writes afterwards, through the generic update. */
  function WriteStart(db: Db, id: DeliveryId, now: int): Result<Db, Refusal> {
    if id !in db.deliveries then Failure(NotFound)
    else
      var row := db.deliveries[id];
      if row.order in db.orders && db.orders[row.order].status == CANCELADO then Failure(OrderCancelled)
      else if row.status == CANCELADA then Failure(DeliveryCancelled)
      else Success(db.(deliveries := db.deliveries[id := row.(status := EN_ROUTE, startedAt := Some(now))]))
  }

  function Start(db: Db, id: DeliveryId, rider: RiderId, now: int): Result<Db, Refusal> {
    if id !in db.deliveries then Failure(NotFound)
    else
      var refusal := CheckStart(db.deliveries[id], rider);
      if refusal.Some? then Failure(refusal.value) else WriteStart(db, id, now)
  }

  // ----- close -----

  function CheckLock(db: Db, id: DeliveryId, actor: Actor): Option<Refusal> {
    if id !in db.deliveries then Some(NotFound)
    else if db.deliveries[id].order !in db.orders then Some(OrderMissing)
    else if db.orders[db.deliveries[id].order].status == CANCELADO then Some(OrderCancelled)
    else if !actor.allowed then Some(Forbidden)
    else None
  }

  /** Write one entry under its unique key: the same entry again changes nothing, another one is refused. */
  function PayBonus(ledger: map<Key, Entry>, key: Key, entry: Entry, accepts: bool): Option<map<Key, Entry>> {
    if key in ledger then (if ledger[key] == entry then Some(ledger) else None)
    else if accepts then Some(ledger[key := entry])
    else None
  }

  function FrozenCents(row: Delivery): nat {
    if row.frozen.Some? then row.frozen.value.cents else 0
  }

  /** The writes of one closing: the delivery, its bonus if positive, and its order; all or none. */
  function Close(db: Db, id: DeliveryId, row: Delivery, order: Order, success: bool, actor: UserId,
                 accepts: bool): Result<Db, Refusal> {
    var cents := FrozenCents(row);
    var paid := if cents == 0 then Some(db.ledger)
                else PayBonus(db.ledger, Key(row.order, success), Entry(row.rider, cents, id, actor), accepts);
    if paid.None? then Failure(LedgerRefused)
    else Success(Db(db.orders[row.order := order], db.deliveries[id := row], paid.value))
  }

  predicate WrongCode(d: Delivery, supplied: string) {
    (d.otpRequired || d.otp != "") && (d.otp == "" || supplied == "" || d.otp != supplied)
  }

  function Freeze(config: DeliveryBonus.Config, kind: BonusKind, now: int): Frozen {
    var s := DeliveryBonus.BonusSnapshot(config);
    Frozen(s.cents, kind, now, s.warning)
  }

  function CompletedRow(d: Delivery, otp: string, config: DeliveryBonus.Config, now: int): Delivery {
    d.(status := COMPLETADA, frozen := Some(Freeze(config, SUCCESS, now)), otp := otp, completedAt := Some(now))
  }

  function Complete(db: Db, id: DeliveryId, actor: Actor, otp: string, config: DeliveryBonus.Config, now: int,
                    accepts: bool)
    : Result<Db, Refusal>
  {
    var refusal := CheckLock(db, id, actor);
    if refusal.Some? then Failure(refusal.value)
    else
      var d := db.deliveries[id];
      if d.status != INICIADA && d.status != EN_ROUTE && d.status != EN_DESTINO then Failure(WrongState)
      else if WrongCode(d, otp) then Failure(WrongOtp)
      else if Key(d.order, false) in db.ledger then Failure(OppositeOutcome)
      else
        Close(db, id, CompletedRow(d, otp, config, now),
              db.orders[d.order].(status := ENTREGADO, deliveredAt := Some(now)), true, actor.id, accepts)
  }

  function FailedRow(d: Delivery, cause: Cause, config: DeliveryBonus.Config, now: int): Delivery {
    d.(status := FALLIDA, cause := Some(cause),
       frozen := if Payable(cause) then Some(Freeze(config, FAILED_ATTEMPT, now)) else None)
  }

  /** `cause` is absent when the text names no known cause. */
  function Fail(db: Db, id: DeliveryId, actor: Actor, cause: Option<Cause>, config: DeliveryBonus.Config, now: int,
                accepts: bool)
    : Result<Db, Refusal>
  {
    var refusal := CheckLock(db, id, actor);
    if refusal.Some? then Failure(refusal.value)
    else
      var d := db.deliveries[id];
      if d.status != DeliveryStatus.PENDIENTE && d.status != INICIADA && d.status != EN_ROUTE && d.status != EN_DESTINO
      then Failure(WrongState)
      else if Key(d.order, true) in db.ledger then Failure(OppositeOutcome)
      else if cause.None? then Failure(BadCause)
      else
        Close(db, id, FailedRow(d, cause.value, config, now),
              db.orders[d.order].(status := FALLIDO, failureReason := cause), false, actor.id, accepts)
  }

  // ----- cancel -----

  predicate Cancellable(db: Db, order: OrderId)
    requires order in db.orders
  {
    && !OrderClosed(db.orders[order].status)
    && (forall d, e :: d in db.deliveries && e in db.deliveries && db.deliveries[d].order == order && db.deliveries[e].order == order ==> d == e)
    && (forall d :: d in db.deliveries && db.deliveries[d].order == order ==>
          && !Closed(db.deliveries[d].status) && Some(db.deliveries[d].rider) == db.orders[order].rider
          && db.deliveries[d].frozen.None?)
    && Key(order, true) !in db.ledger && Key(order, false) !in db.ledger
  }

  /** `clear` stands for the checks of routes, alerts, invoices and the account. */
  function Cancel(db: Db, order: OrderId, clear: bool): Result<Db, Refusal> {
    if order !in db.orders then Failure(NotFound)
    else if db.orders[order].status == CANCELADO then (if clear then Success(db) else Failure(NeedsReview))
    else if !Cancellable(db, order) || !clear then Failure(NeedsReview)
    else
      Success(db.(orders := db.orders[order := db.orders[order].(status := CANCELADO)],
                  deliveries := map d | d in db.deliveries ::
                    if db.deliveries[d].order == order then db.deliveries[d].(status := CANCELADA) else db.deliveries[d]))
  }

  // ----- runs -----

  datatype Step =
    | CreateDelivery(order: OrderId, id: DeliveryId, otpRequired: bool, otp: string)
    | StartDelivery(id: DeliveryId, rider: RiderId, now: int)
    | CompleteDelivery(id: DeliveryId, actor: Actor, otp: string, config: DeliveryBonus.Config, now: int, accepts: bool)
    | FailDelivery(id: DeliveryId, actor: Actor, cause: Option<Cause>, config: DeliveryBonus.Config, now: int, accepts: bool)
    | CancelOrder(order: OrderId, clear: bool)
    | NewOrder(order: OrderId)
    | MoveOrder(order: OrderId, next: OrderStatus, courier: Option<RiderId>)
    | MoveDelivery(id: DeliveryId, target: DeliveryStatus)

  /** One call, or another writer that moves an open order or delivery to an open status. */
  function Call(db: Db, step: Step): Result<Db, Refusal> {
    match step
    case CreateDelivery(order, id, otpRequired, otp) => Create(db, order, id, otpRequired, otp)
    case StartDelivery(id, rider, now) => Start(db, id, rider, now)
    case CompleteDelivery(id, actor, otp, config, now, accepts) => Complete(db, id, actor, otp, config, now, accepts)
    case FailDelivery(id, actor, cause, config, now, accepts) => Fail(db, id, actor, cause, config, now, accepts)
    case CancelOrder(order, clear) => Cancel(db, order, clear)
    case NewOrder(order) =>
      if order in db.orders then Failure(Duplicate)
      else Success(db.(orders := db.orders[order := Order(OrderStatus.PENDIENTE, None, None, None)]))
    case MoveOrder(order, status, rider) =>
      if order !in db.orders || OrderClosed(db.orders[order].status) || OrderClosed(status) then Failure(WrongState)
      else Success(db.(orders := db.orders[order := db.orders[order].(status := status, rider := rider)]))
    case MoveDelivery(id, status) =>
      if id !in db.deliveries || Closed(db.deliveries[id].status) || Closed(status) then Failure(WrongState)
      else Success(db.(deliveries := db.deliveries[id := db.deliveries[id].(status := status)]))
  }

  function Do(db: Db, step: Step): Db {
    match Call(db, step)
    case Success(after) => after
    case Failure(_) => db
  }

  function Run(db: Db, steps: seq<Step>): Db {
    if steps == [] then db else Do(Run(db, steps[..|steps| - 1]), steps[|steps| - 1])
  }

  // ----- the invariant -----

  /** Both rows have the same outcome, or none. */
  predicate SameOutcome(d: DeliveryStatus, o: OrderStatus) {
    (d == COMPLETADA <==> o == ENTREGADO) && (d == FALLIDA <==> o == FALLIDO) && (d == CANCELADA <==> o == CANCELADO)
  }

  /** Which bonus the row of a delivery says is paid. */
  function Owed(d: Delivery, success: bool): nat {
    if d.status == (if success then COMPLETADA else FALLIDA) then FrozenCents(d) else 0
  }

  predicate FrozenMatches(d: Delivery) {
    match d.status
    case COMPLETADA => d.frozen.Some? && d.frozen.value.kind == SUCCESS
    case FALLIDA => d.cause.Some? && d.frozen.Some? == Payable(d.cause.value) && (d.frozen.Some? ==> d.frozen.value.kind == FAILED_ATTEMPT)
    case _ => d.frozen == None
  }

  /** The entry under the key of an order is there exactly when its delivery owes it, with that amount. */
  ghost predicate PaidAsOwed(ledger: map<Key, Entry>, id: DeliveryId, d: Delivery, success: bool) {
    var key := Key(d.order, success);
    && (key in ledger <==> Owed(d, success) > 0)
    && (key in ledger ==> ledger[key].cents == Owed(d, success) && ledger[key].rider == d.rider && ledger[key].delivery == id)
  }

  ghost predicate Consistent(orders: map<OrderId, Order>, ledger: map<Key, Entry>, id: DeliveryId, d: Delivery) {
    && d.order in orders && SameOutcome(d.status, orders[d.order].status) && FrozenMatches(d)
    && PaidAsOwed(ledger, id, d, true) && PaidAsOwed(ledger, id, d, false)
  }

  ghost predicate HasDelivery(deliveries: map<DeliveryId, Delivery>, order: OrderId) {
    exists d :: d in deliveries && deliveries[d].order == order
  }

  ghost predicate OnePerOrder(deliveries: map<DeliveryId, Delivery>) {
    forall d, e :: d in deliveries && e in deliveries && deliveries[d].order == deliveries[e].order ==> d == e
  }

  /** Bonuses and closed orders belong to a delivery. */
  ghost predicate Accounted(db: Db) {
    && (forall key :: key in db.ledger ==> HasDelivery(db.deliveries, key.order))
    && (forall o :: o in db.orders && (db.orders[o].status == ENTREGADO || db.orders[o].status == FALLIDO) ==>
          HasDelivery(db.deliveries, o))
  }

  ghost predicate Inv(db: Db) {
    && (forall id :: id in db.deliveries ==> Consistent(db.orders, db.ledger, id, db.deliveries[id]))
    && OnePerOrder(db.deliveries) && Accounted(db)
  }

  lemma {:induction false} HasDeliveryGrows(before: map<DeliveryId, Delivery>, after: map<DeliveryId, Delivery>)
    requires forall d :: d in before ==> d in after && after[d].order == before[d].order
    ensures forall o :: HasDelivery(before, o) ==> HasDelivery(after, o)
  {
  }

  /** An order whose delivery is missing is open or cancelled, so the insert does no
      harm even if it comes later than the checks. */
  lemma {:induction false} WriteCreateKeepsInv(db: Db, order: OrderId, id: DeliveryId, rider: RiderId,
                                               otpRequired: bool, otp: string)
    requires Inv(db) && WriteCreate(db, order, id, rider, otpRequired, otp).Success?
    ensures Inv(WriteCreate(db, order, id, rider, otpRequired, otp).value)
  {
    var after := WriteCreate(db, order, id, rider, otpRequired, otp).value;
    assert !HasDelivery(db.deliveries, order);
    assert Consistent(db.orders, db.ledger, id, after.deliveries[id]);
    HasDeliveryGrows(db.deliveries, after.deliveries);
  }

  /** A new row for an open delivery that stays open keeps everything consistent. */
  lemma {:induction false} OpenRowKeepsInv(db: Db, id: DeliveryId, row: Delivery)
    requires Inv(db) && id in db.deliveries && !Closed(db.deliveries[id].status) && !Closed(row.status)
    requires row.order == db.deliveries[id].order && row.frozen == None
    ensures Inv(db.(deliveries := db.deliveries[id := row]))
  {
    assert Consistent(db.orders, db.ledger, id, db.deliveries[id]);
    assert Consistent(db.orders, db.ledger, id, row);
    HasDeliveryGrows(db.deliveries, db.deliveries[id := row]);
  }

  /** The rows written with one order do not touch a delivery of another. */
  lemma {:induction false} OtherOrderKeeps(orders: map<OrderId, Order>, ledger: map<Key, Entry>, id: DeliveryId,
                                           d: Delivery,
                                           order: OrderId, row: Order, ledger': map<Key, Entry>)
    requires Consistent(orders, ledger, id, d) && d.order != order
    requires forall key: Key :: key.order != order ==>
               (key in ledger' <==> key in ledger) && (key in ledger ==> ledger'[key] == ledger[key])
    ensures Consistent(orders[order := row], ledger', id, d)
  {
  }

  /** The closed row is consistent with what is written beside it. */
  lemma {:induction false} ClosedRowConsistent(db: Db, id: DeliveryId, row: Delivery, order: Order, success: bool,
                                               actor: UserId, accepts: bool)
    requires row.status == (if success then COMPLETADA else FALLIDA) && order.status == (if success then ENTREGADO else FALLIDO)
    requires FrozenMatches(row) && Key(row.order, true) !in db.ledger && Key(row.order, false) !in db.ledger
    requires Close(db, id, row, order, success, actor, accepts).Success?
    ensures var after := Close(db, id, row, order, success, actor, accepts).value;
            && Consistent(after.orders, after.ledger, id, row)
            && forall key: Key :: key.order != row.order ==>
                 (key in after.ledger <==> key in db.ledger) && (key in db.ledger ==> after.ledger[key] == db.ledger[key])
    ensures forall key :: key in Close(db, id, row, order, success, actor, accepts).value.ledger ==>
              key in db.ledger || key.order == row.order
  {
  }

  lemma {:induction false} OpenOwesNothing(db: Db, id: DeliveryId)
    requires Inv(db) && id in db.deliveries && !Closed(db.deliveries[id].status)
    ensures Key(db.deliveries[id].order, true) !in db.ledger && Key(db.deliveries[id].order, false) !in db.ledger
  {
  }

  /** Closing an open delivery together with its order and its bonus keeps everything consistent. */
  lemma {:induction false} CloseKeepsInv(db: Db, id: DeliveryId, row: Delivery, order: Order, success: bool,
                                         actor: UserId, accepts: bool)
    requires Inv(db) && id in db.deliveries && !Closed(db.deliveries[id].status)
    requires row.order == db.deliveries[id].order && FrozenMatches(row)
    requires row.status == (if success then COMPLETADA else FALLIDA) && order.status == (if success then ENTREGADO else FALLIDO)
    requires Close(db, id, row, order, success, actor, accepts).Success?
    ensures Inv(Close(db, id, row, order, success, actor, accepts).value)
  {
    var after := Close(db, id, row, order, success, actor, accepts).value;
    OpenOwesNothing(db, id);
    ClosedRowConsistent(db, id, row, order, success, actor, accepts);
    forall d | d in after.deliveries ensures Consistent(after.orders, after.ledger, d, after.deliveries[d]) {
      if d != id {
        assert db.deliveries[d].order != row.order;
        OtherOrderKeeps(db.orders, db.ledger, d, db.deliveries[d], row.order, order, after.ledger);
      }
    }
    HasDeliveryGrows(db.deliveries, after.deliveries);
    assert HasDelivery(after.deliveries, row.order) by {
      assert id in after.deliveries && after.deliveries[id].order == row.order;
    }
  }

  lemma {:induction false} CancelKeepsInv(db: Db, order: OrderId, clear: bool)
    requires Inv(db) && Cancel(db, order, clear).Success?
    ensures Inv(Cancel(db, order, clear).value)
  {
    var after := Cancel(db, order, clear).value;
    if db.orders[order].status != CANCELADO {
      forall d | d in after.deliveries ensures Consistent(after.orders, after.ledger, d, after.deliveries[d]) {
        assert Consistent(db.orders, db.ledger, d, db.deliveries[d]);
      }
      HasDeliveryGrows(db.deliveries, after.deliveries);
    }
  }

  lemma {:induction false} OrderRowKeepsInv(db: Db, order: OrderId, row: Order)
    requires Inv(db) && !OrderClosed(row.status) && (order in db.orders ==> !OrderClosed(db.orders[order].status))
    ensures Inv(db.(orders := db.orders[order := row]))
  {
  }

  lemma {:induction false} CompleteKeepsInv(db: Db, id: DeliveryId, actor: Actor, otp: string,
                                            config: DeliveryBonus.Config, now: int, accepts: bool)
    requires Inv(db) && Complete(db, id, actor, otp, config, now, accepts).Success?
    ensures Inv(Complete(db, id, actor, otp, config, now, accepts).value)
  {
    var d := db.deliveries[id];
    CloseKeepsInv(db, id, CompletedRow(d, otp, config, now),
                  db.orders[d.order].(status := ENTREGADO, deliveredAt := Some(now)), true, actor.id, accepts);
  }

  lemma {:induction false} FailKeepsInv(db: Db, id: DeliveryId, actor: Actor, cause: Option<Cause>,
                                        config: DeliveryBonus.Config, now: int, accepts: bool)
    requires Inv(db) && Fail(db, id, actor, cause, config, now, accepts).Success?
    ensures Inv(Fail(db, id, actor, cause, config, now, accepts).value)
  {
    var d := db.deliveries[id];
    CloseKeepsInv(db, id, FailedRow(d, cause.value, config, now),
                  db.orders[d.order].(status := FALLIDO, failureReason := cause), false, actor.id, accepts);
  }

  lemma {:induction false} StepKeepsInv(db: Db, step: Step)
    requires Inv(db)
    ensures Inv(Do(db, step))
  {
    if Call(db, step).Success? {
      match step
      case CreateDelivery(order, id, otpRequired, otp) =>
        WriteCreateKeepsInv(db, order, id, db.orders[order].rider.value, otpRequired, otp);
      case StartDelivery(id, rider, now) =>
        assert Consistent(db.orders, db.ledger, id, db.deliveries[id]);
        OpenRowKeepsInv(db, id, db.deliveries[id].(status := EN_ROUTE, startedAt := Some(now)));
      case CompleteDelivery(id, actor, otp, config, now, accepts) =>
        CompleteKeepsInv(db, id, actor, otp, config, now, accepts);
      case FailDelivery(id, actor, cause, config, now, accepts) =>
        FailKeepsInv(db, id, actor, cause, config, now, accepts);
      case CancelOrder(order, clear) =>
        CancelKeepsInv(db, order, clear);
      case NewOrder(order) =>
        OrderRowKeepsInv(db, order, Order(OrderStatus.PENDIENTE, None, None, None));
      case MoveOrder(order, next, courier) =>
        OrderRowKeepsInv(db, order, db.orders[order].(status := next, rider := courier));
      case MoveDelivery(id, target) =>
        assert Consistent(db.orders, db.ledger, id, db.deliveries[id]);
        OpenRowKeepsInv(db, id, db.deliveries[id].(status := target));
    }
  }

  lemma {:induction false} RunKeepsInv(db: Db, steps: seq<Step>)
    requires Inv(db)
    ensures Inv(Run(db, steps))
  {
    if steps != [] {
      RunKeepsInv(db, steps[..|steps| - 1]);
      StepKeepsInv(Run(db, steps[..|steps| - 1]), steps[|steps| - 1]);
    }
  }

  /** From an empty system, over every run: no order has both bonuses; both rows of an
      order have the same outcome; and a bonus is on the ledger exactly when a
      positive amount is frozen for that outcome, with exactly that amount, for
      the rider of the delivery. */
  lemma {:induction false} OneOutcomePerOrder(steps: seq<Step>, id: DeliveryId)
    requires id in Run(Db(map[], map[], map[]), steps).deliveries
    ensures var db := Run(Db(map[], map[], map[]), steps);
            var d := db.deliveries[id];
            && !(Key(d.order, true) in db.ledger && Key(d.order, false) in db.ledger)
            && d.order in db.orders && SameOutcome(d.status, db.orders[d.order].status)
            && forall success :: Key(d.order, success) in db.ledger <==>
                 d.frozen.Some? && d.frozen.value.cents > 0 && d.frozen.value.kind == (if success then SUCCESS else FAILED_ATTEMPT)
    ensures var db := Run(Db(map[], map[], map[]), steps);
            var d := db.deliveries[id];
            forall success :: Key(d.order, success) in db.ledger ==>
              db.ledger[Key(d.order, success)].cents == FrozenCents(d) && db.ledger[Key(d.order, success)].rider == d.rider
  {
    var db := Run(Db(map[], map[], map[]), steps);
    RunKeepsInv(Db(map[], map[], map[]), steps);
    assert Consistent(db.orders, db.ledger, id, db.deliveries[id]);
    forall success ensures PaidAsOwed(db.ledger, id, db.deliveries[id], success) {
      if success {
        assert PaidAsOwed(db.ledger, id, db.deliveries[id], true);
      } else {
        assert PaidAsOwed(db.ledger, id, db.deliveries[id], false);
      }
    }
  }

  // ----- closed is closed -----

  ghost predicate SameEntry(before: map<Key, Entry>, after: map<Key, Entry>, key: Key) {
    (key in after <==> key in before) && (key in before ==> after[key] == before[key])
  }

  /** The delivery, its order and its bonuses are as before. */
  ghost predicate SameStory(db: Db, after: Db, id: DeliveryId)
    requires id in db.deliveries && db.deliveries[id].order in db.orders
  {
    var order := db.deliveries[id].order;
    && id in after.deliveries && after.deliveries[id] == db.deliveries[id]
    && order in after.orders && after.orders[order] == db.orders[order]
    && SameEntry(db.ledger, after.ledger, Key(order, true)) && SameEntry(db.ledger, after.ledger, Key(order, false))
  }

  lemma {:induction false} CloseKeepsStory(db: Db, other: DeliveryId, row: Delivery, order: Order, success: bool,
                                           actor: UserId, accepts: bool, id: DeliveryId)
    requires id in db.deliveries && db.deliveries[id].order in db.orders
    requires other != id && row.order != db.deliveries[id].order
    requires Close(db, other, row, order, success, actor, accepts).Success?
    ensures SameStory(db, Close(db, other, row, order, success, actor, accepts).value, id)
  {
  }

  lemma {:induction false} CallKeepsClosed(db: Db, step: Step, id: DeliveryId)
    requires Inv(db) && id in db.deliveries && Closed(db.deliveries[id].status) && db.deliveries[id].order in db.orders
    requires OrderClosed(db.orders[db.deliveries[id].order].status)
    requires db.orders[db.deliveries[id].order].status == CANCELADO <==> db.deliveries[id].status == CANCELADA
    requires Call(db, step).Success? && !step.CompleteDelivery? && !step.FailDelivery?
    ensures SameStory(db, Call(db, step).value, id)
  {
  }

  lemma {:induction false} StepKeepsClosed(db: Db, step: Step, id: DeliveryId)
    requires Inv(db) && id in db.deliveries && Closed(db.deliveries[id].status)
    ensures db.deliveries[id].order in db.orders && SameStory(db, Do(db, step), id)
  {
    assert Consistent(db.orders, db.ledger, id, db.deliveries[id]);
    if Call(db, step).Success? {
      if step.CompleteDelivery? {
        var d := db.deliveries[step.id];
        CloseKeepsStory(db, step.id, CompletedRow(d, step.otp, step.config, step.now),
                        db.orders[d.order].(status := ENTREGADO, deliveredAt := Some(step.now)), true, step.actor.id, step.accepts, id);
      } else if step.FailDelivery? {
        var d := db.deliveries[step.id];
        CloseKeepsStory(db, step.id, FailedRow(d, step.cause.value, step.config, step.now),
                        db.orders[d.order].(status := FALLIDO, failureReason := step.cause), false, step.actor.id, step.accepts, id);
      } else {
        CallKeepsClosed(db, step, id);
      }
    }
  }

  /** Once a delivery is closed, no run changes its row, its order or its bonuses. */
  lemma {:induction false} ClosedNeverChanges(db: Db, steps: seq<Step>, id: DeliveryId)
    requires Inv(db) && id in db.deliveries && Closed(db.deliveries[id].status)
    ensures db.deliveries[id].order in db.orders && SameStory(db, Run(db, steps), id)
  {
    assert Consistent(db.orders, db.ledger, id, db.deliveries[id]);
    if steps != [] {
      var n := |steps| - 1;
      ClosedNeverChanges(db, steps[..n], id);
      RunKeepsInv(db, steps[..n]);
      StepKeepsClosed(Run(db, steps[..n]), steps[n], id);
    }
  }

  // ----- what every call answers and writes -----

  /** No code is asked for, or the stored one is given. */
  predicate RightCode(d: Delivery, supplied: string) {
    (!d.otpRequired && d.otp == "") || (supplied != "" && supplied == d.otp)
  }

  /** In a consistent system a completion succeeds exactly for a delivery under way, the
      right code, an account that may write it, and a ledger that takes a positive
      bonus; and each refusal has its one cause, in this order. */
  lemma {:induction false} CompleteAnswers(db: Db, id: DeliveryId, actor: Actor, otp: string,
                                           config: DeliveryBonus.Config, now: int, accepts: bool)
    requires Inv(db)
    ensures var r := Complete(db, id, actor, otp, config, now, accepts);
            && (r == Failure(NotFound) <==> id !in db.deliveries)
            && (id in db.deliveries ==>
                  var d := db.deliveries[id];
                  var open, known := d.status != CANCELADA, d.status in {INICIADA, EN_ROUTE, EN_DESTINO};
                  var right := RightCode(d, otp);
                  && (r == Failure(OrderCancelled) <==> !open)
                  && (r == Failure(Forbidden) <==> open && !actor.allowed)
                  && (r == Failure(WrongState) <==> open && actor.allowed && !known)
                  && (r == Failure(WrongOtp) <==> actor.allowed && known && !right)
                  && (r == Failure(LedgerRefused) <==>
                        actor.allowed && known && right && !accepts && DeliveryBonus.PaysOut(config))
                  && (r.Success? <==> actor.allowed && known && right && (accepts || !DeliveryBonus.PaysOut(config))))
  {
    DeliveryBonus.PositiveIffPaysOut(config);
    if id in db.deliveries {
      assert Consistent(db.orders, db.ledger, id, db.deliveries[id]);
    }
  }

  /** And a failure for a delivery not closed and not at its pick-up, and a known cause;
      only a cause outside the rider's hands, with a bonus to pay, needs the ledger. */
  lemma {:induction false} FailAnswers(db: Db, id: DeliveryId, actor: Actor, cause: Option<Cause>,
                                       config: DeliveryBonus.Config, now: int, accepts: bool)
    requires Inv(db)
    ensures var r := Fail(db, id, actor, cause, config, now, accepts);
            && (r == Failure(NotFound) <==> id !in db.deliveries)
            && (id in db.deliveries ==>
                  var d := db.deliveries[id];
                  var open, known := d.status != CANCELADA, d.status in {DeliveryStatus.PENDIENTE, INICIADA, EN_ROUTE, EN_DESTINO};
                  var pays := cause.Some? && OutsideTheRider(cause.value) && DeliveryBonus.PaysOut(config);
                  && (r == Failure(OrderCancelled) <==> !open)
                  && (r == Failure(Forbidden) <==> open && !actor.allowed)
                  && (r == Failure(WrongState) <==> open && actor.allowed && !known)
                  && (r == Failure(BadCause) <==> actor.allowed && known && cause.None?)
                  && (r == Failure(LedgerRefused) <==> actor.allowed && known && pays && !accepts)
                  && (r.Success? <==> actor.allowed && known && cause.Some? && (accepts || !pays)))
  {
    DeliveryBonus.PositiveIffPaysOut(config);
    if id in db.deliveries {
      assert Consistent(db.orders, db.ledger, id, db.deliveries[id]);
    }
  }

  /** The causes that the rider cannot help. */
  predicate OutsideTheRider(cause: Cause) {
    cause in {CLIENTE_NO_ESTA, CLIENTE_NO_CONTESTA, DIRECCION_INCORRECTA, DIRECCION_NO_EXISTE, COMERCIO_CERRADO,
              CLIENTE_RECHAZA, ZONA_INSEGURA, FUERZA_MAYOR, EDIFICIO_RESTRINGIDO}
  }

  /** What a completion writes: both rows, and one entry with the frozen amount exactly
      when that is positive. The amount is what the configuration of this moment earns. */
  lemma {:induction false} CompleteWrites(db: Db, id: DeliveryId, actor: Actor, otp: string,
                                          config: DeliveryBonus.Config, now: int, accepts: bool)
    requires Inv(db) && Complete(db, id, actor, otp, config, now, accepts).Success?
    ensures var after := Complete(db, id, actor, otp, config, now, accepts).value;
            var d, order := db.deliveries[id], db.orders[db.deliveries[id].order];
            && id in after.deliveries && after.deliveries[id].frozen.Some?
            && var frozen := after.deliveries[id].frozen.value;
               && DeliveryBonus.Earns(config, frozen.cents) && frozen.kind == SUCCESS && frozen.at == now
               && (frozen.warning.None? <==> DeliveryBonus.Payable(config))
               && after.deliveries == db.deliveries[id :=
                    d.(status := COMPLETADA, completedAt := Some(now), otp := otp, frozen := Some(frozen))]
               && after.orders == db.orders[d.order := order.(status := ENTREGADO, deliveredAt := Some(now))]
               && Key(d.order, true) !in db.ledger
               && after.ledger == if frozen.cents == 0 then db.ledger
                                  else db.ledger[Key(d.order, true) := Entry(d.rider, frozen.cents, id, actor.id)]
  {
    OpenOwesNothing(db, id);
    assert Consistent(db.orders, db.ledger, id, db.deliveries[id]);
    DeliveryBonus.SnapshotMeaning(config);
  }

  lemma {:induction false} FailedRowIs(d: Delivery, cause: Cause, config: DeliveryBonus.Config, now: int)
    requires d.frozen.None?
    ensures var row := FailedRow(d, cause, config, now);
            && row == d.(status := FALLIDA, cause := Some(cause), frozen := row.frozen)
            && (row.frozen.Some? <==> OutsideTheRider(cause))
            && (row.frozen.Some? ==>
                  && DeliveryBonus.Earns(config, row.frozen.value.cents)
                  && row.frozen.value.kind == FAILED_ATTEMPT && row.frozen.value.at == now
                  && (row.frozen.value.warning.None? <==> DeliveryBonus.Payable(config)))
  {
    DeliveryBonus.SnapshotMeaning(config);
  }

  /** What a failure writes: an amount is frozen only for a cause outside the rider's hands. */
  lemma {:induction false} FailWrites(db: Db, id: DeliveryId, actor: Actor, cause: Cause,
                                      config: DeliveryBonus.Config, now: int, accepts: bool)
    requires Inv(db) && Fail(db, id, actor, Some(cause), config, now, accepts).Success?
    ensures var after := Fail(db, id, actor, Some(cause), config, now, accepts).value;
            var d, order := db.deliveries[id], db.orders[db.deliveries[id].order];
            && id in after.deliveries
            && var frozen := after.deliveries[id].frozen;
               && (frozen.Some? <==> OutsideTheRider(cause))
               && (frozen.Some? ==>
                     && DeliveryBonus.Earns(config, frozen.value.cents)
                     && frozen.value.kind == FAILED_ATTEMPT && frozen.value.at == now
                     && (frozen.value.warning.None? <==> DeliveryBonus.Payable(config)))
               && after.deliveries == db.deliveries[id := d.(status := FALLIDA, cause := Some(cause), frozen := frozen)]
               && after.orders == db.orders[d.order := order.(status := FALLIDO, failureReason := Some(cause))]
               && Key(d.order, false) !in db.ledger
               && after.ledger == if frozen.None? || frozen.value.cents == 0 then db.ledger
                                  else db.ledger[Key(d.order, false) := Entry(d.rider, frozen.value.cents, id, actor.id)]
  {
    OpenOwesNothing(db, id);
    assert Consistent(db.orders, db.ledger, id, db.deliveries[id]);
    FailedRowIs(db.deliveries[id], cause, config, now);
  }

  /** An order is cancelled exactly while it is open and its delivery, if it has one, is
      with its own rider; then that delivery goes with it and nothing else. Cancelling
      again changes nothing. */
  lemma {:induction false} CancelAnswers(db: Db, order: OrderId, clear: bool)
    requires Inv(db)
    ensures var r := Cancel(db, order, clear);
            && (r == Failure(NotFound) <==> order !in db.orders)
            && (r.Success? <==>
                  && order in db.orders && clear && db.orders[order].status !in {ENTREGADO, FALLIDO}
                  && (db.orders[order].status == CANCELADO
                      || forall d :: d in db.deliveries && db.deliveries[d].order == order ==>
                           Some(db.deliveries[d].rider) == db.orders[order].rider))
            && (r.Failure? ==> r.error == NotFound || r.error == NeedsReview)
            && (r.Success? ==>
                  && r.value.ledger == db.ledger && r.value.deliveries.Keys == db.deliveries.Keys
                  && r.value.orders == db.orders[order := db.orders[order].(status := CANCELADO)]
                  && forall d :: d in db.deliveries ==>
                       r.value.deliveries[d] == if db.deliveries[d].order == order then db.deliveries[d].(status := CANCELADA)
                                                else db.deliveries[d])
  {
    forall d | d in db.deliveries ensures Consistent(db.orders, db.ledger, d, db.deliveries[d]) {
    }
    if order in db.orders && Key(order, true) in db.ledger {
      assert HasDelivery(db.deliveries, Key(order, true).order);
    }
    if order in db.orders && Key(order, false) in db.ledger {
      assert HasDelivery(db.deliveries, Key(order, false).order);
    }
  }

  /** A creation succeeds exactly for an order assigned or at its pick-up, with a rider
      and without a delivery, and adds one row. */
  lemma {:induction false} CreateAnswers(db: Db, order: OrderId, id: DeliveryId, otpRequired: bool, otp: string)
    ensures var r := Create(db, order, id, otpRequired, otp);
            var taken := id in db.deliveries || exists d :: d in db.deliveries && db.deliveries[d].order == order;
            && (r == Failure(NotFound) <==> order !in db.orders)
            && (order in db.orders ==>
                  var o := db.orders[order];
                  var ready := o.status in {ASIGNADO, EN_RECOLECCION};
                  && (r == Failure(WrongState) <==> !ready) && (r == Failure(NoRider) <==> ready && o.rider.None?)
                  && (r == Failure(Duplicate) <==> ready && o.rider.Some? && taken)
                  && (r.Success? <==> ready && o.rider.Some? && !taken)
                  && (r.Success? ==>
                        && r.value.orders == db.orders && r.value.ledger == db.ledger
                        && r.value.deliveries == db.deliveries[id :=
                             Delivery(order, o.rider.value, DeliveryStatus.PENDIENTE, None, otpRequired, otp, None, None, None)]))
  {
  }

  /** A start succeeds exactly for the rider of a delivery not yet on its way, and
      changes its status and its start. */
  lemma {:induction false} StartAnswers(db: Db, id: DeliveryId, rider: RiderId, now: int)
    requires Inv(db)
    ensures var r := Start(db, id, rider, now);
            && (r == Failure(NotFound) <==> id !in db.deliveries)
            && (id in db.deliveries ==>
                  var d := db.deliveries[id];
                  var early := d.status in {DeliveryStatus.PENDIENTE, INICIADA, EN_PICKUP};
                  && (r == Failure(WrongState) <==> !early) && (r == Failure(Forbidden) <==> early && d.rider != rider)
                  && (r.Success? <==> early && d.rider == rider)
                  && (r.Success? ==>
                        r.value == db.(deliveries := db.deliveries[id := d.(status := EN_ROUTE, startedAt := Some(now))])))
  {
    if id in db.deliveries {
      assert Consistent(db.orders, db.ledger, id, db.deliveries[id]);
    }
  }

  /** The other writers of a run: a new order, and open rows that are moved to open statuses. */
  lemma {:induction false} OtherWriters(db: Db, order: OrderId, status: OrderStatus, courier: Option<RiderId>,
                                        id: DeliveryId, target: DeliveryStatus)
    ensures Call(db, NewOrder(order)) ==
            if order in db.orders then Failure(Duplicate)
            else Success(Db(db.orders[order := Order(OrderStatus.PENDIENTE, None, None, None)], db.deliveries, db.ledger))
    ensures var open := order in db.orders && {db.orders[order].status, status} !! {ENTREGADO, FALLIDO, CANCELADO};
            Call(db, MoveOrder(order, status, courier)) ==
            if !open then Failure(WrongState)
            else Success(Db(db.orders[order := Order(status, courier, db.orders[order].deliveredAt, db.orders[order].failureReason)],
                            db.deliveries, db.ledger))
    ensures var open := id in db.deliveries && {db.deliveries[id].status, target} !! {COMPLETADA, FALLIDA, CANCELADA};
            Call(db, MoveDelivery(id, target)) ==
            if !open then Failure(WrongState)
            else Success(Db(db.orders, db.deliveries[id := db.deliveries[id].(status := target)], db.ledger))
  {
  }

  // ----- the guards that a consistent system never needs -----

  /** The entry of a bonus that is earned with this delivery by this account. */
  predicate EarnedEntry(e: Entry, d: Delivery, id: DeliveryId, actor: Actor, config: DeliveryBonus.Config) {
    e.rider == d.rider && e.delivery == id && e.actor == actor.id && DeliveryBonus.Earns(config, e.cents)
  }

  /** Over any tables, a delivery without its order and an order with the other bonus are
      refused; and where the bonus is on the ledger already, the same one is not written
      again and a different one is refused. */
  lemma {:induction false} CompleteOverAnyTables(db: Db, id: DeliveryId, actor: Actor, otp: string,
                                                 config: DeliveryBonus.Config, now: int, accepts: bool)
    requires id in db.deliveries
    ensures var r, d := Complete(db, id, actor, otp, config, now, accepts), db.deliveries[id];
            && (r == Failure(OrderMissing) <==> d.order !in db.orders)
            && (d.order in db.orders ==>
                  var due := db.orders[d.order].status != CANCELADO && actor.allowed
                             && d.status in {INICIADA, EN_ROUTE, EN_DESTINO} && RightCode(d, otp);
                  var pays, key := DeliveryBonus.PaysOut(config), Key(d.order, true);
                  && (r == Failure(OppositeOutcome) <==> due && Key(d.order, false) in db.ledger)
                  && (r.Success? <==>
                        && due && Key(d.order, false) !in db.ledger
                        && (pays ==> if key in db.ledger then EarnedEntry(db.ledger[key], d, id, actor, config) else accepts))
                  && (r.Success? && key in db.ledger ==> r.value.ledger == db.ledger))
  {
    DeliveryBonus.SnapshotMeaning(config);
    DeliveryBonus.PositiveIffPaysOut(config);
  }

  lemma {:induction false} FailOverAnyTables(db: Db, id: DeliveryId, actor: Actor, cause: Cause,
                                             config: DeliveryBonus.Config, now: int, accepts: bool)
    requires id in db.deliveries && db.deliveries[id].frozen.None?
    ensures var r, d := Fail(db, id, actor, Some(cause), config, now, accepts), db.deliveries[id];
            && (r == Failure(OrderMissing) <==> d.order !in db.orders)
            && (d.order in db.orders ==>
                  var due := db.orders[d.order].status != CANCELADO && actor.allowed
                             && d.status in {DeliveryStatus.PENDIENTE, INICIADA, EN_ROUTE, EN_DESTINO};
                  var pays, key := OutsideTheRider(cause) && DeliveryBonus.PaysOut(config), Key(d.order, false);
                  && (r == Failure(OppositeOutcome) <==> due && Key(d.order, true) in db.ledger)
                  && (r.Success? <==>
                        && due && Key(d.order, true) !in db.ledger
                        && (pays ==> if key in db.ledger then EarnedEntry(db.ledger[key], d, id, actor, config) else accepts))
                  && (r.Success? && key in db.ledger ==> r.value.ledger == db.ledger))
  {
    FailedRowIs(db.deliveries[id], cause, config, now);
    DeliveryBonus.SnapshotMeaning(config);
    DeliveryBonus.PositiveIffPaysOut(config);
  }

  /** No order is cancelled that has two deliveries, a closed or paid one, or a bonus. */
  lemma {:induction false} CancelOverAnyTables(db: Db, order: OrderId, clear: bool)
    requires order in db.orders && db.orders[order].status != CANCELADO
    ensures Cancel(db, order, clear).Success? <==>
            && clear && db.orders[order].status !in {ENTREGADO, FALLIDO}
            && Key(order, true) !in db.ledger && Key(order, false) !in db.ledger
            && (forall d :: d in db.deliveries && db.deliveries[d].order == order ==>
                  && db.deliveries[d].status !in {COMPLETADA, FALLIDA, CANCELADA}
                  && Some(db.deliveries[d].rider) == db.orders[order].rider && db.deliveries[d].frozen == None)
            && (forall d, e :: d in db.deliveries && e in db.deliveries && d != e ==>
                  db.deliveries[d].order != order || db.deliveries[e].order != order)
  {
  }

  /** The writes of a creation and of a start, whatever was read before them. */
  lemma {:induction false} WritesOverAnyTables(db: Db, order: OrderId, id: DeliveryId, rider: RiderId, otpRequired: bool,
                                               otp: string, now: int)
    ensures var r := WriteCreate(db, order, id, rider, otpRequired, otp);
            var cancelled := order in db.orders && db.orders[order].status == CANCELADO;
            && (r == Failure(NotFound) <==> order !in db.orders) && (r == Failure(OrderCancelled) <==> cancelled)
    ensures var r := WriteStart(db, id, now);
            && (r == Failure(NotFound) <==> id !in db.deliveries)
            && (id in db.deliveries ==>
                  var d := db.deliveries[id];
                  var cancelled := d.order in db.orders && db.orders[d.order].status == CANCELADO;
                  && (r == Failure(OrderCancelled) <==> cancelled)
                  && (r == Failure(DeliveryCancelled) <==> !cancelled && d.status == CANCELADA))
  {
  }

  // ----- a start that reads before it locks -----

  /** `start_delivery` checks a row read without a lock. When the write comes later,
      it is refused for a cancelled delivery only, and the system stays consistent
      exactly when the delivery is not closed by then. */
  lemma {:induction false} LateStartIsSafeIffOpen(db: Db, id: DeliveryId, now: int)
    requires Inv(db) && id in db.deliveries
    ensures WriteStart(db, id, now).Success? <==> db.deliveries[id].status != CANCELADA
    ensures WriteStart(db, id, now).Success? ==>
              (Inv(WriteStart(db, id, now).value) <==> !Closed(db.deliveries[id].status))
  {
    assert Consistent(db.orders, db.ledger, id, db.deliveries[id]);
    if WriteStart(db, id, now).Success? {
      var after := WriteStart(db, id, now).value;
      if Closed(db.deliveries[id].status) {
        assert !Consistent(after.orders, after.ledger, id, after.deliveries[id]);
      } else {
        OpenRowKeepsInv(db, id, after.deliveries[id]);
      }
    }
  }

  function OpenExample(): Db {
    Db(map[1 := Order(ASIGNADO, Some(7), None, None)],
       map[5 := Delivery(1, 7, DeliveryStatus.PENDIENTE, None, false, "", None, None, None)], map[])
  }

  function FailExample(): Step {
    FailDelivery(5, Actor(7, true), Some(OTRO_REPARTIDOR), DeliveryBonus.Config(None, None, DeliveryBonus.BRONCE), 0, true)
  }

  /** It happens: read an open delivery, let it fail, then write. */
  lemma {:induction false} LateStartReopens()
    ensures Inv(OpenExample()) && CheckStart(OpenExample().deliveries[5], 7) == None
    ensures WriteStart(Do(OpenExample(), FailExample()), 5, 0).Success?
    ensures !Inv(WriteStart(Do(OpenExample(), FailExample()), 5, 0).value)
  {
    var db, failed := OpenExample(), Do(OpenExample(), FailExample());
    assert Consistent(db.orders, db.ledger, 5, db.deliveries[5]);
    assert failed.deliveries[5].status == FALLIDA;
    StepKeepsInv(db, FailExample());
    LateStartIsSafeIffOpen(failed, 5, 0);
  }

  // ----- the tables -----

  class DeliveryTables {
    var orders: map<OrderId, Order>
    var deliveries: map<DeliveryId, Delivery>
    var ledger: map<Key, Entry>

    constructor ()
      ensures State() == Db(map[], map[], map[])
    {
      orders, deliveries, ledger := map[], map[], map[];
    }

    ghost function State(): Db
      reads this
    {
      Db(orders, deliveries, ledger)
    }

    /** The generic update of a delivery row inside a transaction. */
    method UpdateDelivery(id: DeliveryId, row: Delivery) returns (r: Option<Refusal>)
      requires id in deliveries && row.order == deliveries[id].order
      modifies this`deliveries
      ensures var cancelled := row.order in orders && orders[row.order].status == CANCELADO;
              && (r == Some(OrderCancelled) <==> cancelled)
              && (r == Some(DeliveryCancelled) <==>
                    !cancelled && (old(deliveries[id].status) == CANCELADA || row.status == CANCELADA))
              && (r.Some? ==> r.value == OrderCancelled || r.value == DeliveryCancelled)
      ensures deliveries == if r.None? then old(deliveries)[id := row] else old(deliveries)
    {
      if row.order in orders && orders[row.order].status == CANCELADO {
        return Some(OrderCancelled);
      }
      if deliveries[id].status == CANCELADA || row.status == CANCELADA {
        return Some(DeliveryCancelled);
      }
      deliveries := deliveries[id := row];
      return None;
    }

    method CreateLedgerEntry(key: Key, entry: Entry, accepts: bool) returns (ok: bool)
      modifies this`ledger
      ensures ok <==> PayBonus(old(ledger), key, entry, accepts).Some?
      ensures ledger == if ok then PayBonus(old(ledger), key, entry, accepts).value else old(ledger)
    {
      if key in ledger {
        return ledger[key] == entry;
      }
      if accepts {
        ledger := ledger[key := entry];
      }
      return accepts;
    }

    /** Close one delivery; when the ledger refuses, the row written before is rolled back. */
    method CloseDelivery(id: DeliveryId, row: Delivery, order: Order, success: bool, actor: UserId, accepts: bool)
      returns (r: Option<Refusal>)
      requires id in deliveries && row.order == deliveries[id].order && row.order in orders
      requires orders[row.order].status != CANCELADO && deliveries[id].status != CANCELADA && row.status != CANCELADA
      modifies this
      ensures match Close(old(State()), id, row, order, success, actor, accepts)
              case Success(after) => State() == after && r == None
              case Failure(e) => State() == old(State()) && r == Some(e)
    {
      var before := deliveries;
      r := UpdateDelivery(id, row);
      var cents := if row.frozen.Some? then row.frozen.value.cents else 0;
      if cents > 0 {
        var ok := CreateLedgerEntry(Key(row.order, success), Entry(row.rider, cents, id, actor), accepts);
        if !ok {
          deliveries := before;
          return Some(LedgerRefused);
        }
      }
      orders := orders[row.order := order];
      return None;
    }

    method CompleteDelivery(id: DeliveryId, actor: Actor, otp: string, config: DeliveryBonus.Config, now: int,
                            accepts: bool)
      returns (r: Option<Refusal>)
      modifies this
      ensures State() == Do(old(State()), Step.CompleteDelivery(id, actor, otp, config, now, accepts))
      ensures r.None? <==> Complete(old(State()), id, actor, otp, config, now, accepts).Success?
    {
      r := CheckLock(Db(orders, deliveries, ledger), id, actor);
      if r.Some? {
        return;
      }
      var d := deliveries[id];
      if d.status != INICIADA && d.status != EN_ROUTE && d.status != EN_DESTINO {
        return Some(WrongState);
      }
      if WrongCode(d, otp) {
        return Some(WrongOtp);
      }
      if Key(d.order, false) in ledger {
        return Some(OppositeOutcome);
      }
      r := CloseDelivery(id, CompletedRow(d, otp, config, now), orders[d.order].(status := ENTREGADO, deliveredAt := Some(now)),
                         true, actor.id, accepts);
    }

    method FailDelivery(id: DeliveryId, actor: Actor, cause: Option<Cause>, config: DeliveryBonus.Config, now: int,
                        accepts: bool)
      returns (r: Option<Refusal>)
      modifies this
      ensures State() == Do(old(State()), Step.FailDelivery(id, actor, cause, config, now, accepts))
      ensures r.None? <==> Fail(old(State()), id, actor, cause, config, now, accepts).Success?
    {
      r := CheckLock(Db(orders, deliveries, ledger), id, actor);
      if r.Some? {
        return;
      }
      var d := deliveries[id];
      if d.status != DeliveryStatus.PENDIENTE && d.status != INICIADA && d.status != EN_ROUTE && d.status != EN_DESTINO {
        return Some(WrongState);
      }
      if Key(d.order, true) in ledger {
        return Some(OppositeOutcome);
      }
      if cause.None? {
        return Some(BadCause);
      }
      r := CloseDelivery(id, FailedRow(d, cause.value, config, now), orders[d.order].(status := FALLIDO, failureReason := cause),
                         false, actor.id, accepts);
    }

    /** Read, check, and write through the generic update. */
    method StartDelivery(id: DeliveryId, rider: RiderId, now: int) returns (r: Option<Refusal>)
      modifies this`deliveries
      ensures State() == Do(old(State()), Step.StartDelivery(id, rider, now))
      ensures r.None? <==> Start(old(State()), id, rider, now).Success?
    {
      if id !in deliveries {
        return Some(NotFound);
      }
      r := CheckStart(deliveries[id], rider);
      if r.Some? {
        return;
      }
      r := UpdateDelivery(id, deliveries[id].(status := EN_ROUTE, startedAt := Some(now)));
    }
  }
}
