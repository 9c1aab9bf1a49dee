/**
 Interleaved calls that create, start, complete, fail and cancel deliveries
 (backend/app/services/delivery_service.py, lines 376-663, delivery_ledger.py, lines
 57-90, order_cancellation.py, lines 97-339, and backend/app/crud/delivery.py, lines
 50-87), split at every point where another session can run: the first read, which
 takes no lock, the Order row lock, the Delivery row locks, the Rider row lock where
 one is taken, the decision with its flushed but uncommitted rows, and the commit. A
 session may also fail and roll back at any of these points.
 */
module DeliveryConcurrency {
  import opened Wrappers
  import opened DeliveryClosing
  import opened DeliveryWork

  type SessionId = nat

  datatype Pc =
    | Ready
    | WantOrder(work: Work, order: OrderId)
    | WantRows(work: Work, order: OrderId)
    | WantRider(work: Work, order: OrderId, rider: RiderId)
    | Holding(work: Work, order: OrderId)
    | Staged(work: Work, order: OrderId, rows: Db)
    | Committed(at: nat)
    | RolledBack(why: Option<Refusal>)

  /** `seenAt` is how much of the history the first read saw. */
  datatype Session = Session(call: Step, pc: Pc, seenAt: nat)

  /** `history` lists the committed work in commit order. */
  datatype Sys = Sys(
    db: Db, sessions: seq<Session>,
    orderLock: map<OrderId, SessionId>, rowLock: map<DeliveryId, SessionId>, riderLock: map<RiderId, SessionId>,
    history: seq<Work>)

  /** `Outside` is a new order, or another writer that moves a row nobody has locked. */
  datatype Move =
    | Arrive(call: Step)
    | Outside(step: Step)
    | Proceed(session: SessionId)
    | Abort(session: SessionId)

  function Begin(db: Db): Sys {
    Sys(db, [], map[], map[], map[], [])
  }

  /** Where the first read leads. */
  function AfterRead(db: Db, call: Step): Pc {
    match call
    case CreateDelivery(order, id, otpRequired, otp) =>
      if order !in db.orders then RolledBack(Some(NotFound))
      else
        var refusal := CheckCreate(db.orders[order]);
        if refusal.Some? then RolledBack(refusal)
        else WantOrder(LateCreate(order, id, db.orders[order].rider.value, otpRequired, otp), order)
    case StartDelivery(id, rider, now) =>
      if id !in db.deliveries then RolledBack(Some(NotFound))
      else
        var refusal := CheckStart(db.deliveries[id], rider);
        if refusal.Some? then RolledBack(refusal) else WantOrder(LateStart(id, now), db.deliveries[id].order)
    case CompleteDelivery(id, _, _, _, _, _) => ReadOrderOf(db, id, call)
    case FailDelivery(id, _, _, _, _, _) => ReadOrderOf(db, id, call)
    case CancelOrder(order, _) => WantOrder(Whole(call), order)
    case _ => RolledBack(None)
  }

  function ReadOrderOf(db: Db, id: DeliveryId, call: Step): Pc {
    if id in db.deliveries then WantOrder(Whole(call), db.deliveries[id].order) else RolledBack(Some(NotFound))
  }

  // ----- the moves -----

  predicate Finished(pc: Pc) {
    pc.Committed? || pc.RolledBack?
  }

  predicate Engaged(pc: Pc) {
    pc.WantOrder? || HoldsOrder(pc)
  }

  predicate HoldsOrder(pc: Pc) {
    pc.WantRows? || HoldsRows(pc)
  }

  predicate HoldsRows(pc: Pc) {
    pc.WantRider? || pc.Holding? || pc.Staged?
  }

  function SetPc(s: Sys, i: SessionId, pc: Pc): Sys
    requires i < |s.sessions|
  {
    s.(sessions := s.sessions[i := s.sessions[i].(pc := pc)])
  }

  /** End of the session's transaction: all its row locks are released. */
  function Release(s: Sys, i: SessionId, pc: Pc): Sys
    requires i < |s.sessions|
  {
    SetPc(s, i, pc).(
      orderLock := map o | o in s.orderLock && s.orderLock[o] != i :: s.orderLock[o],
      rowLock := map d | d in s.rowLock && s.rowLock[d] != i :: s.rowLock[d],
      riderLock := map r | r in s.riderLock && s.riderLock[r] != i :: s.riderLock[r])
  }

  function ReadFirst(s: Sys, i: SessionId): Sys
    requires i < |s.sessions|
  {
    var call := s.sessions[i].call;
    s.(sessions := s.sessions[i := Session(call, AfterRead(s.db, call), |s.history|)])
  }

  /** None while another session holds the row. */
  function LockOrder(s: Sys, i: SessionId, work: Work, order: OrderId): Option<Sys>
    requires i < |s.sessions|
  {
    if order in s.orderLock then None
    else if order in s.db.orders && s.db.orders[order].status == CANCELADO && !Cancels(work) then
      Some(SetPc(s, i, RolledBack(Some(OrderCancelled))))
    else Some(SetPc(s, i, WantRows(work, order)).(orderLock := s.orderLock[order := i]))
  }

  function WithRows(db: Db, work: Work, order: OrderId): Pc {
    match Payee(db, work)
    case Some(rider) => WantRider(work, order, rider)
    case None => Holding(work, order)
  }

  function LockRows(s: Sys, i: SessionId, work: Work, order: OrderId): Option<Sys>
    requires i < |s.sessions|
  {
    var rows := Rows(s.db, work);
    if exists d :: d in rows && d in s.rowLock then None
    else Some(SetPc(s, i, WithRows(s.db, work, order)).(rowLock := s.rowLock + map d | d in rows :: i))
  }

  function LockRider(s: Sys, i: SessionId, work: Work, order: OrderId, rider: RiderId): Option<Sys>
    requires i < |s.sessions|
  {
    if rider in s.riderLock then None
    else Some(SetPc(s, i, Holding(work, order)).(riderLock := s.riderLock[rider := i]))
  }

  function Publish(s: Sys, i: SessionId, work: Work, db: Db): Sys
    requires i < |s.sessions|
  {
    Release(s, i, Committed(|s.history|)).(db := db, history := s.history + [work])
  }

  /** Check and write under the locks. The insert of a new row goes with its commit. */
  function Decide(s: Sys, i: SessionId, work: Work, order: OrderId): Sys
    requires i < |s.sessions|
  {
    match Perform(s.db, work)
    case Failure(why) => Release(s, i, RolledBack(Some(why)))
    case Success(after) =>
      if work.LateCreate? then Publish(s, i, work, after) else SetPc(s, i, Staged(work, order, Slice(after, order)))
  }

  function Advance(s: Sys, i: SessionId): Option<Sys>
    requires i < |s.sessions|
  {
    match s.sessions[i].pc
    case Ready => Some(ReadFirst(s, i))
    case WantOrder(work, order) => LockOrder(s, i, work, order)
    case WantRows(work, order) => LockRows(s, i, work, order)
    case WantRider(work, order, rider) => LockRider(s, i, work, order, rider)
    case Holding(work, order) => Some(Decide(s, i, work, order))
    case Staged(work, order, rows) => Some(Publish(s, i, work, Overlay(s.db, rows)))
    case Committed(_) => None
    case RolledBack(_) => None
  }

  /** None when the move is not possible in this state. */
  function Next(s: Sys, move: Move): Option<Sys> {
    match move
    case Arrive(call) => Some(s.(sessions := s.sessions + [Session(call, Ready, 0)]))
    case Outside(step) =>
      var order := Touched(s.db, step);
      if order.None? || order.value in s.orderLock then None
      else Some(s.(db := Do(s.db, step), history := s.history + [Whole(step)]))
    case Proceed(i) =>
      if i >= |s.sessions| then None else Advance(s, i)
    case Abort(i) =>
      if i >= |s.sessions| || Finished(s.sessions[i].pc) then None
      else Some(Release(s, i, RolledBack(None)))
  }

  /** The state after a schedule; impossible moves are skipped. */
  function Play(s: Sys, moves: seq<Move>): Sys {
    if moves == [] then s
    else
      var before := Play(s, moves[..|moves| - 1]);
      match Next(before, moves[|moves| - 1])
      case None => before
      case Some(after) => after
  }

  // ----- the invariant -----

  /** What a session has written and not committed is what its work does to the committed tables. */
  ghost predicate StagedOk(db: Db, work: Work, order: OrderId, rows: Db) {
    !work.LateCreate? && Perform(db, work).Success? && rows == Slice(Perform(db, work).value, order)
  }

  ghost predicate SessionOk(s: Sys, i: SessionId)
    requires i < |s.sessions|
  {
    var pc := s.sessions[i].pc;
    && (Engaged(pc) ==> About(s.db, pc.work, pc.order))
    && (HoldsOrder(pc) ==> pc.order in s.orderLock && s.orderLock[pc.order] == i)
    && (pc.Staged? ==> StagedOk(s.db, pc.work, pc.order, pc.rows))
  }

  predicate HoldsRider(pc: Pc) {
    pc.Holding? || pc.Staged?
  }

  ghost predicate LocksOk(s: Sys) {
    && (forall o :: o in s.orderLock ==>
          s.orderLock[o] < |s.sessions| && HoldsOrder(s.sessions[s.orderLock[o]].pc)
          && s.sessions[s.orderLock[o]].pc.order == o)
    && (forall d :: d in s.rowLock ==>
          s.rowLock[d] < |s.sessions| && HoldsRows(s.sessions[s.rowLock[d]].pc)
          && d in s.db.deliveries && s.db.deliveries[d].order == s.sessions[s.rowLock[d]].pc.order)
    && (forall r :: r in s.riderLock ==>
          s.riderLock[r] < |s.sessions| && HoldsRider(s.sessions[s.riderLock[r]].pc))
  }

  ghost predicate Stable(s: Sys) {
    LocksOk(s) && forall i :: 0 <= i < |s.sessions| ==> SessionOk(s, i)
  }

  lemma {:induction false} ReleaseKeepsStable(s: Sys, i: SessionId, pc: Pc)
    requires Stable(s) && i < |s.sessions| && Finished(pc)
    ensures Stable(Release(s, i, pc))
  {
    var s' := Release(s, i, pc);
    forall j | 0 <= j < |s'.sessions| ensures SessionOk(s', j) {
      assert SessionOk(s, j);
    }
  }

  /** A session that moves on with the locks that it has. */
  lemma {:induction false} SessionMoves(s: Sys, i: SessionId, after: Session)
    requires Stable(s) && i < |s.sessions|
    requires var (pc, pc') := (s.sessions[i].pc, after.pc);
             && (HoldsOrder(pc) <==> HoldsOrder(pc')) && (HoldsOrder(pc) ==> pc'.order == pc.order)
             && (HoldsRows(pc) ==> HoldsRows(pc')) && (HoldsRider(pc) ==> HoldsRider(pc'))
    requires Engaged(after.pc) ==> About(s.db, after.pc.work, after.pc.order)
    requires after.pc.Staged? ==> StagedOk(s.db, after.pc.work, after.pc.order, after.pc.rows)
    ensures Stable(s.(sessions := s.sessions[i := after]))
  {
    var s' := s.(sessions := s.sessions[i := after]);
    forall j | 0 <= j < |s'.sessions| ensures SessionOk(s', j) {
      assert SessionOk(s, j);
    }
  }

  lemma {:induction false} ReadIsAbout(db: Db, call: Step)
    ensures var pc := AfterRead(db, call); pc.WantOrder? || pc.RolledBack?
    ensures var pc := AfterRead(db, call); pc.WantOrder? ==> About(db, pc.work, pc.order)
  {
  }

  lemma {:induction false} TakeOrder(s: Sys, i: SessionId, work: Work, order: OrderId)
    requires Stable(s) && i < |s.sessions| && s.sessions[i].pc == WantOrder(work, order) && order !in s.orderLock
    ensures Stable(SetPc(s, i, WantRows(work, order)).(orderLock := s.orderLock[order := i]))
  {
    var s' := SetPc(s, i, WantRows(work, order)).(orderLock := s.orderLock[order := i]);
    assert SessionOk(s, i);
    forall j | 0 <= j < |s'.sessions| ensures SessionOk(s', j) {
      assert SessionOk(s, j);
    }
  }

  lemma {:induction false} LockOrderKeepsStable(s: Sys, i: SessionId, work: Work, order: OrderId)
    requires Stable(s) && i < |s.sessions| && s.sessions[i].pc == WantOrder(work, order)
    requires LockOrder(s, i, work, order).Some?
    ensures Stable(LockOrder(s, i, work, order).value)
  {
    var s' := LockOrder(s, i, work, order).value;
    if s'.sessions[i].pc.RolledBack? {
      SessionMoves(s, i, s'.sessions[i]);
    } else {
      TakeOrder(s, i, work, order);
    }
  }

  lemma {:induction false} TakeRows(s: Sys, i: SessionId, rows: set<DeliveryId>)
    requires Stable(s) && i < |s.sessions| && HoldsRows(s.sessions[i].pc)
    requires forall d :: d in rows ==> d in s.db.deliveries && s.db.deliveries[d].order == s.sessions[i].pc.order
    ensures Stable(s.(rowLock := s.rowLock + map d | d in rows :: i))
  {
    var s' := s.(rowLock := s.rowLock + map d | d in rows :: i);
    forall j | 0 <= j < |s'.sessions| ensures SessionOk(s', j) {
      assert SessionOk(s, j);
    }
  }

  lemma {:induction false} LockRowsKeepsStable(s: Sys, i: SessionId, work: Work, order: OrderId)
    requires Stable(s) && i < |s.sessions| && s.sessions[i].pc == WantRows(work, order)
    requires LockRows(s, i, work, order).Some?
    ensures Stable(LockRows(s, i, work, order).value)
  {
    assert SessionOk(s, i);
    RowsOfTheOrder(s.db, work, order);
    var pc := WithRows(s.db, work, order);
    SessionMoves(s, i, s.sessions[i].(pc := pc));
    TakeRows(SetPc(s, i, pc), i, Rows(s.db, work));
  }

  lemma {:induction false} LockRiderKeepsStable(s: Sys, i: SessionId, work: Work, order: OrderId, rider: RiderId)
    requires Stable(s) && i < |s.sessions| && s.sessions[i].pc == WantRider(work, order, rider)
    requires LockRider(s, i, work, order, rider).Some?
    ensures Stable(LockRider(s, i, work, order, rider).value)
  {
    assert SessionOk(s, i);
    SessionMoves(s, i, s.sessions[i].(pc := Holding(work, order)));
    TakeRider(SetPc(s, i, Holding(work, order)), i, rider);
  }

  lemma {:induction false} TakeRider(s: Sys, i: SessionId, rider: RiderId)
    requires Stable(s) && i < |s.sessions| && HoldsRider(s.sessions[i].pc)
    ensures Stable(s.(riderLock := s.riderLock[rider := i]))
  {
    var s' := s.(riderLock := s.riderLock[rider := i]);
    forall j | 0 <= j < |s'.sessions| ensures SessionOk(s', j) {
      assert SessionOk(s, j);
    }
  }

  // ----- a write about one order leaves the sessions of the others alone -----

  /** A decision that is staged survives every write about another order. */
  lemma {:induction false} StagedSurvives(db: Db, after: Db, work: Work, order: OrderId, rows: Db, written: OrderId)
    requires About(db, work, order) && StagedOk(db, work, order, rows)
    requires WritesOnly(db, after, written) && order != written
    ensures StagedOk(after, work, order, rows)
  {
    PerformReadsOnly(db, after, work, order);
    SameSlice(Perform(db, work).value, Perform(after, work).value, order);
  }

  lemma {:induction false} WriteKeepsSession(s: Sys, after: Db, order: OrderId, j: SessionId)
    requires Stable(s) && order !in s.orderLock && WritesOnly(s.db, after, order) && j < |s.sessions|
    ensures SessionOk(s.(db := after), j)
  {
    assert SessionOk(s, j);
    var pc := s.sessions[j].pc;
    if Engaged(pc) {
      AboutStays(s.db, after, pc.work, pc.order, order);
      if pc.Staged? {
        StagedSurvives(s.db, after, pc.work, pc.order, pc.rows, order);
      }
    }
  }

  lemma {:induction false} WriteKeepsStable(s: Sys, after: Db, order: OrderId, history: seq<Work>)
    requires Stable(s) && order !in s.orderLock && WritesOnly(s.db, after, order)
    ensures Stable(s.(db := after, history := history))
  {
    var s' := s.(db := after, history := history);
    forall j | 0 <= j < |s'.sessions| ensures SessionOk(s', j) {
      WriteKeepsSession(s, after, order, j);
      assert SessionOk(s.(db := after), j);
    }
  }

  lemma {:induction false} PublishKeepsStable(s: Sys, i: SessionId, after: Db)
    requires Stable(s) && i < |s.sessions| && HoldsOrder(s.sessions[i].pc)
    requires WritesOnly(s.db, after, s.sessions[i].pc.order)
    ensures Stable(Publish(s, i, s.sessions[i].pc.work, after))
  {
    var pc := s.sessions[i].pc;
    assert SessionOk(s, i);
    var released := Release(s, i, Committed(|s.history|));
    ReleaseKeepsStable(s, i, Committed(|s.history|));
    WriteKeepsStable(released, after, pc.order, s.history + [pc.work]);
  }

  /** What a commit publishes is exactly its work on the committed tables. */
  lemma {:induction false} CommitIsItsWork(s: Sys, i: SessionId)
    requires Stable(s) && i < |s.sessions| && s.sessions[i].pc.Staged?
    ensures var pc := s.sessions[i].pc;
            && Perform(s.db, pc.work) == Success(Overlay(s.db, pc.rows))
            && WritesOnly(s.db, Overlay(s.db, pc.rows), pc.order)
  {
    assert SessionOk(s, i);
    var pc := s.sessions[i].pc;
    PerformWritesOnly(s.db, pc.work, pc.order);
    SliceIsTheEffect(s.db, Perform(s.db, pc.work).value, pc.order);
  }

  lemma {:induction false} DecideKeepsStable(s: Sys, i: SessionId)
    requires Stable(s) && i < |s.sessions| && s.sessions[i].pc.Holding?
    ensures Stable(Advance(s, i).value)
  {
    var pc := s.sessions[i].pc;
    assert SessionOk(s, i);
    match Perform(s.db, pc.work) {
      case Failure(why) => ReleaseKeepsStable(s, i, RolledBack(Some(why)));
      case Success(after) =>
        if pc.work.LateCreate? {
          PerformWritesOnly(s.db, pc.work, pc.order);
          PublishKeepsStable(s, i, after);
        } else {
          SessionMoves(s, i, s.sessions[i].(pc := Staged(pc.work, pc.order, Slice(after, pc.order))));
        }
    }
  }

  lemma {:induction false} AdvanceKeepsStable(s: Sys, i: SessionId)
    requires Stable(s) && i < |s.sessions| && Advance(s, i).Some?
    ensures Stable(Advance(s, i).value)
  {
    match s.sessions[i].pc {
      case Ready =>
        ReadIsAbout(s.db, s.sessions[i].call);
        SessionMoves(s, i, ReadFirst(s, i).sessions[i]);
      case WantOrder(work, order) => LockOrderKeepsStable(s, i, work, order);
      case WantRows(work, order) => LockRowsKeepsStable(s, i, work, order);
      case WantRider(work, order, rider) => LockRiderKeepsStable(s, i, work, order, rider);
      case Holding(_, _) => DecideKeepsStable(s, i);
      case Staged(_, _, rows) =>
        CommitIsItsWork(s, i);
        PublishKeepsStable(s, i, Overlay(s.db, rows));
      case _ =>
    }
  }

  lemma {:induction false} ArrivalKeepsStable(s: Sys, call: Step)
    requires Stable(s)
    ensures Stable(s.(sessions := s.sessions + [Session(call, Ready, 0)]))
  {
    var s' := s.(sessions := s.sessions + [Session(call, Ready, 0)]);
    forall j | 0 <= j < |s'.sessions| ensures SessionOk(s', j) {
      assert j < |s.sessions| ==> SessionOk(s, j);
    }
  }

  lemma {:induction false} NextKeepsStable(s: Sys, move: Move)
    requires Stable(s) && Next(s, move).Some?
    ensures Stable(Next(s, move).value)
  {
    match move {
      case Arrive(call) => ArrivalKeepsStable(s, call);
      case Outside(step) =>
        var order := Touched(s.db, step).value;
        OutsideWritesOnly(s.db, step, order);
        WriteKeepsStable(s, Do(s.db, step), order, s.history + [Whole(step)]);
      case Proceed(i) => AdvanceKeepsStable(s, i);
      case Abort(i) => ReleaseKeepsStable(s, i, RolledBack(None));
    }
  }

  // ----- interleaved sessions behave like one piece of work after another -----

  /** The call read one state of the history, and its work is what that read led to;
      committed, it succeeded on a later state of the same history. */
  ghost predicate Traced(start: Db, history: seq<Work>, x: Session) {
    && (Engaged(x.pc) ==>
          && x.seenAt <= |history|
          && AfterRead(Replay(start, history[..x.seenAt]), x.call) == WantOrder(x.pc.work, x.pc.order))
    && (x.pc.Committed? ==>
          && x.seenAt <= x.pc.at < |history| && Perform(Replay(start, history[..x.pc.at]), history[x.pc.at]).Success?
          && var pc := AfterRead(Replay(start, history[..x.seenAt]), x.call);
             pc.WantOrder? && pc.work == history[x.pc.at])
  }

  ghost predicate Serial(start: Db, s: Sys) {
    && s.db == Replay(start, s.history)
    && forall i :: 0 <= i < |s.sessions| ==> Traced(start, s.history, s.sessions[i])
  }

  lemma {:induction false} TraceGrows(start: Db, history: seq<Work>, work: Work, x: Session)
    requires Traced(start, history, x)
    ensures Traced(start, history + [work], x)
  {
    var longer := history + [work];
    if Engaged(x.pc) || x.pc.Committed? {
      assert longer[..x.seenAt] == history[..x.seenAt];
    }
    if x.pc.Committed? {
      assert longer[..x.pc.at] == history[..x.pc.at];
    }
  }

  /** A session publishes its work, which is then the last of the history. */
  lemma {:induction false} PublishKeepsSerial(start: Db, s: Sys, i: SessionId, after: Db)
    requires Serial(start, s) && i < |s.sessions| && Engaged(s.sessions[i].pc)
    requires Perform(s.db, s.sessions[i].pc.work) == Success(after)
    ensures Serial(start, Publish(s, i, s.sessions[i].pc.work, after))
  {
    var x := s.sessions[i];
    var s' := Publish(s, i, x.pc.work, after);
    ReplayExtends(start, s.history, x.pc.work);
    forall j | 0 <= j < |s'.sessions| ensures Traced(start, s'.history, s'.sessions[j]) {
      TraceGrows(start, s.history, x.pc.work, s.sessions[j]);
      if j == i {
        assert s'.history[..|s.history|] == s.history;
      }
    }
  }

  /** Every other move of a session leaves tables and history alone, and its work as it is. */
  ghost predicate Private(s: Sys, s': Sys, i: SessionId)
    requires i < |s.sessions|
  {
    && s'.db == s.db && s'.history == s.history && |s'.sessions| == |s.sessions|
    && (forall j :: 0 <= j < |s.sessions| && j != i ==> s'.sessions[j] == s.sessions[j])
    && var (x, x') := (s.sessions[i], s'.sessions[i]);
       && x'.call == x.call && x'.seenAt == x.seenAt && !x'.pc.Committed?
       && (Engaged(x'.pc) ==> Engaged(x.pc) && x'.pc.work == x.pc.work && x'.pc.order == x.pc.order)
  }

  lemma {:induction false} DecideIsPrivate(s: Sys, i: SessionId)
    requires i < |s.sessions| && s.sessions[i].pc.Holding?
    requires !(s.sessions[i].pc.work.LateCreate? && Perform(s.db, s.sessions[i].pc.work).Success?)
    ensures Private(s, Decide(s, i, s.sessions[i].pc.work, s.sessions[i].pc.order), i)
  {
  }

  lemma {:induction false} LockIsPrivate(s: Sys, i: SessionId)
    requires i < |s.sessions| && Advance(s, i).Some?
    requires s.sessions[i].pc.WantOrder? || s.sessions[i].pc.WantRows? || s.sessions[i].pc.WantRider?
    ensures Private(s, Advance(s, i).value, i)
  {
    match s.sessions[i].pc {
      case WantRows(work, order) =>
        var pc := WithRows(s.db, work, order);
        assert pc == Holding(work, order) || (pc.WantRider? && pc.work == work && pc.order == order);
      case _ =>
    }
  }

  lemma {:induction false} PrivateKeepsSerial(start: Db, s: Sys, s': Sys, i: SessionId)
    requires Serial(start, s) && i < |s.sessions| && Private(s, s', i)
    ensures Serial(start, s')
  {
    assert Traced(start, s.history, s.sessions[i]);
  }

  lemma {:induction false} ReadKeepsSerial(start: Db, s: Sys, i: SessionId)
    requires Serial(start, s) && i < |s.sessions| && s.sessions[i].pc.Ready?
    ensures Serial(start, ReadFirst(s, i))
  {
    var s' := ReadFirst(s, i);
    ReadIsAbout(s.db, s.sessions[i].call);
    assert s.history[..|s.history|] == s.history;
    forall j | 0 <= j < |s'.sessions| ensures Traced(start, s'.history, s'.sessions[j]) {
      assert Traced(start, s.history, s.sessions[j]);
    }
  }

  lemma {:induction false} AdvanceKeepsSerial(start: Db, s: Sys, i: SessionId)
    requires Stable(s) && Serial(start, s) && i < |s.sessions| && Advance(s, i).Some?
    ensures Serial(start, Advance(s, i).value)
  {
    var x := s.sessions[i];
    assert Traced(start, s.history, x);
    if x.pc.Staged? {
      CommitIsItsWork(s, i);
      PublishKeepsSerial(start, s, i, Overlay(s.db, x.pc.rows));
    } else if x.pc.Holding? && x.pc.work.LateCreate? && Perform(s.db, x.pc.work).Success? {
      PublishKeepsSerial(start, s, i, Perform(s.db, x.pc.work).value);
    } else if x.pc.Ready? {
      ReadKeepsSerial(start, s, i);
    } else {
      if x.pc.Holding? {
        DecideIsPrivate(s, i);
      } else {
        LockIsPrivate(s, i);
      }
      PrivateKeepsSerial(start, s, Advance(s, i).value, i);
    }
  }

  lemma {:induction false} OutsideKeepsSerial(start: Db, s: Sys, step: Step)
    requires Serial(start, s)
    ensures Serial(start, s.(db := Do(s.db, step), history := s.history + [Whole(step)]))
  {
    ReplayExtends(start, s.history, Whole(step));
    forall j | 0 <= j < |s.sessions| ensures Traced(start, s.history + [Whole(step)], s.sessions[j]) {
      TraceGrows(start, s.history, Whole(step), s.sessions[j]);
    }
  }

  lemma {:induction false} NextKeepsSerial(start: Db, s: Sys, move: Move)
    requires Stable(s) && Serial(start, s) && Next(s, move).Some?
    ensures Serial(start, Next(s, move).value)
  {
    match move {
      case Arrive(call) => assert Traced(start, s.history, Session(call, Ready, 0));
      case Outside(step) => OutsideKeepsSerial(start, s, step);
      case Proceed(i) => AdvanceKeepsSerial(start, s, i);
      case Abort(i) => PrivateKeepsSerial(start, s, Release(s, i, RolledBack(None)), i);
    }
  }

  /** For every schedule of every set of calls and other writers, from any tables: the
      committed tables are those of the history, done one piece of work at a time.
      Completions, failures and cancellations are whole calls in it; a creation or a
      start is the write that its first read led to. */
  lemma {:induction false} EveryScheduleIsSerial(start: Db, moves: seq<Move>)
    ensures Stable(Play(Begin(start), moves)) && Serial(start, Play(Begin(start), moves))
  {
    if moves != [] {
      var before := Play(Begin(start), moves[..|moves| - 1]);
      EveryScheduleIsSerial(start, moves[..|moves| - 1]);
      if Next(before, moves[|moves| - 1]).Some? {
        NextKeepsStable(before, moves[|moves| - 1]);
        NextKeepsSerial(start, before, moves[|moves| - 1]);
      }
    }
  }
}
