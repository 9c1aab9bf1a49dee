/**
 What the interleavings of DeliveryConcurrency can do to deliveries, orders and
 bonuses, which committed calls are whole calls, and that no call waits for ever.
 */
module DeliveryInterleavings {
  import opened Wrappers
  import opened DeliveryClosing
  import opened DeliveryConcurrency
  import opened DeliveryWork

  // ----- when every interleaving is consistent -----

  /** A start writes to a delivery that was closed after it was read. */
  predicate Reopens(db: Db, work: Work) {
    work.LateStart? && Perform(db, work).Success? && Closed(db.deliveries[work.id].status)
  }

  lemma {:induction false} WorkKeepsInvIff(db: Db, work: Work)
    requires Inv(db)
    ensures Inv(Done(db, work)) <==> !Reopens(db, work)
  {
    match work {
      case Whole(step) => StepKeepsInv(db, step);
      case LateCreate(order, id, rider, otpRequired, otp) =>
        if Perform(db, work).Success? {
          WriteCreateKeepsInv(db, order, id, rider, otpRequired, otp);
        }
      case LateStart(id, now) =>
        if id in db.deliveries {
          LateStartIsSafeIffOpen(db, id, now);
        }
    }
  }

  ghost predicate AlwaysConsistent(start: Db, history: seq<Work>) {
    forall k :: 0 <= k <= |history| ==> Inv(Replay(start, history[..k]))
  }

  ghost predicate NeverReopened(start: Db, history: seq<Work>) {
    forall k :: 0 <= k < |history| ==> !Reopens(Replay(start, history[..k]), history[k])
  }

  lemma {:induction false} ConsistentExtends(start: Db, init: seq<Work>, work: Work)
    ensures AlwaysConsistent(start, init + [work]) <==>
            AlwaysConsistent(start, init) && Inv(Replay(start, init + [work]))
  {
    var n, all := |init|, init + [work];
    assert all[..n + 1] == all && |all| == n + 1 && forall k :: 0 <= k <= n ==> init[..k] == all[..k];
    assert AlwaysConsistent(start, all) ==> Inv(Replay(start, all[..n + 1]));
    if AlwaysConsistent(start, init) && Inv(Replay(start, all)) {
      forall k | 0 <= k <= |all| ensures Inv(Replay(start, all[..k])) {
        assert k <= n ==> Inv(Replay(start, init[..k]));
      }
    }
  }

  lemma {:induction false} NeverExtends(start: Db, init: seq<Work>, work: Work)
    ensures NeverReopened(start, init + [work]) <==> NeverReopened(start, init) && !Reopens(Replay(start, init), work)
  {
    var n, all := |init|, init + [work];
    assert all[..n] == init && all[n] == work;
    forall k | 0 <= k < n ensures init[..k] == all[..k] && init[k] == all[k] {
    }
  }

  lemma {:induction false} HistoryConsistentIff(start: Db, history: seq<Work>)
    requires Inv(start)
    ensures AlwaysConsistent(start, history) <==> NeverReopened(start, history)
    ensures AlwaysConsistent(start, history) ==> Inv(Replay(start, history))
  {
    if history == [] {
      assert history[..0] == [];
    } else {
      var init, work := history[..|history| - 1], history[|history| - 1];
      assert history == init + [work];
      HistoryConsistentIff(start, init);
      ConsistentExtends(start, init, work);
      NeverExtends(start, init, work);
      ReplayExtends(start, init, work);
      if Inv(Replay(start, init)) {
        WorkKeepsInvIff(Replay(start, init), work);
      }
    }
  }

  /** In every interleaving: deliveries, orders and bonuses agree after every commit
      exactly when no start wrote to a delivery closed after it was read. Nothing else
      that is read without a lock can do harm. */
  lemma {:induction false} ConsistentIffNeverReopened(start: Db, moves: seq<Move>)
    requires Inv(start)
    ensures var s := Play(Begin(start), moves);
            && (AlwaysConsistent(start, s.history) <==> NeverReopened(start, s.history))
            && (NeverReopened(start, s.history) ==> Inv(s.db))
  {
    var s := Play(Begin(start), moves);
    EveryScheduleIsSerial(start, moves);
    HistoryConsistentIff(start, s.history);
  }

  // ----- a creation is a whole call unless its order was moved -----

  predicate MovesTheOrder(work: Work, order: OrderId) {
    work.Whole? && work.step.MoveOrder? && work.step.order == order
  }

  /** New bonuses and newly closed orders have a delivery, and no delivery is lost. */
  lemma {:induction false} AccountedGrows(db: Db, after: Db)
    requires Accounted(db)
    requires KeepsDeliveries(db, after)
    requires forall key: Key :: key in after.ledger ==> key in db.ledger || HasDelivery(after.deliveries, key.order)
    requires forall o :: o in after.orders && after.orders[o].status in {ENTREGADO, FALLIDO} ==>
               (o in db.orders && after.orders[o].status == db.orders[o].status) || HasDelivery(after.deliveries, o)
    ensures Accounted(after)
  {
    HasDeliveryGrows(db.deliveries, after.deliveries);
  }

  lemma {:induction false} CloseKeepsAccounted(db: Db, id: DeliveryId, row: Delivery, order: Order, success: bool,
                                               actor: UserId, accepts: bool)
    requires Accounted(db) && id in db.deliveries && row.order == db.deliveries[id].order
    requires Close(db, id, row, order, success, actor, accepts).Success?
    ensures Accounted(Close(db, id, row, order, success, actor, accepts).value)
  {
    var after := Close(db, id, row, order, success, actor, accepts).value;
    assert HasDelivery(after.deliveries, row.order) by {
      assert after.deliveries[id].order == row.order;
    }
    AccountedGrows(db, after);
  }

  lemma {:induction false} ClosingKeepsAccounted(db: Db, step: Step)
    requires Accounted(db) && Closes(Whole(step)) && Call(db, step).Success?
    ensures Accounted(Call(db, step).value)
  {
    var row, closed := ClosingIsClose(db, step);
    CloseKeepsAccounted(db, step.id, row, closed, step.CompleteDelivery?, step.actor.id, step.accepts);
  }

  /** No other work writes a bonus, completes or fails an order, or loses a delivery. */
  lemma {:induction false} OtherWorkWrites(db: Db, work: Work)
    requires !Closes(work) && Perform(db, work).Success?
    ensures var after := Perform(db, work).value;
            && after.ledger == db.ledger && KeepsDeliveries(db, after)
            && (forall o :: o in after.orders && after.orders[o].status in {ENTREGADO, FALLIDO} ==>
                  o in db.orders && after.orders[o].status == db.orders[o].status)
  {
    if work.Whole? {
      match work.step {
        case CancelOrder(order, clear) => assert Perform(db, work) == Cancel(db, order, clear);
        case CreateDelivery(order, id, otpRequired, otp) =>
          assert Perform(db, work) == Create(db, order, id, otpRequired, otp);
        case StartDelivery(id, rider, now) => assert Perform(db, work) == Start(db, id, rider, now);
        case _ =>
      }
    }
  }

  lemma {:induction false} WorkKeepsAccounted(db: Db, work: Work)
    requires Accounted(db)
    ensures Accounted(Done(db, work))
  {
    if Perform(db, work).Success? {
      if Closes(work) {
        ClosingKeepsAccounted(db, work.step);
      } else {
        OtherWorkWrites(db, work);
        AccountedGrows(db, Perform(db, work).value);
      }
    }
  }

  lemma {:induction false} WorkKeepsOrderOrCloses(db: Db, work: Work, order: OrderId)
    requires order in db.orders && !MovesTheOrder(work, order)
    ensures var after := Done(db, work);
            && order in after.orders
            && (after.orders[order] == db.orders[order] || OrderClosed(after.orders[order].status))
  {
  }

  lemma {:induction false} HistoryAccounted(start: Db, history: seq<Work>)
    requires Accounted(start)
    ensures Accounted(Replay(start, history))
  {
    if history != [] {
      HistoryAccounted(start, history[..|history| - 1]);
      WorkKeepsAccounted(Replay(start, history[..|history| - 1]), history[|history| - 1]);
    }
  }

  ghost predicate NobodyMoves(works: seq<Work>, order: OrderId) {
    forall k :: 0 <= k < |works| ==> !MovesTheOrder(works[k], order)
  }

  lemma {:induction false} OrderStaysOrCloses(seen: Db, works: seq<Work>, order: OrderId)
    requires order in seen.orders && NobodyMoves(works, order)
    ensures var after := Replay(seen, works);
            && order in after.orders
            && (after.orders[order] == seen.orders[order] || OrderClosed(after.orders[order].status))
  {
    if works != [] {
      var n := |works| - 1;
      OrderStaysOrCloses(seen, works[..n], order);
      WorkKeepsOrderOrCloses(Replay(seen, works[..n]), works[n], order);
    }
  }

  lemma {:induction false} ReplayJoins(start: Db, earlier: seq<Work>, works: seq<Work>)
    ensures Replay(Replay(start, earlier), works) == Replay(start, earlier + works)
  {
    if works == [] {
      assert earlier + works == earlier;
    } else {
      var n := |works| - 1;
      ReplayJoins(start, earlier, works[..n]);
      assert earlier + works == (earlier + works[..n]) + [works[n]];
      ReplayExtends(start, earlier + works[..n], works[n]);
    }
  }

  /** The insert of a creation whose order nobody moved since the read is the whole
      call: the calls themselves only close orders, and a closed order takes no delivery. */
  lemma {:induction false} CreateIsWhole(seen: Db, works: seq<Work>, call: Step)
    requires Accounted(seen) && call.CreateDelivery? && AfterRead(seen, call).WantOrder?
    requires NobodyMoves(works, call.order)
    ensures var db, work := Replay(seen, works), AfterRead(seen, call).work;
            Perform(db, work).Success? ==> Call(db, call) == Perform(db, work)
  {
    OrderStaysOrCloses(seen, works, call.order);
    HistoryAccounted(seen, works);
    var db := Replay(seen, works);
    if Perform(db, AfterRead(seen, call).work).Success? {
      assert !HasDelivery(db.deliveries, call.order);
    }
  }

  /** No other writer moved the order of the call between its read and its commit. */
  ghost predicate Unmoved(history: seq<Work>, x: Session, order: OrderId) {
    x.pc.Committed? && x.seenAt <= x.pc.at <= |history| && NobodyMoves(history[x.seenAt..x.pc.at], order)
  }

  lemma {:induction false} CommittedCreate(start: Db, history: seq<Work>, x: Session)
    requires Accounted(start) && Traced(start, history, x)
    requires x.call.CreateDelivery? && Unmoved(history, x, x.call.order) && x.pc.at < |history|
    ensures var before := Replay(start, history[..x.pc.at]);
            Call(before, x.call) == Perform(before, history[x.pc.at])
  {
    var earlier, works := history[..x.seenAt], history[x.seenAt..x.pc.at];
    assert earlier + works == history[..x.pc.at];
    ReplayJoins(start, earlier, works);
    HistoryAccounted(start, earlier);
    CreateIsWhole(Replay(start, earlier), works, x.call);
  }

  /** What a committed call did is the whole call, checks included, at its commit: always
      for a completion, a failure or a cancellation; for a creation if no other writer
      moved its order after the read, as the calls themselves only close orders and a
      closed order takes no delivery; and for a start exactly if its checks still pass. */
  lemma {:induction false} CommittedIsWhole(start: Db, moves: seq<Move>, i: SessionId)
    requires Accounted(start)
    requires i < |Play(Begin(start), moves).sessions| && Play(Begin(start), moves).sessions[i].pc.Committed?
    ensures var s := Play(Begin(start), moves);
            var x := s.sessions[i];
            && x.pc.at < |s.history|
            && var before := Replay(start, s.history[..x.pc.at]);
               var done := Perform(before, s.history[x.pc.at]);
               && done.Success? && s.db == Replay(start, s.history)
               && (Closes(Whole(x.call)) || Cancels(Whole(x.call)) ==> Call(before, x.call) == done)
               && (x.call.CreateDelivery? && Unmoved(s.history, x, x.call.order) ==> Call(before, x.call) == done)
               && (x.call.StartDelivery? ==>
                     x.call.id in before.deliveries
                     && (Call(before, x.call) == done
                         <==> CheckStart(before.deliveries[x.call.id], x.call.rider) == None))
  {
    var s := Play(Begin(start), moves);
    EveryScheduleIsSerial(start, moves);
    var x := s.sessions[i];
    assert Traced(start, s.history, x);
    if x.call.CreateDelivery? && Unmoved(s.history, x, x.call.order) {
      CommittedCreate(start, s.history, x);
    }
  }

  /** Without that condition it is not: an order given to another rider between the
      read and the insert gets a delivery for the rider before, and then it cannot be
      cancelled. */
  lemma {:induction false} LateCreateKeepsTheOldRider(db: Db, call: Step, rider: RiderId)
    requires Inv(db) && call.CreateDelivery? && AfterRead(db, call).WantOrder? && Call(db, call).Success?
    requires db.orders[call.order].rider != Some(rider)
    ensures var moved := Do(db, MoveOrder(call.order, ASIGNADO, Some(rider)));
            var after := Done(moved, AfterRead(db, call).work);
            && Inv(after) && call.id in after.deliveries && call.id !in db.deliveries
            && call.order in after.orders && after.orders[call.order].rider == Some(rider)
            && Some(after.deliveries[call.id].rider) == db.orders[call.order].rider
            && forall clear :: Cancel(after, call.order, clear) == Failure(NeedsReview)
  {
    var move := MoveOrder(call.order, ASIGNADO, Some(rider));
    var moved, work := Do(db, move), AfterRead(db, call).work;
    StepKeepsInv(db, move);
    assert moved.deliveries == db.deliveries && moved.orders[call.order].status == ASIGNADO;
    WriteCreateKeepsInv(moved, call.order, call.id, work.rider, call.otpRequired, call.otp);
    var after := Done(moved, work);
    assert after.deliveries[call.id].order == call.order;
    assert !Cancellable(after, call.order);
  }

  // ----- no deadlock -----

  /** With the order locked first, nobody ever waits for a delivery row. */
  lemma {:induction false} RowsAreFree(s: Sys, i: SessionId)
    requires Stable(s) && i < |s.sessions| && s.sessions[i].pc.WantRows?
    ensures Next(s, Proceed(i)).Some?
  {
    assert SessionOk(s, i);
    var pc := s.sessions[i].pc;
    RowsOfTheOrder(s.db, pc.work, pc.order);
    forall d | d in s.rowLock ensures s.db.deliveries[d].order != pc.order {
      assert SessionOk(s, s.rowLock[d]);
    }
  }

  /** A session is blocked exactly by the holder of its order or of its rider. The
      holder of a rider can move, and the holder of an order can, or waits for a rider. */
  lemma {:induction false} BlockedIff(s: Sys, i: SessionId)
    requires Stable(s) && i < |s.sessions| && !Finished(s.sessions[i].pc)
    ensures var pc := s.sessions[i].pc;
            && (Next(s, Proceed(i)).None? <==>
                  (pc.WantOrder? && pc.order in s.orderLock) || (pc.WantRider? && pc.rider in s.riderLock))
            && (pc.WantOrder? && pc.order in s.orderLock ==>
                  var j := s.orderLock[pc.order]; j != i && (Next(s, Proceed(j)).Some? || s.sessions[j].pc.WantRider?))
            && (pc.WantRider? && pc.rider in s.riderLock ==>
                  var j := s.riderLock[pc.rider]; j != i && Next(s, Proceed(j)).Some?)
  {
    var pc := s.sessions[i].pc;
    if pc.WantRows? {
      RowsAreFree(s, i);
    } else if pc.WantOrder? && pc.order in s.orderLock && s.sessions[s.orderLock[pc.order]].pc.WantRows? {
      RowsAreFree(s, s.orderLock[pc.order]);
    }
  }

  /** In every reachable state with an unfinished call, some unfinished call can move. */
  lemma {:induction false} NoDeadlock(start: Db, moves: seq<Move>, i: SessionId)
    requires i < |Play(Begin(start), moves).sessions| && !Finished(Play(Begin(start), moves).sessions[i].pc)
    ensures var s := Play(Begin(start), moves);
            exists j :: 0 <= j < |s.sessions| && !Finished(s.sessions[j].pc) && Next(s, Proceed(j)).Some?
  {
    var s := Play(Begin(start), moves);
    EveryScheduleIsSerial(start, moves);
    SomeoneMoves(s, i);
  }

  lemma {:induction false} SomeoneMoves(s: Sys, i: SessionId)
    requires Stable(s) && i < |s.sessions| && !Finished(s.sessions[i].pc)
    ensures exists j :: 0 <= j < |s.sessions| && !Finished(s.sessions[j].pc) && Next(s, Proceed(j)).Some?
    decreases s.sessions[i].pc.WantOrder?
  {
    BlockedIff(s, i);
    var pc := s.sessions[i].pc;
    if Next(s, Proceed(i)).None? {
      if pc.WantOrder? {
        SomeoneMoves(s, s.orderLock[pc.order]);
      } else {
        assert Next(s, Proceed(s.riderLock[pc.rider])).Some?;
      }
    }
  }

  // ----- every call ends -----

  function StepsLeft(pc: Pc): nat {
    match pc
    case Ready => 6
    case WantOrder(_, _) => 5
    case WantRows(_, _) => 4
    case WantRider(_, _, _) => 3
    case Holding(_, _) => 2
    case Staged(_, _, _) => 1
    case _ => 0
  }

  function Remaining(sessions: seq<Session>): nat {
    if sessions == [] then 0 else Remaining(sessions[..|sessions| - 1]) + StepsLeft(sessions[|sessions| - 1].pc)
  }

  lemma {:induction false} RemainingDrops(sessions: seq<Session>, i: nat, x: Session)
    requires i < |sessions|
    ensures Remaining(sessions[i := x]) == Remaining(sessions) - StepsLeft(sessions[i].pc) + StepsLeft(x.pc)
  {
    var last := |sessions| - 1;
    if i == last {
      assert sessions[i := x][..last] == sessions[..last];
    } else {
      RemainingDrops(sessions[..last], i, x);
      assert sessions[i := x][..last] == sessions[..last][i := x];
    }
  }

  lemma {:induction false} DecideUsesAStep(s: Sys, i: SessionId, work: Work, order: OrderId)
    requires i < |s.sessions|
    ensures var s' := Decide(s, i, work, order);
            && |s'.sessions| == |s.sessions| && s'.sessions == s.sessions[i := s'.sessions[i]]
            && StepsLeft(s'.sessions[i].pc) <= 1
  {
  }

  lemma {:induction false} AdvanceUsesAStep(s: Sys, i: SessionId)
    requires i < |s.sessions| && Advance(s, i).Some?
    ensures var s' := Advance(s, i).value;
            && |s'.sessions| == |s.sessions| && s'.sessions == s.sessions[i := s'.sessions[i]]
            && StepsLeft(s'.sessions[i].pc) < StepsLeft(s.sessions[i].pc)
  {
    match s.sessions[i].pc {
      case Ready => ReadIsAbout(s.db, s.sessions[i].call);
      case WantRows(work, order) => assert StepsLeft(WithRows(s.db, work, order)) <= 3;
      case Holding(work, order) => DecideUsesAStep(s, i, work, order);
      case _ =>
    }
  }

  /** A move of a session uses up steps; a move of another writer takes none. */
  lemma {:induction false} MoveUsesSteps(s: Sys, move: Move)
    requires !move.Arrive? && Next(s, move).Some?
    ensures Remaining(Next(s, move).value.sessions) + (if move.Outside? then 0 else 1) <= Remaining(s.sessions)
  {
    if move.Proceed? {
      AdvanceUsesAStep(s, move.session);
    }
    if !move.Outside? {
      RemainingDrops(s.sessions, move.session, Next(s, move).value.sessions[move.session]);
    }
  }

  /** The moves of sessions that have an effect in a schedule. */
  function SessionMovesIn(s: Sys, moves: seq<Move>): nat {
    if moves == [] then 0
    else
      var n := |moves| - 1;
      SessionMovesIn(s, moves[..n])
      + if (moves[n].Proceed? || moves[n].Abort?) && Next(Play(s, moves[..n]), moves[n]).Some? then 1 else 0
  }

  /** Without new arrivals, and whatever other writers do in between, sessions make at
      most Remaining moves, so with NoDeadlock every call can be brought to its end. */
  lemma {:induction false} SchedulesAreBounded(s: Sys, moves: seq<Move>)
    requires forall k :: 0 <= k < |moves| ==> !moves[k].Arrive?
    ensures SessionMovesIn(s, moves) + Remaining(Play(s, moves).sessions) <= Remaining(s.sessions)
  {
    if moves != [] {
      var n := |moves| - 1;
      SchedulesAreBounded(s, moves[..n]);
      if Next(Play(s, moves[..n]), moves[n]).Some? {
        MoveUsesSteps(Play(s, moves[..n]), moves[n]);
      }
    }
  }

  // ----- alone, a call does what it is meant to do -----

  /** A session that runs to its end, or to a lock that it does not get. */
  function RunOut(s: Sys, i: SessionId): Sys
    requires i < |s.sessions|
    decreases StepsLeft(s.sessions[i].pc)
  {
    if Advance(s, i).None? then s
    else
      AdvanceUsesAStep(s, i);
      RunOut(Advance(s, i).value, i)
  }

  lemma {:induction false} Steps(s: Sys, s': Sys, i: SessionId)
    requires i < |s.sessions| && Advance(s, i) == Some(s')
    ensures i < |s'.sessions| && RunOut(s, i) == RunOut(s', i)
  {
    AdvanceUsesAStep(s, i);
  }

  /** How a session ends that does a piece of work on the tables it started from. */
  ghost predicate Ends(s: Sys, done: Sys, i: SessionId, outcome: Result<Db, Refusal>) {
    && i < |done.sessions|
    && match outcome
       case Success(db) => done.db == db && done.sessions[i].pc == Committed(|s.history|)
       case Failure(why) => done.db == s.db && done.sessions[i].pc == RolledBack(Some(why))
  }

  lemma {:induction false} StagedFinishes(s: Sys, i: SessionId, work: Work, order: OrderId, after: Db)
    requires i < |s.sessions| && s.sessions[i].pc == Staged(work, order, Slice(after, order))
    requires Overlay(s.db, Slice(after, order)) == after
    ensures Ends(s, RunOut(s, i), i, Success(after))
  {
    Steps(s, Publish(s, i, work, after), i);
  }

  /** From all its locks on: the decision, the write and the commit. */
  lemma {:induction false} HolderFinishes(s: Sys, i: SessionId)
    requires i < |s.sessions| && s.sessions[i].pc.Holding?
    requires About(s.db, s.sessions[i].pc.work, s.sessions[i].pc.order)
    ensures Ends(s, RunOut(s, i), i, Perform(s.db, s.sessions[i].pc.work))
  {
    var work, order := s.sessions[i].pc.work, s.sessions[i].pc.order;
    var s1 := Decide(s, i, work, order);
    Steps(s, s1, i);
    match Perform(s.db, work) {
      case Failure(_) =>
      case Success(after) =>
        if !work.LateCreate? {
          PerformWritesOnly(s.db, work, order);
          SliceIsTheEffect(s.db, after, order);
          StagedFinishes(s1, i, work, order, after);
        }
    }
  }

  /** From the order lock on. */
  lemma {:induction false} OwnerFinishes(s: Sys, i: SessionId)
    requires i < |s.sessions| && s.sessions[i].pc.WantRows? && s.rowLock == map[] && s.riderLock == map[]
    requires About(s.db, s.sessions[i].pc.work, s.sessions[i].pc.order)
    ensures Ends(s, RunOut(s, i), i, Perform(s.db, s.sessions[i].pc.work))
  {
    var work, order := s.sessions[i].pc.work, s.sessions[i].pc.order;
    var s1 := LockRows(s, i, work, order).value;
    Steps(s, s1, i);
    if s1.sessions[i].pc.WantRider? {
      var s2 := LockRider(s1, i, work, order, s1.sessions[i].pc.rider).value;
      Steps(s1, s2, i);
      HolderFinishes(s2, i);
    } else {
      HolderFinishes(s1, i);
    }
  }

  /** What the early check of the order refuses would be refused in any case. */
  lemma {:induction false} CancelledIsRefused(db: Db, work: Work, order: OrderId)
    requires About(db, work, order) && order in db.orders && db.orders[order].status == CANCELADO && !Cancels(work)
    ensures Perform(db, work) == Failure(OrderCancelled)
  {
  }

  lemma {:induction false} ReaderFinishes(s: Sys, i: SessionId)
    requires i < |s.sessions| && s.sessions[i].pc.WantOrder?
    requires s.orderLock == map[] && s.rowLock == map[] && s.riderLock == map[]
    requires About(s.db, s.sessions[i].pc.work, s.sessions[i].pc.order)
    ensures Ends(s, RunOut(s, i), i, Perform(s.db, s.sessions[i].pc.work))
  {
    var work, order := s.sessions[i].pc.work, s.sessions[i].pc.order;
    var s1 := LockOrder(s, i, work, order).value;
    Steps(s, s1, i);
    if s1.sessions[i].pc.WantRows? {
      OwnerFinishes(s1, i);
    } else {
      CancelledIsRefused(s.db, work, order);
    }
  }

  predicate IsService(call: Step) {
    call.CreateDelivery? || call.StartDelivery? || call.CompleteDelivery? || call.FailDelivery? || call.CancelOrder?
  }

  /** A call is what its first read leads to, done at once. */
  lemma {:induction false} ReadIsCall(db: Db, call: Step)
    requires IsService(call)
    ensures match AfterRead(db, call)
            case WantOrder(work, order) => Call(db, call) == Perform(db, work)
            case RolledBack(why) => why.Some? && Call(db, call) == Failure(why.value)
            case _ => false
  {
  }

  /** A call that meets nobody on its way answers and writes as the atomic call does,
      refusals included. */
  lemma {:induction false} AloneIsAtomic(s: Sys, i: SessionId)
    requires i < |s.sessions| && s.sessions[i].pc.Ready? && IsService(s.sessions[i].call)
    requires s.orderLock == map[] && s.rowLock == map[] && s.riderLock == map[]
    ensures Ends(s, RunOut(s, i), i, Call(s.db, s.sessions[i].call))
  {
    var s1, call := ReadFirst(s, i), s.sessions[i].call;
    Steps(s, s1, i);
    ReadIsCall(s.db, call);
    ReadIsAbout(s.db, call);
    if s1.sessions[i].pc.WantOrder? {
      ReaderFinishes(s1, i);
    }
  }
  // ----- what may happen at any moment -----

  ghost predicate HoldsNothing(s: Sys, i: SessionId) {
    && (forall o :: o in s.orderLock ==> s.orderLock[o] != i)
    && (forall d :: d in s.rowLock ==> s.rowLock[d] != i)
    && (forall r :: r in s.riderLock ==> s.riderLock[r] != i)
  }

  /** A new call can come in at any moment, and run alone it is the atomic call. */
  lemma {:induction false} ArrivalIsAtomic(s: Sys, call: Step)
    requires IsService(call) && s.orderLock == map[] && s.rowLock == map[] && s.riderLock == map[]
    ensures var next := Next(s, Arrive(call));
            && next.Some? && |next.value.sessions| == |s.sessions| + 1
            && next.value.sessions[..|s.sessions|] == s.sessions && next.value.db == s.db
            && Ends(s, RunOut(next.value, |s.sessions|), |s.sessions|, Call(s.db, call))
  {
    AloneIsAtomic(Next(s, Arrive(call)).value, |s.sessions|);
  }

  /** A call that is not over can break off at any moment, which frees its rows and leaves
      no trace in the tables. */
  lemma {:induction false} AbortLeavesNothing(s: Sys, i: SessionId)
    ensures var next := Next(s, Abort(i));
            && (next.Some? <==> i < |s.sessions| && !s.sessions[i].pc.Committed? && !s.sessions[i].pc.RolledBack?)
            && (next.Some? ==>
                  && next.value.db == s.db && next.value.history == s.history && HoldsNothing(next.value, i)
                  && next.value.sessions == s.sessions[i := s.sessions[i].(pc := RolledBack(None))])
  {
  }

  /** Another writer can do its step at any moment at which the order is not locked. */
  lemma {:induction false} OutsiderWaitsForTheOrder(s: Sys, order: OrderId, status: OrderStatus, courier: Option<RiderId>,
                                                    id: DeliveryId, target: DeliveryStatus)
    ensures Next(s, Outside(NewOrder(order))).Some? <==> order !in s.orderLock
    ensures Next(s, Outside(MoveOrder(order, status, courier))).Some? <==> order !in s.orderLock
    ensures Next(s, Outside(MoveDelivery(id, target))).Some? <==>
            id in s.db.deliveries && s.db.deliveries[id].order !in s.orderLock
    ensures forall step :: Next(s, Outside(step)).Some? ==> Next(s, Outside(step)).value.db == Do(s.db, step)
  {
  }

  /** A call stands still exactly while another has locked what it needs next. */
  lemma {:induction false} WaitsForItsRows(s: Sys, i: SessionId)
    requires i < |s.sessions|
    ensures Advance(s, i) == None <==>
            match s.sessions[i].pc
            case WantOrder(_, order) => order in s.orderLock
            case WantRows(work, _) => exists d :: d in Rows(s.db, work) && d in s.rowLock
            case WantRider(_, _, rider) => rider in s.riderLock
            case Committed(_) => true
            case RolledBack(_) => true
            case _ => false
  {
  }

  /** The lock of a cancelled order ends every call but a cancellation at once. */
  lemma {:induction false} CancelledEndsAtOnce(s: Sys, i: SessionId)
    requires i < |s.sessions| && s.sessions[i].pc.WantOrder? && s.sessions[i].pc.order in s.db.orders
    requires s.db.orders[s.sessions[i].pc.order].status == CANCELADO && s.sessions[i].pc.order !in s.orderLock
    requires !Cancels(s.sessions[i].pc.work)
    ensures var next := Advance(s, i);
            next == Some(s.(sessions := s.sessions[i := s.sessions[i].(pc := RolledBack(Some(OrderCancelled)))]))
  {
  }
}
