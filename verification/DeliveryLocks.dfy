/**
 What a call on deliveries writes is locked by it: the order, the deliveries and the
 rider who gets a bonus (backend/app/services/delivery_ledger.py, lines 57-90, and
 order_cancellation.py, lines 119-150).
 */
module DeliveryLocks {
  import opened Wrappers
  import opened DeliveryClosing
  import opened DeliveryConcurrency
  import opened DeliveryWork

  // ----- whom a work pays -----

  lemma {:induction false} WithoutEntry(a: map<Key, Entry>, b: map<Key, Entry>, key: Key)
    requires SameEntry(a, b, Key(key.order, true)) && SameEntry(a, b, Key(key.order, false))
    ensures SameEntry(a - {key}, b - {key}, Key(key.order, true)) && SameEntry(a - {key}, b - {key}, Key(key.order, false))
  {
  }

  /** Whom a closing pays, from a state in which its own entry is not there. */
  lemma {:induction false} PayeeOfUnpaid(db: Db, work: Work)
    requires Closes(work) && work.step.id in db.deliveries
    ensures var unpaid := db.(ledger := db.ledger - {Key(db.deliveries[work.step.id].order, work.step.CompleteDelivery?)});
            var paying := Whole(work.step.(accepts := true));
            Payee(db, work) == Payee(unpaid, paying)
  {
    var key := Key(db.deliveries[work.step.id].order, work.step.CompleteDelivery?);
    assert db.ledger - {key} - {key} == db.ledger - {key};
  }

  lemma {:induction false} PaidClosingStays(a: Db, b: Db, work: Work, order: OrderId)
    requires Closes(work) && work.step.accepts && About(a, work, order) && Same(a, b, order)
    requires Key(order, work.step.CompleteDelivery?) !in a.ledger && Key(order, work.step.CompleteDelivery?) !in b.ledger
    ensures Payee(a, work) == Payee(b, work)
  {
    PerformReadsOnly(a, b, work, order);
    var key := Key(order, work.step.CompleteDelivery?);
    assert a.ledger - {key} == a.ledger && b.ledger - {key} == b.ledger;
    assert work.step.(accepts := true) == work.step;
    if Perform(a, work).Success? {
      ClosingIsLocked(a, work);
      ClosingIsLocked(b, work);
    }
  }

  /** Writes about other orders do not change whom a work pays. */
  lemma {:induction false} PayeeStays(a: Db, b: Db, work: Work, order: OrderId)
    requires About(a, work, order) && Same(a, b, order)
    ensures Payee(a, work) == Payee(b, work)
  {
    if Closes(work) {
      var key := Key(order, work.step.CompleteDelivery?);
      var x, y := a.(ledger := a.ledger - {key}), b.(ledger := b.ledger - {key});
      WithoutEntry(a.ledger, b.ledger, key);
      assert Same(x, y, order);
      PayeeOfUnpaid(a, work);
      PayeeOfUnpaid(b, work);
      PaidClosingStays(x, y, Whole(work.step.(accepts := true)), order);
    }
  }

  lemma {:induction false} RowsStay(a: Db, b: Db, work: Work, order: OrderId)
    requires About(a, work, order) && Same(a, b, order)
    ensures Rows(a, work) == Rows(b, work)
  {
    if !work.LateCreate? {
      PerformReadsOnly(a, b, work, order);
    }
  }

  // ----- the invariant -----

  /** A session past its locks holds the rows that its work asks for. */
  ghost predicate Covers(s: Sys, i: SessionId)
    requires i < |s.sessions|
  {
    var pc := s.sessions[i].pc;
    && (HoldsRows(pc) ==> forall d :: d in Rows(s.db, pc.work) ==> d in s.rowLock && s.rowLock[d] == i)
    && (pc.WantRider? ==> Payee(s.db, pc.work) == Some(pc.rider))
    && (HoldsRider(pc) ==> forall r :: Payee(s.db, pc.work) == Some(r) ==> r in s.riderLock && s.riderLock[r] == i)
  }

  ghost predicate AllCover(s: Sys) {
    forall i :: 0 <= i < |s.sessions| ==> Covers(s, i)
  }

  /** Another session keeps its locks, and the rows of its order. */
  ghost predicate Spares(s: Sys, s': Sys, j: SessionId)
    requires j < |s.sessions|
  {
    && j < |s'.sessions| && s'.sessions[j] == s.sessions[j]
    && (forall d :: d in s.rowLock && s.rowLock[d] == j ==> d in s'.rowLock && s'.rowLock[d] == j)
    && (forall r :: r in s.riderLock && s.riderLock[r] == j ==> r in s'.riderLock && s'.riderLock[r] == j)
    && (HoldsOrder(s.sessions[j].pc) ==> Same(s.db, s'.db, s.sessions[j].pc.order))
  }

  lemma {:induction false} SparedCovers(s: Sys, s': Sys, j: SessionId)
    requires Stable(s) && j < |s.sessions| && Covers(s, j) && Spares(s, s', j)
    ensures Covers(s', j)
  {
    var pc := s.sessions[j].pc;
    if HoldsRows(pc) {
      assert SessionOk(s, j);
      RowsStay(s.db, s'.db, pc.work, pc.order);
      PayeeStays(s.db, s'.db, pc.work, pc.order);
    }
  }

  /** A write about an order is none of the business of a session that holds another one. */
  lemma {:induction false} WriteSpares(s: Sys, after: Db, order: OrderId, j: SessionId)
    requires Stable(s) && j < |s.sessions| && WritesOnly(s.db, after, order)
    requires order in s.orderLock ==> s.orderLock[order] != j
    ensures HoldsOrder(s.sessions[j].pc) ==> Same(s.db, after, s.sessions[j].pc.order)
  {
    assert SessionOk(s, j);
  }

  lemma {:induction false} ReleaseSpares(s: Sys, i: SessionId, pc: Pc, j: SessionId)
    requires i < |s.sessions| && j < |s.sessions| && j != i
    ensures Spares(s, Release(s, i, pc), j)
  {
  }

  lemma {:induction false} PublishCovers(s: Sys, i: SessionId, work: Work, order: OrderId, after: Db)
    requires Stable(s) && AllCover(s) && i < |s.sessions| && WritesOnly(s.db, after, order)
    requires HoldsOrder(s.sessions[i].pc) && s.sessions[i].pc.order == order
    ensures AllCover(Publish(s, i, work, after))
  {
    var s' := Publish(s, i, work, after);
    assert SessionOk(s, i);
    forall j | 0 <= j < |s'.sessions| ensures Covers(s', j) {
      if j != i {
        ReleaseSpares(s, i, Committed(|s.history|), j);
        WriteSpares(s, after, order, j);
        assert Spares(s, s', j);
        SparedCovers(s, s', j);
      }
    }
  }

  lemma {:induction false} ReleaseCovers(s: Sys, i: SessionId, pc: Pc)
    requires Stable(s) && AllCover(s) && i < |s.sessions| && Finished(pc)
    ensures AllCover(Release(s, i, pc))
  {
    var s' := Release(s, i, pc);
    forall j | 0 <= j < |s'.sessions| ensures Covers(s', j) {
      if j != i {
        ReleaseSpares(s, i, pc, j);
        SparedCovers(s, s', j);
      }
    }
  }

  predicate Taking(pc: Pc) {
    pc.Ready? || pc.WantOrder? || pc.WantRows? || pc.WantRider?
  }

  lemma {:induction false} TakeSpares(s: Sys, i: SessionId, j: SessionId)
    requires i < |s.sessions| && j < |s.sessions| && j != i && Taking(s.sessions[i].pc) && Advance(s, i).Some?
    ensures Spares(s, Advance(s, i).value, j)
  {
    ReadIsAbout(s.db, s.sessions[i].call);
  }

  lemma {:induction false} TakeCovers(s: Sys, i: SessionId)
    requires i < |s.sessions| && Covers(s, i) && Taking(s.sessions[i].pc) && Advance(s, i).Some?
    ensures Covers(Advance(s, i).value, i)
  {
    ReadIsAbout(s.db, s.sessions[i].call);
  }

  lemma {:induction false} TakingCovers(s: Sys, i: SessionId)
    requires Stable(s) && AllCover(s) && i < |s.sessions| && Taking(s.sessions[i].pc) && Advance(s, i).Some?
    ensures AllCover(Advance(s, i).value)
  {
    var s' := Advance(s, i).value;
    assert |s'.sessions| == |s.sessions|;
    forall j | 0 <= j < |s'.sessions| ensures Covers(s', j) {
      if j == i {
        TakeCovers(s, i);
      } else {
        TakeSpares(s, i, j);
        SparedCovers(s, s', j);
      }
    }
  }

  lemma {:induction false} DecidingCovers(s: Sys, i: SessionId)
    requires Stable(s) && AllCover(s) && i < |s.sessions| && s.sessions[i].pc.Holding?
    ensures AllCover(Advance(s, i).value)
  {
    var pc := s.sessions[i].pc;
    assert SessionOk(s, i) && Covers(s, i);
    match Perform(s.db, pc.work) {
      case Failure(why) => ReleaseCovers(s, i, RolledBack(Some(why)));
      case Success(after) =>
        if pc.work.LateCreate? {
          PerformWritesOnly(s.db, pc.work, pc.order);
          PublishCovers(s, i, pc.work, pc.order, after);
        } else {
          var s' := Advance(s, i).value;
          forall j | 0 <= j < |s'.sessions| ensures Covers(s', j) {
            assert Covers(s, j);
          }
        }
    }
  }

  lemma {:induction false} NextCovers(s: Sys, move: Move)
    requires Stable(s) && AllCover(s) && Next(s, move).Some?
    ensures AllCover(Next(s, move).value)
  {
    var s' := Next(s, move).value;
    match move {
      case Arrive(_) =>
        forall j | 0 <= j < |s'.sessions| ensures Covers(s', j) {
          assert j < |s.sessions| ==> Covers(s, j);
        }
      case Outside(step) =>
        var order := Touched(s.db, step).value;
        OutsideWritesOnly(s.db, step, order);
        forall j | 0 <= j < |s'.sessions| ensures Covers(s', j) {
          WriteSpares(s, s'.db, order, j);
          SparedCovers(s, s', j);
        }
      case Proceed(i) =>
        match s.sessions[i].pc {
          case Holding(_, _) => DecidingCovers(s, i);
          case Staged(work, order, rows) =>
            CommitIsItsWork(s, i);
            PublishCovers(s, i, work, order, Overlay(s.db, rows));
          case _ => TakingCovers(s, i);
        }
      case Abort(i) => ReleaseCovers(s, i, RolledBack(None));
    }
  }

  lemma {:induction false} EveryScheduleCovers(start: Db, moves: seq<Move>)
    ensures Stable(Play(Begin(start), moves)) && AllCover(Play(Begin(start), moves))
  {
    EveryScheduleIsSerial(start, moves);
    if moves != [] {
      var n := |moves| - 1;
      EveryScheduleCovers(start, moves[..n]);
      if Next(Play(Begin(start), moves[..n]), moves[n]).Some? {
        NextCovers(Play(Begin(start), moves[..n]), moves[n]);
      }
    }
  }

  /** In every interleaving, a call that commits holds the lock of every row that its commit
      changes: of the order, of each delivery, and of the rider it pays. */
  lemma {:induction false} CommitWritesLockedRows(start: Db, moves: seq<Move>, i: SessionId)
    requires i < |Play(Begin(start), moves).sessions| && Play(Begin(start), moves).sessions[i].pc.Staged?
    ensures var s := Play(Begin(start), moves);
            && Advance(s, i).Some?
            && var after := Advance(s, i).value.db;
               && (forall o :: o in s.db.orders && (o !in after.orders || after.orders[o] != s.db.orders[o]) ==>
                     o in s.orderLock && s.orderLock[o] == i)
               && (forall d :: d in s.db.deliveries && (d !in after.deliveries || after.deliveries[d] != s.db.deliveries[d]) ==>
                     d in s.rowLock && s.rowLock[d] == i)
               && (forall key :: key in after.ledger && key !in s.db.ledger ==>
                     after.ledger[key].rider in s.riderLock && s.riderLock[after.ledger[key].rider] == i)
  {
    var s := Play(Begin(start), moves);
    EveryScheduleCovers(start, moves);
    assert SessionOk(s, i) && Covers(s, i);
    CommitIsItsWork(s, i);
    LockedIsChanged(s, i, Overlay(s.db, s.sessions[i].pc.rows));
  }

  lemma {:induction false} LockedIsChanged(s: Sys, i: SessionId, after: Db)
    requires i < |s.sessions| && s.sessions[i].pc.Staged? && SessionOk(s, i) && Covers(s, i)
    requires Perform(s.db, s.sessions[i].pc.work) == Success(after) && WritesOnly(s.db, after, s.sessions[i].pc.order)
    ensures forall o :: o in s.db.orders && (o !in after.orders || after.orders[o] != s.db.orders[o]) ==>
              o in s.orderLock && s.orderLock[o] == i
    ensures forall d :: d in s.db.deliveries && (d !in after.deliveries || after.deliveries[d] != s.db.deliveries[d]) ==>
              d in s.rowLock && s.rowLock[d] == i
    ensures forall key :: key in after.ledger && key !in s.db.ledger ==>
              after.ledger[key].rider in s.riderLock && s.riderLock[after.ledger[key].rider] == i
  {
    var pc := s.sessions[i].pc;
    WritesAreLocked(s.db, pc.work, pc.order);
    forall o | o in s.db.orders && (o !in after.orders || after.orders[o] != s.db.orders[o]) ensures o == pc.order {
      assert o != pc.order ==> Same(s.db, after, o);
    }
  }
}
