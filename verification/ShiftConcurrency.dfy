/**
 Interleaved calls of transition_shift (backend/app/core/shift_rules.py, lines
 89-112 and 170-284), split at every point where another session can run: the
 unlocked read of the rider, the Rider row lock, the Shift row lock, the checks,
 the flushed but uncommitted write, and the commit. A session may also fail and
 roll back at any of these points.
 */
module ShiftConcurrency {
  import opened Wrappers
  import opened ShiftRules

  type SessionId = nat

  datatype Pc =
    | Ready
    | WantRider(rider: RiderId)
    | WantShift(rider: RiderId)
    | Holding(rider: RiderId)
    | Decided(rider: RiderId, now: int, effect: Effect)
    | Staged(rider: RiderId, now: int, effect: Effect)
    | Committed(at: nat, now: int, event: Option<Event>)
    | RolledBack(why: Option<Rejection>)

  datatype Session = Session(req: Request, pc: Pc)

  /** `history` lists the committed operations in commit order. */
  datatype Sys = Sys(
    db: Db, sessions: seq<Session>,
    riderLock: map<RiderId, SessionId>, shiftLock: map<ShiftId, SessionId>,
    history: seq<Op>)

  datatype Move =
    | Arrive(req: Request)
    | NewShift(op: Op)
    | Proceed(session: SessionId, now: int)
    | Fail(session: SessionId)

  function Start(db: Db): Sys {
    Sys(db, [], map[], map[], [])
  }

  predicate Finished(pc: Pc) {
    pc.Committed? || pc.RolledBack?
  }

  predicate HoldsRider(pc: Pc) {
    pc.WantShift? || HoldsShift(pc)
  }

  predicate HoldsShift(pc: Pc) {
    pc.Holding? || pc.Decided? || pc.Staged?
  }

  function SetPc(s: Sys, i: SessionId, pc: Pc): Sys
    requires i < |s.sessions|
  {
    s.(sessions := s.sessions[i := s.sessions[i].(pc := pc)])
  }

  /** End of the session's transaction: both row locks are released. */
  function Release(s: Sys, i: SessionId, pc: Pc): Sys
    requires i < |s.sessions|
  {
    SetPc(s, i, pc).(
      riderLock := map r | r in s.riderLock && s.riderLock[r] != i :: s.riderLock[r],
      shiftLock := map h | h in s.shiftLock && s.shiftLock[h] != i :: s.shiftLock[h])
  }

  /** Where the unlocked read of the shift's rider leads. */
  function AfterRead(db: Db, req: Request): Pc {
    if Malformed(req) then RolledBack(Some(Unprocessable))
    else if req.shift !in db.shifts then RolledBack(Some(NotFound))
    else
      var rider := db.shifts[req.shift].rider;
      if req.expectedRider.Some? && req.expectedRider.value != rider then RolledBack(Some(Forbidden))
      else WantRider(rider)
  }

  function ReadRider(s: Sys, i: SessionId): Sys
    requires i < |s.sessions|
  {
    var pc := AfterRead(s.db, s.sessions[i].req);
    if Finished(pc) then Release(s, i, pc) else SetPc(s, i, pc)
  }

  /** None while another session holds the row. */
  function LockRider(s: Sys, i: SessionId, rider: RiderId): Option<Sys>
    requires i < |s.sessions|
  {
    if rider in s.riderLock then None
    else if rider !in s.db.riders then Some(Release(s, i, RolledBack(Some(NotFound))))
    else Some(SetPc(s, i, WantShift(rider)).(riderLock := s.riderLock[rider := i]))
  }

  function LockShift(s: Sys, i: SessionId, rider: RiderId): Option<Sys>
    requires i < |s.sessions|
  {
    var shift := s.sessions[i].req.shift;
    if shift in s.shiftLock then None
    else if shift !in s.db.shifts || s.db.shifts[shift].rider != rider then Some(Release(s, i, RolledBack(Some(NotFound))))
    else Some(SetPc(s, i, Holding(rider)).(shiftLock := s.shiftLock[shift := i]))
  }

  function Check(s: Sys, i: SessionId, rider: RiderId, now: int): Sys
    requires i < |s.sessions|
  {
    var req := s.sessions[i].req;
    if req.shift !in s.db.shifts then Release(s, i, RolledBack(Some(NotFound)))
    else
      match Decide(s.db, req, now)
      case Failure(why) => Release(s, i, RolledBack(Some(why)))
      case Success(effect) => SetPc(s, i, Decided(rider, now, effect))
  }

  function CommitSession(s: Sys, i: SessionId, now: int, effect: Effect): Sys
    requires i < |s.sessions|
  {
    var req := s.sessions[i].req;
    var (db, event) := Commit(s.db, req.shift, effect);
    Release(s, i, Committed(|s.history|, now, event)).(db := db, history := s.history + [OpTransition(req, now)])
  }

  function Advance(s: Sys, i: SessionId, now: int): Option<Sys>
    requires i < |s.sessions|
  {
    match s.sessions[i].pc
    case Ready => Some(ReadRider(s, i))
    case WantRider(rider) => LockRider(s, i, rider)
    case WantShift(rider) => LockShift(s, i, rider)
    case Holding(rider) => Some(Check(s, i, rider, now))
    case Decided(rider, at, effect) => Some(SetPc(s, i, Staged(rider, at, effect)))
    case Staged(rider, at, effect) => Some(CommitSession(s, i, at, effect))
    case Committed(_, _, _) => None
    case RolledBack(_) => None
  }

  /** None when the move is not possible in this state. */
  function Next(s: Sys, move: Move): Option<Sys> {
    match move
    case Arrive(req) => Some(s.(sessions := s.sessions + [Session(req, Ready)]))
    case NewShift(op) =>
      if !op.OpCreate? then None
      else Some(s.(db := Step(s.db, op), history := s.history + [op]))
    case Proceed(i, now) =>
      if i >= |s.sessions| then None else Advance(s, i, now)
    case Fail(i) =>
      if i >= |s.sessions| || Finished(s.sessions[i].pc) then None
      else Some(Release(s, i, RolledBack(None)))
  }

  /** The state after a schedule; impossible moves are skipped. */
  function Play(s: Sys, moves: seq<Move>): Sys {
    if moves == [] then s
    else
      var before := Play(s, moves[..|moves| - 1]);
      match Next(before, moves[|moves| - 1])
      case None => before
      case Some(after) => after
  }

  // ----- the invariant -----

  ghost predicate SessionOk(s: Sys, i: SessionId)
    requires i < |s.sessions|
  {
    var req := s.sessions[i].req;
    var pc := s.sessions[i].pc;
    && (pc.WantRider? || HoldsRider(pc) ==>
          Addressed(s.db, req) && s.db.shifts[req.shift].rider == pc.rider)
    && (HoldsRider(pc) ==> pc.rider in s.db.riders && pc.rider in s.riderLock && s.riderLock[pc.rider] == i)
    && (HoldsShift(pc) ==> req.shift in s.shiftLock && s.shiftLock[req.shift] == i)
    && (pc.Decided? || pc.Staged? ==> Decide(s.db, req, pc.now) == Success(pc.effect))
  }

  ghost predicate LocksOk(s: Sys) {
    && (forall r :: r in s.riderLock ==>
          s.riderLock[r] < |s.sessions| && HoldsRider(s.sessions[s.riderLock[r]].pc)
          && s.sessions[s.riderLock[r]].pc.rider == r)
    && (forall h :: h in s.shiftLock ==>
          s.shiftLock[h] < |s.sessions| && HoldsShift(s.sessions[s.shiftLock[h]].pc)
          && s.sessions[s.shiftLock[h]].req.shift == h)
  }

  ghost predicate Inv(s: Sys) {
    && Sound(s.db)
    && LocksOk(s)
    && forall i :: 0 <= i < |s.sessions| ==> SessionOk(s, i)
  }

  // ----- what a commit leaves alone -----

  lemma {:induction false} MatchingAppend(events: seq<Event>, e: Event, rider: RiderId, shift: ShiftId,
                                          kind: CheckType, at: int)
    requires e.mark.shift != shift
    ensures Matching(events + [e], rider, shift, kind, at) == Matching(events, rider, shift, kind, at)
  {
  }

  lemma {:induction false} OtherActiveStable(db: Db, other: ShiftId, effect: Effect, rider: RiderId, shift: ShiftId)
    requires other in db.shifts && db.shifts[other].rider != rider
    requires effect.Write? ==> effect.row.rider == db.shifts[other].rider
    ensures OtherActive(Commit(db, other, effect).0, rider, shift) == OtherActive(db, rider, shift)
  {
    var db' := Commit(db, other, effect).0;
    if OtherActive(db, rider, shift) {
      var s :| s in db.shifts && s != shift && db.shifts[s].rider == rider && db.shifts[s].status == EN_CURSO;
      assert s in db'.shifts && db'.shifts[s] == db.shifts[s];
    }
  }

  /** A decision about one rider survives a commit about another. */
  lemma {:induction false} DecisionStable(db: Db, req: Request, now: int, other: ShiftId, effect: Effect)
    requires req.shift in db.shifts && other in db.shifts
    requires db.shifts[other].rider != db.shifts[req.shift].rider
    requires effect.Write? ==> effect.row.rider == db.shifts[other].rider
    requires effect.Write? && effect.mark.Some? ==> effect.mark.value.shift == other
    ensures Decide(Commit(db, other, effect).0, req, now) == Decide(db, req, now)
  {
    var db' := Commit(db, other, effect).0;
    var row := db.shifts[req.shift];
    assert db'.shifts[req.shift] == row;
    OtherActiveStable(db, other, effect, row.rider, req.shift);
    if effect.Write? && effect.mark.Some? {
      var e := Event(|db.events|, effect.mark.value);
      if row.checkIn.Some? {
        MatchingAppend(db.events, e, row.rider, req.shift, IN, row.checkIn.value);
      }
      if row.checkOut.Some? {
        MatchingAppend(db.events, e, row.rider, req.shift, OUT, row.checkOut.value);
      }
    }
  }

  /** A new planned shift changes no decision about the existing ones. */
  lemma {:induction false} CreationStable(db: Db, req: Request, now: int, op: Op)
    requires op.OpCreate? && req.shift in db.shifts
    ensures var db' := Step(db, op);
            && req.shift in db'.shifts && db'.shifts[req.shift] == db.shifts[req.shift] && db'.riders == db.riders
            && Decide(db', req, now) == Decide(db, req, now)
  {
    var db' := Step(db, op);
    assert forall s :: s in db.shifts ==> s in db'.shifts && db'.shifts[s] == db.shifts[s];
    assert forall s :: s in db'.shifts && s !in db.shifts ==> db'.shifts[s].status == PROGRAMADO;
    var rider := db.shifts[req.shift].rider;
    if OtherActive(db, rider, req.shift) {
      var s :| s in db.shifts && s != req.shift && db.shifts[s].rider == rider && db.shifts[s].status == EN_CURSO;
      assert s in db'.shifts;
    }
    assert OtherActive(db', rider, req.shift) == OtherActive(db, rider, req.shift);
  }

  // ----- every move keeps the invariant -----

  /** Two sessions that both hold rows are about different riders. */
  lemma {:induction false} HoldersDiffer(s: Sys, i: SessionId, j: SessionId)
    requires Inv(s) && i < |s.sessions| && j < |s.sessions| && i != j
    requires HoldsRider(s.sessions[i].pc) && HoldsRider(s.sessions[j].pc)
    ensures s.sessions[i].pc.rider != s.sessions[j].pc.rider
    ensures s.sessions[i].req.shift != s.sessions[j].req.shift
  {
    assert SessionOk(s, i) && SessionOk(s, j);
  }

  lemma {:induction false} ReleaseKeepsInv(s: Sys, i: SessionId, pc: Pc)
    requires Inv(s) && i < |s.sessions| && Finished(pc)
    ensures Inv(Release(s, i, pc))
  {
    var s' := Release(s, i, pc);
    forall j | 0 <= j < |s'.sessions| ensures SessionOk(s', j) {
      assert SessionOk(s, j);
    }
    forall r | r in s'.riderLock
      ensures s'.riderLock[r] < |s'.sessions| && HoldsRider(s'.sessions[s'.riderLock[r]].pc)
              && s'.sessions[s'.riderLock[r]].pc.rider == r
    {
      assert r in s.riderLock;
    }
    forall h | h in s'.shiftLock
      ensures s'.shiftLock[h] < |s'.sessions| && HoldsShift(s'.sessions[s'.shiftLock[h]].pc)
              && s'.sessions[s'.shiftLock[h]].req.shift == h
    {
      assert h in s.shiftLock;
    }
  }

  lemma {:induction false} LockRiderKeepsInv(s: Sys, i: SessionId, rider: RiderId)
    requires Inv(s) && i < |s.sessions| && s.sessions[i].pc == WantRider(rider)
    requires LockRider(s, i, rider).Some?
    ensures Inv(LockRider(s, i, rider).value)
  {
    var s' := LockRider(s, i, rider).value;
    assert SessionOk(s, i);
    forall j | 0 <= j < |s'.sessions| ensures SessionOk(s', j) {
      assert SessionOk(s, j);
    }
  }

  lemma {:induction false} LockShiftKeepsInv(s: Sys, i: SessionId, rider: RiderId)
    requires Inv(s) && i < |s.sessions| && s.sessions[i].pc == WantShift(rider)
    requires LockShift(s, i, rider).Some?
    ensures Inv(LockShift(s, i, rider).value)
  {
    var s' := LockShift(s, i, rider).value;
    assert SessionOk(s, i);
    forall j | 0 <= j < |s'.sessions| ensures SessionOk(s', j) {
      assert SessionOk(s, j);
    }
  }

  /** A session that only moves its program counter, keeping the locks it has. */
  lemma {:induction false} SetPcKeepsInv(s: Sys, i: SessionId, pc: Pc)
    requires Inv(s) && i < |s.sessions|
    requires HoldsRider(pc) == HoldsRider(s.sessions[i].pc) && HoldsShift(pc) == HoldsShift(s.sessions[i].pc)
    requires HoldsRider(pc) ==> pc.rider == s.sessions[i].pc.rider
    requires SessionOk(SetPc(s, i, pc), i)
    ensures Inv(SetPc(s, i, pc))
  {
    var s' := SetPc(s, i, pc);
    forall j | 0 <= j < |s'.sessions| ensures SessionOk(s', j) {
      assert SessionOk(s, j);
    }
  }

  lemma {:induction false} ReadRiderKeepsInv(s: Sys, i: SessionId)
    requires Inv(s) && i < |s.sessions| && s.sessions[i].pc.Ready?
    ensures Inv(ReadRider(s, i))
  {
    var pc := AfterRead(s.db, s.sessions[i].req);
    if Finished(pc) {
      ReleaseKeepsInv(s, i, pc);
    } else {
      SetPcKeepsInv(s, i, pc);
    }
  }

  lemma {:induction false} CheckKeepsInv(s: Sys, i: SessionId, now: int)
    requires Inv(s) && i < |s.sessions| && s.sessions[i].pc.Holding?
    ensures Inv(Check(s, i, s.sessions[i].pc.rider, now))
  {
    assert SessionOk(s, i);
    var pc := Check(s, i, s.sessions[i].pc.rider, now).sessions[i].pc;
    if Finished(pc) {
      ReleaseKeepsInv(s, i, pc);
    } else {
      SetPcKeepsInv(s, i, pc);
    }
  }

  lemma {:induction false} AdvanceKeepsInv(s: Sys, i: SessionId, now: int)
    requires Inv(s) && i < |s.sessions| && !s.sessions[i].pc.Staged?
    requires Advance(s, i, now).Some?
    ensures Inv(Advance(s, i, now).value)
  {
    match s.sessions[i].pc {
      case Ready => ReadRiderKeepsInv(s, i);
      case WantRider(rider) => LockRiderKeepsInv(s, i, rider);
      case WantShift(rider) => LockShiftKeepsInv(s, i, rider);
      case Holding(rider) => CheckKeepsInv(s, i, now);
      case Decided(rider, at, effect) =>
        assert SessionOk(s, i);
        SetPcKeepsInv(s, i, Staged(rider, at, effect));
      case _ =>
    }
  }

  lemma {:induction false} CommitKeepsInv(s: Sys, i: SessionId)
    requires Inv(s) && i < |s.sessions| && s.sessions[i].pc.Staged?
    ensures var pc := s.sessions[i].pc;
            var req := s.sessions[i].req;
            var s' := CommitSession(s, i, pc.now, pc.effect);
            Inv(s') && Transition(s.db, req, pc.now) == Done(s'.db, s'.sessions[i].pc.event)
  {
    var pc := s.sessions[i].pc;
    var req := s.sessions[i].req;
    var s' := CommitSession(s, i, pc.now, pc.effect);
    assert SessionOk(s, i);
    TransitionKeepsSound(s.db, req, pc.now);
    EffectShape(s.db, req, pc.now);
    ReleaseKeepsInv(s, i, s'.sessions[i].pc);
    forall j | 0 <= j < |s'.sessions| ensures SessionOk(s', j) {
      assert SessionOk(s, j);
      var other := s.sessions[j].pc;
      if j != i && HoldsRider(other) {
        HoldersDiffer(s, i, j);
        if other.Decided? || other.Staged? {
          DecisionStable(s.db, s.sessions[j].req, other.now, req.shift, pc.effect);
        }
      }
    }
  }

  lemma {:induction false} NewShiftKeepsInv(s: Sys, op: Op)
    requires Inv(s) && op.OpCreate?
    ensures Inv(s.(db := Step(s.db, op), history := s.history + [op]))
  {
    var s' := s.(db := Step(s.db, op), history := s.history + [op]);
    if op.id !in s.db.shifts && Create(s.db, op.id, op.rider, op.start, op.end, op.notes).Created? {
      CreateKeepsSound(s.db, op.id, op.rider, op.start, op.end, op.notes);
    }
    forall j | 0 <= j < |s'.sessions| ensures SessionOk(s', j) {
      assert SessionOk(s, j);
      var pc := s.sessions[j].pc;
      if pc.WantRider? || HoldsRider(pc) {
        CreationStable(s.db, s.sessions[j].req, if pc.Decided? || pc.Staged? then pc.now else 0, op);
      }
    }
  }

  lemma {:induction false} ArrivalKeepsInv(s: Sys, req: Request)
    requires Inv(s)
    ensures Inv(s.(sessions := s.sessions + [Session(req, Ready)]))
  {
    var s' := s.(sessions := s.sessions + [Session(req, Ready)]);
    forall j | 0 <= j < |s'.sessions| ensures SessionOk(s', j) {
      assert j < |s.sessions| ==> SessionOk(s, j);
    }
  }

  lemma {:induction false} ProceedKeepsInv(s: Sys, i: SessionId, now: int)
    requires Inv(s) && i < |s.sessions| && Advance(s, i, now).Some?
    ensures Inv(Advance(s, i, now).value)
  {
    var pc := s.sessions[i].pc;
    if pc.Staged? {
      assert Advance(s, i, now).value == CommitSession(s, i, pc.now, pc.effect);
      CommitKeepsInv(s, i);
    } else {
      AdvanceKeepsInv(s, i, now);
    }
  }

  lemma {:induction false} NextKeepsInv(s: Sys, move: Move)
    requires Inv(s) && Next(s, move).Some?
    ensures Inv(Next(s, move).value)
  {
    match move {
      case Arrive(req) => ArrivalKeepsInv(s, req);
      case NewShift(op) => NewShiftKeepsInv(s, op);
      case Proceed(i, now) => ProceedKeepsInv(s, i, now);
      case Fail(i) => ReleaseKeepsInv(s, i, RolledBack(None));
    }
  }

  // ----- interleaved sessions behave like one call after another -----

  /** The committed state is the outcome of the history run serially, and each
      committed session got the answer its serial call would have got. */
  ghost predicate Serial(start: Db, s: Sys) {
    && s.db == Run(start, s.history)
    && forall i :: 0 <= i < |s.sessions| && s.sessions[i].pc.Committed? ==> AnsweredSerially(start, s, i)
  }

  ghost predicate AnsweredSerially(start: Db, s: Sys, i: SessionId)
    requires i < |s.sessions| && s.sessions[i].pc.Committed?
  {
    var pc := s.sessions[i].pc;
    && pc.at < |s.history|
    && s.history[pc.at] == OpTransition(s.sessions[i].req, pc.now)
    && var outcome := Transition(Run(start, s.history[..pc.at]), s.sessions[i].req, pc.now);
       outcome.Done? && outcome.event == pc.event
  }

  lemma {:induction false} HistoryGrows(start: Db, s: Sys, s': Sys, i: SessionId)
    requires i < |s.sessions| && i < |s'.sessions| && s'.sessions[i] == s.sessions[i]
    requires s.sessions[i].pc.Committed? && AnsweredSerially(start, s, i)
    requires s.history <= s'.history
    ensures AnsweredSerially(start, s', i)
  {
    var at := s.sessions[i].pc.at;
    assert s'.history[..at] == s.history[..at];
  }

  /** Only a commit publishes rows: every other step of a session leaves the tables and the history alone. */
  lemma {:induction false} AdvanceIsPrivate(s: Sys, i: SessionId, now: int)
    requires i < |s.sessions| && !s.sessions[i].pc.Staged? && Advance(s, i, now).Some?
    ensures var s' := Advance(s, i, now).value;
            && s'.db == s.db && s'.history == s.history && |s'.sessions| == |s.sessions|
            && !s'.sessions[i].pc.Committed?
            && forall j :: 0 <= j < |s.sessions| && j != i ==> s'.sessions[j] == s.sessions[j]
  {
  }

  ghost predicate OldAnswer(s: Sys, s': Sys, move: Move, i: SessionId)
    requires i < |s'.sessions|
  {
    || (i < |s.sessions| && s'.sessions[i] == s.sessions[i])
    || (move.Proceed? && move.session == i && i < |s.sessions| && s.sessions[i].pc.Staged?)
  }

  lemma {:induction false} RunExtends(start: Db, ops: seq<Op>, op: Op)
    ensures Run(start, ops + [op]) == Step(Run(start, ops), op)
  {
  }

  /** The commit of a session is its serial step. */
  lemma {:induction false} CommitIsSerialStep(start: Db, s: Sys, i: SessionId)
    requires Inv(s) && s.db == Run(start, s.history) && i < |s.sessions| && s.sessions[i].pc.Staged?
    ensures var pc := s.sessions[i].pc;
            var s' := CommitSession(s, i, pc.now, pc.effect);
            s'.db == Run(start, s'.history) && AnsweredSerially(start, s', i)
  {
    var pc := s.sessions[i].pc;
    var req := s.sessions[i].req;
    var s' := CommitSession(s, i, pc.now, pc.effect);
    CommitKeepsInv(s, i);
    var outcome := Transition(s.db, req, pc.now);
    assert outcome == Done(s'.db, s'.sessions[i].pc.event);
    RunExtends(start, s.history, OpTransition(req, pc.now));
    assert s'.history[..|s.history|] == s.history;
  }

  lemma {:induction false} ProceedHistory(start: Db, s: Sys, i: SessionId, now: int)
    requires Inv(s) && s.db == Run(start, s.history) && i < |s.sessions| && Advance(s, i, now).Some?
    ensures var s' := Advance(s, i, now).value;
            && s.history <= s'.history && s'.db == Run(start, s'.history)
            && forall j :: 0 <= j < |s'.sessions| && s'.sessions[j].pc.Committed? ==> OldAnswer(s, s', Proceed(i, now), j)
  {
    var pc := s.sessions[i].pc;
    if pc.Staged? {
      assert Advance(s, i, now).value == CommitSession(s, i, pc.now, pc.effect);
      CommitIsSerialStep(start, s, i);
    } else {
      AdvanceIsPrivate(s, i, now);
    }
  }

  /** Commits and new rows append to the history, which stays the serial account of the tables. */
  lemma {:induction false} NextHistory(start: Db, s: Sys, move: Move)
    requires Inv(s) && s.db == Run(start, s.history) && Next(s, move).Some?
    ensures var s' := Next(s, move).value;
            && s.history <= s'.history && s'.db == Run(start, s'.history)
            && forall i :: 0 <= i < |s'.sessions| && s'.sessions[i].pc.Committed? ==> OldAnswer(s, s', move, i)
  {
    match move {
      case Proceed(i, now) => ProceedHistory(start, s, i, now);
      case NewShift(op) => RunExtends(start, s.history, op);
      case _ =>
    }
  }

  lemma {:induction false} NextKeepsSerial(start: Db, s: Sys, move: Move)
    requires Inv(s) && Serial(start, s) && Next(s, move).Some?
    ensures Serial(start, Next(s, move).value)
  {
    var s' := Next(s, move).value;
    NextHistory(start, s, move);
    forall i | 0 <= i < |s'.sessions| && s'.sessions[i].pc.Committed? ensures AnsweredSerially(start, s', i) {
      assert OldAnswer(s, s', move, i);
      if i < |s.sessions| && s'.sessions[i] == s.sessions[i] {
        HistoryGrows(start, s, s', i);
      } else {
        var pc := s.sessions[i].pc;
        assert s' == CommitSession(s, i, pc.now, pc.effect);
        CommitIsSerialStep(start, s, i);
      }
    }
  }

  /** For every schedule of every set of calls: the invariant holds, in
      particular at most one committed running shift per rider and a log that
      matches the columns, and the result is that of a serial order. */
  lemma {:induction false} EveryScheduleIsSerial(start: Db, moves: seq<Move>)
    requires Sound(start)
    ensures var s := Play(Start(start), moves); Inv(s) && Serial(start, s)
  {
    if moves != [] {
      var before := Play(Start(start), moves[..|moves| - 1]);
      EveryScheduleIsSerial(start, moves[..|moves| - 1]);
      if Next(before, moves[|moves| - 1]).Some? {
        NextKeepsInv(before, moves[|moves| - 1]);
        NextKeepsSerial(start, before, moves[|moves| - 1]);
      }
    }
  }

  lemma {:induction false} AtMostOneRunningShift(start: Db, moves: seq<Move>, a: ShiftId, b: ShiftId)
    requires Sound(start)
    ensures var shifts := Play(Start(start), moves).db.shifts;
            (a in shifts && b in shifts && shifts[a].rider == shifts[b].rider
             && shifts[a].status == EN_CURSO && shifts[b].status == EN_CURSO) ==> a == b
  {
    EveryScheduleIsSerial(start, moves);
  }

  // ----- no deadlock -----

  /** A session that holds a row lock never waits for anyone. */
  lemma {:induction false} HolderIsNeverBlocked(s: Sys, i: SessionId, now: int)
    requires Inv(s) && i < |s.sessions| && HoldsRider(s.sessions[i].pc)
    ensures Next(s, Proceed(i, now)).Some?
  {
    assert SessionOk(s, i);
    var h := s.sessions[i].req.shift;
    assert h in s.shiftLock ==> SessionOk(s, s.shiftLock[h]);
  }

  /** A blocked session waits for exactly one other, which can move. */
  lemma {:induction false} BlockedOnlyByARunner(s: Sys, i: SessionId, now: int)
    requires Inv(s) && i < |s.sessions| && !Finished(s.sessions[i].pc)
    ensures Next(s, Proceed(i, now)).None? <==>
            s.sessions[i].pc.WantRider? && s.sessions[i].pc.rider in s.riderLock
    ensures Next(s, Proceed(i, now)).None? ==>
              s.riderLock[s.sessions[i].pc.rider] != i && Next(s, Proceed(s.riderLock[s.sessions[i].pc.rider], now)).Some?
  {
    if HoldsRider(s.sessions[i].pc) {
      HolderIsNeverBlocked(s, i, now);
    } else if Next(s, Proceed(i, now)).None? {
      HolderIsNeverBlocked(s, s.riderLock[s.sessions[i].pc.rider], now);
    }
  }

  /** In every reachable state with an unfinished call, some unfinished call can move. */
  lemma {:induction false} NoDeadlock(start: Db, moves: seq<Move>, i: SessionId, now: int)
    requires Sound(start)
    requires i < |Play(Start(start), moves).sessions| && !Finished(Play(Start(start), moves).sessions[i].pc)
    ensures var s := Play(Start(start), moves);
            exists j :: 0 <= j < |s.sessions| && !Finished(s.sessions[j].pc) && Next(s, Proceed(j, now)).Some?
  {
    var s := Play(Start(start), moves);
    EveryScheduleIsSerial(start, moves);
    BlockedOnlyByARunner(s, i, now);
    if Next(s, Proceed(i, now)).None? {
      var j := s.riderLock[s.sessions[i].pc.rider];
      assert !Finished(s.sessions[j].pc) && Next(s, Proceed(j, now)).Some?;
    } else {
      assert Next(s, Proceed(i, now)).Some?;
    }
  }

  // ----- every call ends -----

  function StepsLeft(pc: Pc): nat {
    match pc
    case Ready => 6
    case WantRider(_) => 5
    case WantShift(_) => 4
    case Holding(_) => 3
    case Decided(_, _, _) => 2
    case Staged(_, _, _) => 1
    case _ => 0
  }

  function Remaining(sessions: seq<Session>): nat {
    if sessions == [] then 0 else Remaining(sessions[..|sessions| - 1]) + StepsLeft(sessions[|sessions| - 1].pc)
  }

  lemma {:induction false} RemainingDrops(sessions: seq<Session>, i: nat, pc: Pc)
    requires i < |sessions|
    ensures Remaining(sessions[i := sessions[i].(pc := pc)]) == Remaining(sessions) - StepsLeft(sessions[i].pc) + StepsLeft(pc)
  {
    var last := |sessions| - 1;
    var after := sessions[i := sessions[i].(pc := pc)];
    if i == last {
      assert after[..last] == sessions[..last];
    } else {
      RemainingDrops(sessions[..last], i, pc);
      assert after[..last] == sessions[..last][i := sessions[i].(pc := pc)];
    }
  }

  lemma {:induction false} AdvanceUsesAStep(s: Sys, i: SessionId, now: int)
    requires i < |s.sessions| && Advance(s, i, now).Some?
    ensures var s' := Advance(s, i, now).value;
            && |s'.sessions| == |s.sessions|
            && s'.sessions == s.sessions[i := s.sessions[i].(pc := s'.sessions[i].pc)]
            && StepsLeft(s'.sessions[i].pc) < StepsLeft(s.sessions[i].pc)
  {
  }

  /** Every move of a session uses up steps. */
  lemma {:induction false} MoveUsesSteps(s: Sys, move: Move)
    requires (move.Proceed? || move.Fail?) && Next(s, move).Some?
    ensures Remaining(Next(s, move).value.sessions) < Remaining(s.sessions)
  {
    var i := move.session;
    if move.Proceed? {
      AdvanceUsesAStep(s, i, move.now);
    }
    RemainingDrops(s.sessions, i, Next(s, move).value.sessions[i].pc);
  }

  ghost predicate Effective(s: Sys, moves: seq<Move>) {
    forall k :: 0 <= k < |moves| ==>
      (moves[k].Proceed? || moves[k].Fail?) && Next(Play(s, moves[..k]), moves[k]).Some?
  }

  /** Without new arrivals a schedule has at most Remaining effective moves, so
      with NoDeadlock every maximal schedule ends with every call finished. */
  lemma {:induction false} SchedulesAreBounded(s: Sys, moves: seq<Move>)
    requires Effective(s, moves)
    ensures |moves| + Remaining(Play(s, moves).sessions) <= Remaining(s.sessions)
  {
    if moves != [] {
      var init := moves[..|moves| - 1];
      forall k | 0 <= k < |init| ensures (init[k].Proceed? || init[k].Fail?) && Next(Play(s, init[..k]), init[k]).Some? {
        assert init[..k] == moves[..k];
      }
      SchedulesAreBounded(s, init);
      MoveUsesSteps(Play(s, init), moves[|moves| - 1]);
    }
  }

  // ----- alone, a call does what it is meant to do -----

  /** A session that runs to its end, or to a lock that it does not get. */
  function RunOut(s: Sys, i: SessionId, now: int): Sys
    requires i < |s.sessions|
    decreases StepsLeft(s.sessions[i].pc)
  {
    if Advance(s, i, now).None? then s
    else
      AdvanceUsesAStep(s, i, now);
      RunOut(Advance(s, i, now).value, i, now)
  }

  lemma {:induction false} Steps(s: Sys, s': Sys, i: SessionId, now: int)
    requires i < |s.sessions| && Advance(s, i, now) == Some(s')
    ensures i < |s'.sessions| && RunOut(s, i, now) == RunOut(s', i, now)
  {
    AdvanceUsesAStep(s, i, now);
  }

  /** From both locks on: the decision, the write and the commit. */
  lemma {:induction false} HolderFinishes(s: Sys, i: SessionId, now: int)
    requires i < |s.sessions| && s.sessions[i].pc.Holding? && s.sessions[i].req.shift in s.db.shifts
    ensures var req, done := s.sessions[i].req, RunOut(s, i, now);
            && i < |done.sessions|
            && match Decide(s.db, req, now)
               case Failure(why) => done.db == s.db && done.sessions[i].pc == RolledBack(Some(why))
               case Success(effect) =>
                 var (db, event) := Commit(s.db, req.shift, effect);
                 done.db == db && done.sessions[i].pc == Committed(|s.history|, now, event)
  {
    var s1 := Check(s, i, s.sessions[i].pc.rider, now);
    Steps(s, s1, i, now);
    if s1.sessions[i].pc.Decided? {
      var pc := s1.sessions[i].pc;
      var s2 := SetPc(s1, i, Staged(pc.rider, pc.now, pc.effect));
      var s3 := CommitSession(s2, i, pc.now, pc.effect);
      Steps(s1, s2, i, now);
      Steps(s2, s3, i, now);
    }
  }

  /** A call that meets nobody on its way answers and writes as the atomic call does,
      refusals included. */
  lemma {:induction false} AloneIsAtomic(s: Sys, i: SessionId, now: int)
    requires i < |s.sessions| && s.sessions[i].pc.Ready? && s.riderLock == map[] && s.shiftLock == map[]
    ensures var req, done := s.sessions[i].req, RunOut(s, i, now);
            && i < |done.sessions|
            && match Transition(s.db, req, now)
               case Done(db, event) => done.db == db && done.sessions[i].pc == Committed(|s.history|, now, event)
               case Rejected(why) => done.db == s.db && done.sessions[i].pc == RolledBack(Some(why))
  {
    var req := s.sessions[i].req;
    var s1 := ReadRider(s, i);
    Steps(s, s1, i, now);
    if s1.sessions[i].pc.WantRider? {
      var rider := s.db.shifts[req.shift].rider;
      var s2 := LockRider(s1, i, rider).value;
      Steps(s1, s2, i, now);
      if rider in s.db.riders {
        var s3 := LockShift(s2, i, rider).value;
        Steps(s2, s3, i, now);
        HolderFinishes(s3, i, now);
      }
    }
  }
  // ----- what may happen at any moment -----

  ghost predicate HoldsNothing(s: Sys, i: SessionId) {
    && (forall r :: r in s.riderLock ==> s.riderLock[r] != i)
    && (forall id :: id in s.shiftLock ==> s.shiftLock[id] != i)
  }

  /** A new call can come in at any moment, and run alone it is the atomic call. */
  lemma {:induction false} ArrivalIsAtomic(s: Sys, req: Request, now: int)
    requires s.riderLock == map[] && s.shiftLock == map[]
    ensures var next, i := Next(s, Arrive(req)), |s.sessions|;
            && next.Some? && |next.value.sessions| == i + 1 && next.value.sessions[..i] == s.sessions
            && next.value.db == s.db
            && var done := RunOut(next.value, i, now);
               && i < |done.sessions|
               && match Transition(s.db, req, now)
                  case Done(db, event) => done.db == db && done.sessions[i].pc == Committed(|s.history|, now, event)
                  case Rejected(why) => done.db == s.db && done.sessions[i].pc == RolledBack(Some(why))
  {
    AloneIsAtomic(Next(s, Arrive(req)).value, |s.sessions|, now);
  }

  /** A call that is not over can break off at any moment, which frees its rows and leaves
      no trace in the tables; and a shift can be created at any moment. */
  lemma {:induction false} FailureLeavesNothing(s: Sys, i: SessionId, op: Op)
    ensures var next := Next(s, Fail(i));
            && (next.Some? <==> i < |s.sessions| && !s.sessions[i].pc.Committed? && !s.sessions[i].pc.RolledBack?)
            && (next.Some? ==>
                  && next.value.db == s.db && next.value.history == s.history && HoldsNothing(next.value, i)
                  && next.value.sessions == s.sessions[i := s.sessions[i].(pc := RolledBack(None))])
    ensures op.OpCreate? ==> Next(s, NewShift(op)).Some? && Next(s, NewShift(op)).value.db == Step(s.db, op)
  {
  }

  /** A call stands still exactly while another has locked what it needs next. */
  lemma {:induction false} WaitsForItsRows(s: Sys, i: SessionId, now: int)
    requires i < |s.sessions|
    ensures Advance(s, i, now) == None <==>
            match s.sessions[i].pc
            case WantRider(rider) => rider in s.riderLock
            case WantShift(_) => s.sessions[i].req.shift in s.shiftLock
            case Committed(_, _, _) => true
            case RolledBack(_) => true
            case _ => false
  {
  }

  /** Once the rider is locked the shift must still be there and be that rider's, or the
      call ends as one about an unknown shift; and so it does if the shift goes after that. */
  lemma {:induction false} LockedShiftIsChecked(s: Sys, i: SessionId, now: int)
    requires i < |s.sessions| && s.sessions[i].req.shift !in s.shiftLock
    ensures var id, pc := s.sessions[i].req.shift, s.sessions[i].pc;
            pc.WantShift? ==>
              var next := Advance(s, i, now);
              && next.Some?
              && if id in s.db.shifts && s.db.shifts[id].rider == pc.rider then next.value.sessions[i].pc == Holding(pc.rider)
                 else next.value.sessions[i].pc == RolledBack(Some(NotFound)) && HoldsNothing(next.value, i)
    ensures s.sessions[i].pc.Holding? && s.sessions[i].req.shift !in s.db.shifts ==>
              var next := Advance(s, i, now);
              next.Some? && next.value.sessions[i].pc == RolledBack(Some(NotFound)) && HoldsNothing(next.value, i)
  {
  }
}
