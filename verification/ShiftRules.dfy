/**
 Scheduled shifts and attendance (backend/app/core/shift_rules.py): a state
 machine over shift rows plus an append-only log of check-in and check-out
 events. `Transition` is one call of `transition_shift` seen as one atomic step;
 ShiftConcurrency shows that interleaved calls behave like a sequence of these.
 */
module ShiftRules {
  import opened Wrappers
  import opened Text
  import ShiftSchedule

  type RiderId = nat
  type ShiftId = nat

  datatype ShiftStatus = PROGRAMADO | EN_CURSO | COMPLETADO | CANCELADO | INCOMPLETO

  datatype CheckType = IN | OUT

  /** HTTP 422, 404, 403, 400 and 409. */
  datatype Rejection = Unprocessable | NotFound | Forbidden | NotAllowed | Conflict

  datatype Shift = Shift(
    rider: RiderId, plan: ShiftSchedule.Columns, notes: Option<string>, status: ShiftStatus,
    checkIn: Option<int>, checkOut: Option<int>,
    inLatitude: Option<real>, inLongitude: Option<real>,
    outLatitude: Option<real>, outLongitude: Option<real>,
    reason: Option<string>)

  datatype Mark = Mark(
    rider: RiderId, shift: ShiftId, kind: CheckType, at: int,
    latitude: Option<real>, longitude: Option<real>, notes: Option<string>)

  datatype Event = Event(id: nat, mark: Mark)

  datatype Db = Db(riders: set<RiderId>, shifts: map<ShiftId, Shift>, events: seq<Event>)

  datatype Request = Request(
    shift: ShiftId, target: ShiftStatus, expectedRider: Option<RiderId>,
    latitude: Option<real>, longitude: Option<real>, notes: Option<string>, reason: string)

  /** What the locked transaction decided: answer with what is recorded, or write. */
  datatype Effect = Keep(event: Option<Event>) | Write(row: Shift, mark: Option<Mark>)

  datatype Outcome = Done(db: Db, event: Option<Event>) | Rejected(why: Rejection)

  // ----- validation before any row is read -----

  predicate NotesTooLong(notes: Option<string>) {
    notes.Some? && |notes.value| > 500
  }

  predicate Within(value: Option<real>, bound: real) {
    value.Some? ==> -bound <= value.value <= bound
  }

  predicate Malformed(req: Request) {
    || NotesTooLong(req.notes)
    || req.latitude.Some? != req.longitude.Some?
    || !Within(req.latitude, 90.0)
    || !Within(req.longitude, 180.0)
    || (req.target == CANCELADO && (Blank(req.reason) || |req.reason| > 255))
  }

  // ----- the attendance log -----

  /** The events of one shift, oldest first. */
  function EventsOf(events: seq<Event>, shift: ShiftId): seq<Event> {
    if events == [] then []
    else
      var last := |events| - 1;
      EventsOf(events[..last], shift) + if events[last].mark.shift == shift then [events[last]] else []
  }

  /** The rows that the replay query selects. */
  function Matching(events: seq<Event>, rider: RiderId, shift: ShiftId, kind: CheckType, at: int): seq<Event> {
    if events == [] then []
    else
      var last := |events| - 1;
      var mark := events[last].mark;
      Matching(events[..last], rider, shift, kind, at)
      + if mark.shift == shift && mark.rider == rider && mark.kind == kind && mark.at == at then [events[last]] else []
  }

  /** The query of a replay only ever sees the events of its own shift. */
  lemma {:induction false} MatchingWithinShift(events: seq<Event>, rider: RiderId, shift: ShiftId, kind: CheckType,
                                               at: int)
    ensures Matching(events, rider, shift, kind, at) == Matching(EventsOf(events, shift), rider, shift, kind, at)
  {
    if events != [] {
      var last := |events| - 1;
      MatchingWithinShift(events[..last], rider, shift, kind, at);
      var earlier := EventsOf(events[..last], shift);
      if events[last].mark.shift == shift {
        assert (earlier + [events[last]])[..|earlier|] == earlier;
      } else {
        assert earlier + [] == earlier;
      }
    }
  }

  // ----- the decision under both locks -----

  predicate OtherActive(db: Db, rider: RiderId, shift: ShiftId) {
    exists s :: s in db.shifts && s != shift && db.shifts[s].rider == rider && db.shifts[s].status == EN_CURSO
  }

  function Existing(db: Db, req: Request, kind: CheckType, at: int): Result<Effect, Rejection>
    requires req.shift in db.shifts
  {
    var found := Matching(db.events, db.shifts[req.shift].rider, req.shift, kind, at);
    if |found| != 1 then Failure(Conflict) else Success(Keep(Some(found[0])))
  }

  function MarkOf(row: Shift, req: Request, kind: CheckType, now: int): Mark {
    Mark(row.rider, req.shift, kind, now, req.latitude, req.longitude, req.notes)
  }

  function DecideStart(db: Db, req: Request, now: int): Result<Effect, Rejection>
    requires req.shift in db.shifts
  {
    var row := db.shifts[req.shift];
    if row.status != PROGRAMADO && row.status != INCOMPLETO && row.status != EN_CURSO then Failure(NotAllowed)
    else if OtherActive(db, row.rider, req.shift) then Failure(Conflict)
    else if row.status == EN_CURSO then
      if row.checkIn.None? || row.checkOut.Some? || row.checkIn.value > now then Failure(Conflict)
      else Existing(db, req, IN, row.checkIn.value)
    else
      Success(Write(
                row.(status := EN_CURSO, checkIn := Some(now), checkOut := None,
                     inLatitude := req.latitude, inLongitude := req.longitude),
                Some(MarkOf(row, req, IN, now))))
  }

  function DecideComplete(db: Db, req: Request, now: int): Result<Effect, Rejection>
    requires req.shift in db.shifts
  {
    var row := db.shifts[req.shift];
    if row.status == COMPLETADO then
      if row.checkIn.None? || row.checkOut.None? || row.checkOut.value < row.checkIn.value || row.checkOut.value > now
      then Failure(Conflict)
      else Existing(db, req, OUT, row.checkOut.value)
    else if row.status != EN_CURSO then Failure(NotAllowed)
    else if row.checkIn.None? || row.checkIn.value > now || row.checkOut.Some? then Failure(Conflict)
    else
      Success(Write(
                row.(status := COMPLETADO, checkOut := Some(now),
                     outLatitude := req.latitude, outLongitude := req.longitude),
                Some(MarkOf(row, req, OUT, now))))
  }

  function DecideCancel(db: Db, req: Request): Result<Effect, Rejection>
    requires req.shift in db.shifts
  {
    var row := db.shifts[req.shift];
    if row.status == CANCELADO then Success(Keep(None))
    else if row.status == EN_CURSO then Failure(Conflict)
    else if row.status != PROGRAMADO && row.status != INCOMPLETO then Failure(NotAllowed)
    else Success(Write(row.(status := CANCELADO, reason := Some(req.reason)), None))
  }

  function Decide(db: Db, req: Request, now: int): Result<Effect, Rejection>
    requires req.shift in db.shifts
  {
    match req.target
    case EN_CURSO => DecideStart(db, req, now)
    case COMPLETADO => DecideComplete(db, req, now)
    case CANCELADO => DecideCancel(db, req)
    case _ => Failure(NotAllowed)
  }

  /** Commit the effect: the row and its event become visible together. */
  function Commit(db: Db, shift: ShiftId, effect: Effect): (Db, Option<Event>) {
    match effect
    case Keep(event) => (db, event)
    case Write(row, None) => (db.(shifts := db.shifts[shift := row]), None)
    case Write(row, Some(mark)) =>
      var event := Event(|db.events|, mark);
      (db.(shifts := db.shifts[shift := row], events := db.events + [event]), Some(event))
  }

  /** One whole call of transition_shift with no other call in between. */
  function Transition(db: Db, req: Request, now: int): Outcome {
    if Malformed(req) then Rejected(Unprocessable)
    else if req.shift !in db.shifts then Rejected(NotFound)
    else
      var rider := db.shifts[req.shift].rider;
      if req.expectedRider.Some? && req.expectedRider.value != rider then Rejected(Forbidden)
      else if rider !in db.riders then Rejected(NotFound)
      else
        match Decide(db, req, now)
        case Failure(why) => Rejected(why)
        case Success(effect) =>
          var (db', event) := Commit(db, req.shift, effect);
          Done(db', event)
  }

  datatype CreateOutcome = Created(db: Db, shift: ShiftId) | CreateRejected(why: Rejection)

  /** create_scheduled_shift; the caller supplies the fresh row id. */
  function Create(db: Db, id: ShiftId, rider: RiderId, start: ShiftSchedule.Stamp, end: Option<ShiftSchedule.Stamp>,
                  notes: Option<string>): CreateOutcome
    requires id !in db.shifts
  {
    if NotesTooLong(notes) then CreateRejected(Unprocessable)
    else
      match ShiftSchedule.ScheduleColumns(start, end)
      case Failure(_) => CreateRejected(Unprocessable)
      case Success(plan) =>
        if rider !in db.riders then CreateRejected(NotFound)
        else
          var row := Shift(rider, plan, notes, PROGRAMADO, None, None, None, None, None, None, None);
          Created(db.(shifts := db.shifts[id := row]), id)
  }

  // ----- what every reachable state satisfies -----

  /** The events of a shift say exactly what its columns say. */
  ghost predicate EventsMatch(db: Db, id: ShiftId)
    requires id in db.shifts
  {
    var row := db.shifts[id];
    var log := EventsOf(db.events, id);
    match row.status
    case EN_CURSO =>
      && row.checkIn.Some? && row.checkOut.None?
      && |log| == 1 && IsMark(log[0], row, IN, row.checkIn.value)
    case COMPLETADO =>
      && row.checkIn.Some? && row.checkOut.Some? && row.checkIn.value <= row.checkOut.value
      && |log| == 2 && IsMark(log[0], row, IN, row.checkIn.value) && IsMark(log[1], row, OUT, row.checkOut.value)
    case PROGRAMADO => row.checkIn.None? && row.checkOut.None? && log == []
    case CANCELADO => row.checkIn.None? && row.checkOut.None? && log == []
    case INCOMPLETO => false
  }

  /** The event has the kind and time of the column, and its position. */
  ghost predicate IsMark(event: Event, row: Shift, kind: CheckType, at: int) {
    && event.mark.rider == row.rider && event.mark.kind == kind && event.mark.at == at
    && event.mark.latitude == (if kind == IN then row.inLatitude else row.outLatitude)
    && event.mark.longitude == (if kind == IN then row.inLongitude else row.outLongitude)
  }

  ghost predicate Consistent(db: Db) {
    && (forall id :: id in db.shifts ==> EventsMatch(db, id))
    && (forall id :: id in db.shifts ==> db.shifts[id].rider in db.riders)
    && (forall i :: 0 <= i < |db.events| ==> db.events[i].id == i && db.events[i].mark.shift in db.shifts)
  }

  ghost predicate OneActive(db: Db) {
    forall a, b ::
      (a in db.shifts && b in db.shifts && db.shifts[a].status == EN_CURSO && db.shifts[b].status == EN_CURSO
       && db.shifts[a].rider == db.shifts[b].rider) ==> a == b
  }

  ghost predicate Sound(db: Db) {
    Consistent(db) && OneActive(db)
  }

  lemma {:induction false} NoEventsOfUnknown(events: seq<Event>, shift: ShiftId)
    requires forall i :: 0 <= i < |events| ==> events[i].mark.shift != shift
    ensures EventsOf(events, shift) == []
  {
    if events != [] {
      NoEventsOfUnknown(events[..|events| - 1], shift);
    }
  }

  lemma {:induction false} CreateKeepsSound(db: Db, id: ShiftId, rider: RiderId, start: ShiftSchedule.Stamp,
                         end: Option<ShiftSchedule.Stamp>, notes: Option<string>)
    requires id !in db.shifts && Sound(db)
    requires Create(db, id, rider, start, end, notes).Created?
    ensures var db' := Create(db, id, rider, start, end, notes).db;
            && Sound(db') && db'.riders == db.riders && db'.events == db.events
            && db'.shifts.Keys == db.shifts.Keys + {id} && (forall s :: s in db.shifts ==> db'.shifts[s] == db.shifts[s])
            && db'.shifts[id].rider == rider && db'.shifts[id].status == PROGRAMADO
  {
    var db' := Create(db, id, rider, start, end, notes).db;
    NoEventsOfUnknown(db.events, id);
    forall s | s in db'.shifts ensures EventsMatch(db', s) {
      assert s != id ==> EventsMatch(db, s);
    }
  }

  /** A creation is refused for long notes or a schedule that cannot be stored, and then
      for a rider who is not there; otherwise one row is added, planned and untouched. */
  lemma {:induction false} CreateAnswers(db: Db, id: ShiftId, rider: RiderId, start: ShiftSchedule.Stamp,
                                         end: Option<ShiftSchedule.Stamp>, notes: Option<string>)
    requires id !in db.shifts
    ensures var r, plan := Create(db, id, rider, start, end, notes), ShiftSchedule.ScheduleColumns(start, end);
            var sound := (notes.Some? ==> |notes.value| <= 500) && plan.Success?;
            && (r == CreateRejected(Unprocessable) <==> !sound)
            && (r == CreateRejected(NotFound) <==> sound && rider !in db.riders)
            && (sound && rider in db.riders ==>
                  r == Created(db.(shifts := db.shifts[id :=
                                 Shift(rider, plan.value, notes, PROGRAMADO, None, None, None, None, None, None, None)]), id))
            && Step(db, OpCreate(id, rider, start, end, notes)) == if sound && rider in db.riders then r.db else db
  {
  }

  lemma {:induction false} CommitKeepsOthers(db: Db, id: ShiftId, effect: Effect, other: ShiftId)
    requires id in db.shifts && other in db.shifts && other != id
    requires effect.Write? && effect.mark.Some? ==> effect.mark.value.shift == id
    requires EventsMatch(db, other)
    ensures EventsMatch(Commit(db, id, effect).0, other)
  {
  }

  /** The log of the written shift gains exactly the new mark. */
  lemma {:induction false} CommitLogs(db: Db, id: ShiftId, row: Shift, mark: Mark)
    requires id in db.shifts && mark.shift == id
    ensures var db' := Commit(db, id, Write(row, Some(mark))).0;
            db'.shifts[id] == row && EventsOf(db'.events, id) == EventsOf(db.events, id) + [Event(|db.events|, mark)]
  {
  }

  lemma {:induction false} StartMatches(db: Db, req: Request, now: int)
    requires Consistent(db) && req.shift in db.shifts && DecideStart(db, req, now).Success?
    ensures EventsMatch(Commit(db, req.shift, DecideStart(db, req, now).value).0, req.shift)
  {
  }

  lemma {:induction false} CompleteMatches(db: Db, req: Request, now: int)
    requires Consistent(db) && req.shift in db.shifts && DecideComplete(db, req, now).Success?
    ensures EventsMatch(Commit(db, req.shift, DecideComplete(db, req, now).value).0, req.shift)
  {
  }

  lemma {:induction false} CommitMatches(db: Db, req: Request, now: int)
    requires Consistent(db) && req.shift in db.shifts && Decide(db, req, now).Success?
    ensures EventsMatch(Commit(db, req.shift, Decide(db, req, now).value).0, req.shift)
  {
    match req.target {
      case EN_CURSO => StartMatches(db, req, now);
      case COMPLETADO => CompleteMatches(db, req, now);
      case CANCELADO => assert EventsMatch(db, req.shift);
      case _ =>
    }
  }

  /** A decided effect writes to the target shift only, and activates it only
      when the rider has no other running shift. */
  lemma {:induction false} EffectShape(db: Db, req: Request, now: int)
    requires req.shift in db.shifts && Decide(db, req, now).Success?
    ensures var effect := Decide(db, req, now).value;
            var row := db.shifts[req.shift];
            effect.Write? ==>
              && effect.row.rider == row.rider && effect.row.plan == row.plan && effect.row.status == req.target
              && (effect.mark.Some? ==> effect.mark.value.shift == req.shift)
              && (effect.row.status == EN_CURSO ==> !OtherActive(db, row.rider, req.shift))
  {
  }

  lemma {:induction false} CommitKeepsOneActive(db: Db, id: ShiftId, effect: Effect)
    requires OneActive(db) && id in db.shifts
    requires effect.Write? ==> effect.row.rider == db.shifts[id].rider
    requires effect.Write? && effect.row.status == EN_CURSO ==> !OtherActive(db, db.shifts[id].rider, id)
    ensures OneActive(Commit(db, id, effect).0)
  {
  }

  /** Every accepted call keeps the log and the columns in step and at most one
      running shift per rider, whatever the clock reads. */
  lemma {:induction false} TransitionKeepsSound(db: Db, req: Request, now: int)
    requires Sound(db) && Transition(db, req, now).Done?
    ensures Sound(Transition(db, req, now).db)
  {
    DecidedKeepsSound(db, req, now);
  }

  lemma {:induction false} DecidedKeepsSound(db: Db, req: Request, now: int)
    requires Sound(db) && req.shift in db.shifts && Decide(db, req, now).Success?
    ensures Sound(Commit(db, req.shift, Decide(db, req, now).value).0)
  {
    var effect := Decide(db, req, now).value;
    EffectShape(db, req, now);
    CommitKeepsOneActive(db, req.shift, effect);
    CommitMatches(db, req, now);
    CommitKeepsConsistent(db, req.shift, effect);
  }

  lemma {:induction false} CommitKeepsConsistent(db: Db, id: ShiftId, effect: Effect)
    requires Consistent(db) && id in db.shifts
    requires effect.Write? ==> effect.row.rider == db.shifts[id].rider
    requires effect.Write? && effect.mark.Some? ==> effect.mark.value.shift == id
    requires EventsMatch(Commit(db, id, effect).0, id)
    ensures Consistent(Commit(db, id, effect).0)
  {
    var db' := Commit(db, id, effect).0;
    forall s | s in db'.shifts ensures EventsMatch(db', s) {
      if s != id {
        CommitKeepsOthers(db, id, effect, s);
      }
    }
  }

  // ----- runs -----

  datatype Op =
    | OpCreate(id: ShiftId, rider: RiderId, start: ShiftSchedule.Stamp, end: Option<ShiftSchedule.Stamp>, notes: Option<string>)
    | OpTransition(req: Request, now: int)

  /** A rejected call is rolled back, so it leaves the state as it was. */
  function Step(db: Db, op: Op): Db {
    match op
    case OpCreate(id, rider, start, end, notes) =>
      if id in db.shifts then db
      else
        var made := Create(db, id, rider, start, end, notes);
        if made.Created? then made.db else db
    case OpTransition(req, now) =>
      var outcome := Transition(db, req, now);
      if outcome.Done? then outcome.db else db
  }

  function Run(db: Db, ops: seq<Op>): Db {
    if ops == [] then db else Step(Run(db, ops[..|ops| - 1]), ops[|ops| - 1])
  }

  /** Any run, with clock readings in any order, keeps the log and the columns in step. */
  lemma {:induction false} RunKeepsSound(db: Db, ops: seq<Op>)
    requires Sound(db)
    ensures Sound(Run(db, ops))
  {
    if ops != [] {
      var before := Run(db, ops[..|ops| - 1]);
      RunKeepsSound(db, ops[..|ops| - 1]);
      match ops[|ops| - 1]
      case OpCreate(id, rider, start, end, notes) =>
        if id !in before.shifts && Create(before, id, rider, start, end, notes).Created? {
          CreateKeepsSound(before, id, rider, start, end, notes);
        }
      case OpTransition(req, now) =>
        if Transition(before, req, now).Done? {
          TransitionKeepsSound(before, req, now);
        }
    }
  }

  lemma {:induction false} EmptyIsSound(riders: set<RiderId>)
    ensures Sound(Db(riders, map[], []))
  {
  }

  /** Nothing but the target row changes, its rider and plan never do, and the log only grows. */
  lemma {:induction false} TransitionFrame(db: Db, req: Request, now: int)
    requires Transition(db, req, now).Done?
    ensures var db' := Transition(db, req, now).db;
            && db'.riders == db.riders && db'.shifts.Keys == db.shifts.Keys
            && (forall s :: s in db.shifts && s != req.shift ==> db'.shifts[s] == db.shifts[s])
            && db'.shifts[req.shift].rider == db.shifts[req.shift].rider
            && db'.shifts[req.shift].plan == db.shifts[req.shift].plan
            && db.events <= db'.events && |db'.events| <= |db.events| + 1
            && db'.shifts[req.shift].status == req.target
  {
  }

  // ----- exactly when a call is accepted -----

  ghost predicate Addressed(db: Db, req: Request) {
    && !Malformed(req) && req.shift in db.shifts
    && (req.expectedRider.Some? ==> req.expectedRider.value == db.shifts[req.shift].rider)
  }

  /** A well-formed request for a shift of the rider that the caller names, if any. */
  ghost predicate Own(db: Db, req: Request) {
    && WellFormed(req) && req.shift in db.shifts
    && (req.expectedRider == None || req.expectedRider == Some(db.shifts[req.shift].rider))
  }

  lemma {:induction false} OwnIsAddressed(db: Db, req: Request)
    ensures Own(db, req) <==> Addressed(db, req)
  {
  }

  lemma {:induction false} ReplaySees(db: Db, id: ShiftId, kind: CheckType)
    requires id in db.shifts && EventsMatch(db, id)
    requires kind == IN ==> db.shifts[id].status == EN_CURSO
    requires kind == OUT ==> db.shifts[id].status == COMPLETADO
    ensures var row := db.shifts[id];
            var at := if kind == IN then row.checkIn.value else row.checkOut.value;
            var log := EventsOf(db.events, id);
            Matching(db.events, row.rider, id, kind, at) == [log[if kind == IN then 0 else 1]]
  {
    var row := db.shifts[id];
    var log := EventsOf(db.events, id);
    var at := if kind == IN then row.checkIn.value else row.checkOut.value;
    MatchingWithinShift(db.events, row.rider, id, kind, at);
    EventsOfOwn(db.events, id);
    if kind == IN {
      assert log == [log[0]];
      assert log[..0] == [];
      assert Matching([], row.rider, id, kind, at) == [];
    } else {
      var first := log[..1];
      assert first[..0] == [];
      assert Matching(first, row.rider, id, kind, at) == [];
      assert Matching(log, row.rider, id, kind, at) == [] + [log[1]];
    }
  }

  lemma {:induction false} EventsOfOwn(events: seq<Event>, shift: ShiftId)
    ensures forall e :: e in EventsOf(events, shift) ==> e.mark.shift == shift
  {
    if events != [] {
      EventsOfOwn(events[..|events| - 1], shift);
    }
  }

  /** A start is accepted exactly for a planned shift of a rider with no other
      running shift, or as a replay no earlier than the recorded check-in. */
  lemma {:induction false} StartAcceptedIff(db: Db, req: Request, now: int)
    requires Sound(db) && req.target == EN_CURSO
    ensures Transition(db, req, now).Done? <==>
            && Own(db, req)
            && var row := db.shifts[req.shift];
               || (row.status == EN_CURSO && row.checkIn.value <= now)
               || (row.status == PROGRAMADO && !OtherActive(db, row.rider, req.shift))
  {
    OwnIsAddressed(db, req);
    if Addressed(db, req) {
      assert EventsMatch(db, req.shift);
      if db.shifts[req.shift].status == EN_CURSO {
        ReplaySees(db, req.shift, IN);
      }
    }
  }

  lemma {:induction false} CompleteAcceptedIff(db: Db, req: Request, now: int)
    requires Sound(db) && req.target == COMPLETADO
    ensures Transition(db, req, now).Done? <==>
            && Own(db, req)
            && var row := db.shifts[req.shift];
               || (row.status == EN_CURSO && row.checkIn.value <= now)
               || (row.status == COMPLETADO && row.checkOut.value <= now)
  {
    OwnIsAddressed(db, req);
    if Addressed(db, req) {
      assert EventsMatch(db, req.shift);
      if db.shifts[req.shift].status == COMPLETADO {
        ReplaySees(db, req.shift, OUT);
      }
    }
  }

  lemma {:induction false} CancelAcceptedIff(db: Db, req: Request, now: int)
    requires Sound(db) && req.target == CANCELADO
    ensures Transition(db, req, now).Done? <==>
            Own(db, req) && (db.shifts[req.shift].status == PROGRAMADO || db.shifts[req.shift].status == CANCELADO)
  {
    OwnIsAddressed(db, req);
  }

  /** What an accepted call that is not a replay writes: for a start or a completion the
      time, the coordinates of the request, and one event with all that the request
      says; for a cancellation its reason; and nothing else. */
  lemma {:induction false} FirstCallRecords(db: Db, req: Request, now: int)
    requires Transition(db, req, now).Done? && db.shifts[req.shift].status != req.target
    ensures var done, was := Transition(db, req, now), db.shifts[req.shift];
            && done.db.riders == db.riders
            && (req.target == CANCELADO ==>
                  && done.event == None && done.db.events == db.events
                  && done.db.shifts == db.shifts[req.shift := was.(status := CANCELADO, reason := Some(req.reason))])
            && (req.target != CANCELADO ==>
                  && (req.target == EN_CURSO || req.target == COMPLETADO)
                  && done.event == Some(Event(|db.events|, Mark(was.rider, req.shift, if req.target == EN_CURSO then IN else OUT, now,
                                                                req.latitude, req.longitude, req.notes)))
                  && done.db.events == db.events + [done.event.value])
            && (req.target == EN_CURSO ==>
                  done.db.shifts == db.shifts[req.shift := was.(status := EN_CURSO, checkIn := Some(now), checkOut := None,
                                                                inLatitude := req.latitude, inLongitude := req.longitude)])
            && (req.target == COMPLETADO ==>
                  done.db.shifts == db.shifts[req.shift := was.(status := COMPLETADO, checkOut := Some(now),
                                                                outLatitude := req.latitude, outLongitude := req.longitude)])
  {
  }

  /** A replay answers with the recorded event and writes nothing. */
  lemma {:induction false} ReplayAnswers(db: Db, req: Request, now: int)
    requires Sound(db) && Transition(db, req, now).Done? && db.shifts[req.shift].status == req.target
    ensures var done, row := Transition(db, req, now), db.shifts[req.shift];
            && done.db == db
            && (req.target == CANCELADO ==> done.event == None)
            && (req.target != CANCELADO ==>
                  && (req.target == EN_CURSO || req.target == COMPLETADO)
                  && done.event.Some? && done.event.value in db.events && done.event.value.mark.shift == req.shift
                  && done.event.value.mark.kind == (if req.target == EN_CURSO then IN else OUT)
                  && Some(done.event.value.mark.at) == if req.target == EN_CURSO then row.checkIn else row.checkOut)
  {
    assert EventsMatch(db, req.shift);
    EventsAreLogged(db.events, req.shift);
    EventsOfOwn(db.events, req.shift);
    if req.target == EN_CURSO {
      ReplaySees(db, req.shift, IN);
    } else if req.target == COMPLETADO {
      ReplaySees(db, req.shift, OUT);
    }
  }

  lemma {:induction false} EventsAreLogged(events: seq<Event>, shift: ShiftId)
    ensures forall e :: e in EventsOf(events, shift) ==> e in events
  {
    if events != [] {
      EventsAreLogged(events[..|events| - 1], shift);
      assert events == events[..|events| - 1] + [events[|events| - 1]];
    }
  }

  // ----- why a call is refused -----

  predicate Degrees(value: Option<real>, bound: real) {
    value.None? || -bound <= value.value <= bound
  }

  /** Notes of at most 500 characters, both coordinates or none, in range, and a reason
      of at most 255 characters for a cancellation. */
  ghost predicate WellFormed(req: Request) {
    && (req.notes.Some? ==> |req.notes.value| <= 500)
    && (req.latitude.Some? <==> req.longitude.Some?) && Degrees(req.latitude, 90.0) && Degrees(req.longitude, 180.0)
    && (req.target == CANCELADO ==> !AllBlank(req.reason) && |req.reason| <= 255)
  }

  /** In a sound state every refusal has its one cause: a malformed request, a shift that
      is not there, another rider's shift, a transition that does not exist, and
      otherwise a conflict with what is recorded. */
  lemma {:induction false} RefusedWhy(db: Db, req: Request, now: int)
    requires Sound(db)
    ensures var r := Transition(db, req, now);
            && (r == Rejected(Unprocessable) <==> !WellFormed(req))
            && (r == Rejected(NotFound) <==> WellFormed(req) && req.shift !in db.shifts)
            && (WellFormed(req) && req.shift in db.shifts ==>
                  var row := db.shifts[req.shift];
                  var own := req.expectedRider == None || req.expectedRider == Some(row.rider);
                  var possible := match req.target
                    case EN_CURSO => row.status in {PROGRAMADO, EN_CURSO}
                    case COMPLETADO => row.status in {EN_CURSO, COMPLETADO}
                    case CANCELADO => row.status in {PROGRAMADO, EN_CURSO, CANCELADO}
                    case _ => false;
                  && (r == Rejected(Forbidden) <==> !own)
                  && (r == Rejected(NotAllowed) <==> own && !possible)
                  && (own && possible ==> r.Done? || r == Rejected(Conflict)))
  {
    if WellFormed(req) && req.shift in db.shifts {
      assert EventsMatch(db, req.shift);
    }
  }

  lemma {:induction false} LastWriteWins<K, V>(m: map<K, V>, key: K, first: V, second: V)
    ensures m[key := first][key := second] == m[key := second]
  {
  }

  /** A shift that a worker has set to INCOMPLETO is treated as a planned one. */
  lemma {:induction false} IncompleteIsPlanned(db: Db, req: Request, now: int)
    requires req.shift in db.shifts && db.shifts[req.shift].status == INCOMPLETO
    ensures var planned := db.(shifts := db.shifts[req.shift := db.shifts[req.shift].(status := PROGRAMADO)]);
            Transition(db, req, now) == Transition(planned, req, now)
  {
    var row := db.shifts[req.shift];
    var planned := db.(shifts := db.shifts[req.shift := row.(status := PROGRAMADO)]);
    if OtherActive(db, row.rider, req.shift) {
      var s :| s in db.shifts && s != req.shift && db.shifts[s].rider == row.rider && db.shifts[s].status == EN_CURSO;
      assert planned.shifts[s] == db.shifts[s];
    }
    if Decide(db, req, now).Success? && Decide(db, req, now).value.Write? {
      LastWriteWins(db.shifts, req.shift, row.(status := PROGRAMADO), Decide(db, req, now).value.row);
    }
  }

  /** Whatever the tables hold, a call is accepted on no row whose times contradict its
      status or the clock. */
  lemma {:induction false} ContradictionIsRefused(db: Db, req: Request, now: int)
    requires req.shift in db.shifts && Transition(db, req, now).Done?
    ensures var row := db.shifts[req.shift];
            var running := row.checkIn.Some? && row.checkOut.None? && row.checkIn.value <= now;
            && (row.status == EN_CURSO && req.target in {EN_CURSO, COMPLETADO} ==> running)
            && (row.status == COMPLETADO && req.target == COMPLETADO ==>
                  row.checkIn.Some? && row.checkOut.Some? && row.checkIn.value <= row.checkOut.value <= now)
  {
  }

  /** Repeating an accepted call, at any time not before the first, returns the
      original event and changes nothing. */
  lemma {:induction false} RepeatIsReplay(db: Db, req: Request, first: int, later: int)
    requires Sound(db) && first <= later && Transition(db, req, first).Done?
    ensures var done := Transition(db, req, first);
            Transition(done.db, req, later) == done
  {
    assert EventsMatch(db, req.shift);
    CommitMatches(db, req, first);
    match req.target {
      case EN_CURSO => RepeatStart(db, req, first, later);
      case COMPLETADO => RepeatComplete(db, req, first, later);
      case _ =>
    }
  }

  lemma {:induction false} OthersStayInactive(db: Db, id: ShiftId, effect: Effect)
    requires id in db.shifts
    ensures forall rider :: OtherActive(Commit(db, id, effect).0, rider, id) <==> OtherActive(db, rider, id)
  {
    var db' := Commit(db, id, effect).0;
    forall rider ensures OtherActive(db', rider, id) <==> OtherActive(db, rider, id) {
      assert forall s :: s != id ==> (s in db'.shifts <==> s in db.shifts) && (s in db.shifts ==> db'.shifts[s] == db.shifts[s]);
    }
  }

  /** A replay answers with the recorded event: the only one of a running shift, the last one of a finished one. */
  lemma {:induction false} StartReplays(db: Db, req: Request, later: int)
    requires req.shift in db.shifts && EventsMatch(db, req.shift) && db.shifts[req.shift].status == EN_CURSO
    requires !OtherActive(db, db.shifts[req.shift].rider, req.shift) && db.shifts[req.shift].checkIn.value <= later
    ensures DecideStart(db, req, later) == Success(Keep(Some(EventsOf(db.events, req.shift)[0])))
  {
    ReplaySees(db, req.shift, IN);
  }

  lemma {:induction false} CompleteReplays(db: Db, req: Request, later: int)
    requires req.shift in db.shifts && EventsMatch(db, req.shift) && db.shifts[req.shift].status == COMPLETADO
    requires db.shifts[req.shift].checkOut.value <= later
    ensures DecideComplete(db, req, later) == Success(Keep(Some(EventsOf(db.events, req.shift)[1])))
  {
    ReplaySees(db, req.shift, OUT);
  }

  lemma {:induction false} RepeatStart(db: Db, req: Request, first: int, later: int)
    requires first <= later && req.shift in db.shifts && DecideStart(db, req, first).Success?
    requires EventsMatch(db, req.shift) && EventsMatch(Commit(db, req.shift, DecideStart(db, req, first).value).0, req.shift)
    ensures var (db', event) := Commit(db, req.shift, DecideStart(db, req, first).value);
            DecideStart(db', req, later) == Success(Keep(event))
  {
    var effect := DecideStart(db, req, first).value;
    var (db', event) := Commit(db, req.shift, effect);
    if effect.Write? {
      CommitLogs(db, req.shift, effect.row, effect.mark.value);
      OthersStayInactive(db, req.shift, effect);
      StartReplays(db', req, later);
    }
  }

  lemma {:induction false} RepeatComplete(db: Db, req: Request, first: int, later: int)
    requires first <= later && req.shift in db.shifts && DecideComplete(db, req, first).Success?
    requires EventsMatch(db, req.shift) && EventsMatch(Commit(db, req.shift, DecideComplete(db, req, first).value).0, req.shift)
    ensures var (db', event) := Commit(db, req.shift, DecideComplete(db, req, first).value);
            DecideComplete(db', req, later) == Success(Keep(event))
  {
    var effect := DecideComplete(db, req, first).value;
    var (db', event) := Commit(db, req.shift, effect);
    if effect.Write? {
      CommitLogs(db, req.shift, effect.row, effect.mark.value);
      CompleteReplays(db', req, later);
    }
  }

  // ----- what is recorded stays -----

  /** Rider, plan and recorded times stay, a running shift can only be finished, and
      a finished or cancelled one stays as it is. */
  ghost predicate SameRecord(before: Shift, after: Shift) {
    && after.rider == before.rider && after.plan == before.plan
    && (before.checkIn.Some? ==> after.checkIn == before.checkIn)
    && (before.checkOut.Some? ==> after.checkOut == before.checkOut)
    && (before.status == EN_CURSO ==> after.status == EN_CURSO || after.status == COMPLETADO)
    && (before.status == COMPLETADO || before.status == CANCELADO ==> after == before)
  }

  /** No row is lost, every row keeps its record, and the log only grows. */
  ghost predicate KeepsRecord(before: Db, after: Db) {
    && after.riders == before.riders && before.events <= after.events
    && forall s :: s in before.shifts ==> s in after.shifts && SameRecord(before.shifts[s], after.shifts[s])
  }

  lemma {:induction false} TransitionKeepsRecord(db: Db, req: Request, now: int)
    requires Sound(db) && Transition(db, req, now).Done?
    ensures KeepsRecord(db, Transition(db, req, now).db)
  {
    TransitionFrame(db, req, now);
    assert EventsMatch(db, req.shift);
    match req.target {
      case EN_CURSO => StartAcceptedIff(db, req, now);
      case COMPLETADO => CompleteAcceptedIff(db, req, now);
      case CANCELADO => CancelAcceptedIff(db, req, now);
      case _ =>
    }
    if db.shifts[req.shift].status != req.target {
      FirstCallRecords(db, req, now);
    }
  }

  /** Over every run: no row is lost, the log only grows, rider, plan and recorded times
      of a shift never change, and a finished or cancelled one never changes at all. */
  lemma {:induction false} RunKeepsRecord(db: Db, ops: seq<Op>)
    requires Sound(db)
    ensures KeepsRecord(db, Run(db, ops))
  {
    if ops != [] {
      var n := |ops| - 1;
      var before := Run(db, ops[..n]);
      RunKeepsRecord(db, ops[..n]);
      RunKeepsSound(db, ops[..n]);
      assert KeepsRecord(before, Step(before, ops[n])) by {
        if ops[n].OpTransition? && Transition(before, ops[n].req, ops[n].now).Done? {
          TransitionKeepsRecord(before, ops[n].req, ops[n].now);
        }
      }
    }
  }

  // ----- the rows in place -----

  /** The tables that a session updates in place. */
  class ShiftTables {
    var riders: set<RiderId>
    var shifts: map<ShiftId, Shift>
    var events: seq<Event>

    constructor (riders: set<RiderId>)
      ensures View() == Db(riders, map[], []) && Sound(View())
    {
      this.riders, this.shifts, this.events := riders, map[], [];
      new;
      EmptyIsSound(riders);
    }

    ghost function View(): Db
      reads this
    {
      Db(riders, shifts, events)
    }

    method CreateScheduledShift(id: ShiftId, rider: RiderId, start: ShiftSchedule.Stamp,
                                end: Option<ShiftSchedule.Stamp>, notes: Option<string>)
      returns (r: Result<ShiftId, Rejection>)
      requires id !in shifts
      modifies this
      ensures match Create(old(View()), id, rider, start, end, notes)
              case Created(db', made) => View() == db' && r == Success(made)
              case CreateRejected(why) => View() == old(View()) && r == Failure(why)
      ensures old(Sound(View())) ==> Sound(View())
    {
      if Create(View(), id, rider, start, end, notes).Created? && Sound(View()) {
        CreateKeepsSound(View(), id, rider, start, end, notes);
      }
      if NotesTooLong(notes) {
        return Failure(Unprocessable);
      }
      var columns := ShiftSchedule.ScheduleColumns(start, end);
      if columns.Failure? {
        return Failure(Unprocessable);
      }
      if rider !in riders {
        return Failure(NotFound);
      }
      shifts := shifts[id := Shift(rider, columns.value, notes, PROGRAMADO, None, None, None, None, None, None, None)];
      return Success(id);
    }

    /** The unique recorded event, or a conflict. */
    method ExistingAttendance(rider: RiderId, shift: ShiftId, kind: CheckType, at: int)
      returns (r: Result<Option<Event>, Rejection>)
      ensures var found := Matching(events, rider, shift, kind, at);
              r == if |found| == 1 then Success(Some(found[0])) else Failure(Conflict)
    {
      var found: seq<Event> := [];
      for i := 0 to |events|
        invariant found == Matching(events[..i], rider, shift, kind, at)
      {
        assert events[..i + 1][..i] == events[..i];
        var mark := events[i].mark;
        if mark.shift == shift && mark.rider == rider && mark.kind == kind && mark.at == at {
          found := found + [events[i]];
        }
      }
      assert events[..|events|] == events;
      if |found| != 1 {
        return Failure(Conflict);
      }
      return Success(Some(found[0]));
    }

    /** Some other running shift of the rider, if there is one. */
    method FindOtherActive(rider: RiderId, shift: ShiftId) returns (found: bool)
      ensures found <==> OtherActive(View(), rider, shift)
    {
      var rows := shifts.Keys;
      found := false;
      while rows != {}
        invariant rows <= shifts.Keys
        invariant !found
        invariant forall s :: s in shifts && s !in rows ==>
                    !(s != shift && shifts[s].rider == rider && shifts[s].status == EN_CURSO)
        decreases rows
      {
        var s :| s in rows;
        if s != shift && shifts[s].rider == rider && shifts[s].status == EN_CURSO {
          return true;
        }
        rows := rows - {s};
      }
    }

    /** The first call of its kind writes the row and its event; a repeat answers with the event that is there. */
    method TransitionShift(req: Request, now: int) returns (r: Result<Option<Event>, Rejection>)
      modifies this
      ensures match Transition(old(View()), req, now)
              case Done(db', event) => View() == db' && r == Success(event)
              case Rejected(why) => View() == old(View()) && r == Failure(why)
      ensures old(Sound(View())) ==> Sound(View())
    {
      if Sound(View()) && Transition(View(), req, now).Done? {
        TransitionKeepsSound(View(), req, now);
      }
      if Malformed(req) {
        return Failure(Unprocessable);
      }
      if req.shift !in shifts {
        return Failure(NotFound);
      }
      var row := shifts[req.shift];
      if req.expectedRider.Some? && req.expectedRider.value != row.rider {
        return Failure(Forbidden);
      }
      if row.rider !in riders {
        return Failure(NotFound);
      }
      var attendance: Option<Mark> := None;
      if req.target == EN_CURSO {
        if row.status != PROGRAMADO && row.status != INCOMPLETO && row.status != EN_CURSO {
          return Failure(NotAllowed);
        }
        var other := FindOtherActive(row.rider, req.shift);
        if other {
          return Failure(Conflict);
        }
        if row.status == EN_CURSO {
          if row.checkIn.None? || row.checkOut.Some? || row.checkIn.value > now {
            return Failure(Conflict);
          }
          r := ExistingAttendance(row.rider, req.shift, IN, row.checkIn.value);
          return;
        }
        shifts := shifts[req.shift := row.(status := EN_CURSO, checkIn := Some(now), checkOut := None,
                                           inLatitude := req.latitude, inLongitude := req.longitude)];
        attendance := Some(MarkOf(row, req, IN, now));
      } else if req.target == COMPLETADO {
        if row.status == COMPLETADO {
          if row.checkIn.None? || row.checkOut.None? || row.checkOut.value < row.checkIn.value || row.checkOut.value > now {
            return Failure(Conflict);
          }
          r := ExistingAttendance(row.rider, req.shift, OUT, row.checkOut.value);
          return;
        }
        if row.status != EN_CURSO {
          return Failure(NotAllowed);
        }
        if row.checkIn.None? || row.checkIn.value > now || row.checkOut.Some? {
          return Failure(Conflict);
        }
        shifts := shifts[req.shift := row.(status := COMPLETADO, checkOut := Some(now),
                                           outLatitude := req.latitude, outLongitude := req.longitude)];
        attendance := Some(MarkOf(row, req, OUT, now));
      } else if req.target == CANCELADO {
        if row.status == CANCELADO {
          return Success(None);
        }
        if row.status == EN_CURSO {
          return Failure(Conflict);
        }
        if row.status != PROGRAMADO && row.status != INCOMPLETO {
          return Failure(NotAllowed);
        }
        shifts := shifts[req.shift := row.(status := CANCELADO, reason := Some(req.reason))];
      } else {
        return Failure(NotAllowed);
      }
      if attendance.Some? {
        var event := Event(|events|, attendance.value);
        events := events + [event];
        return Success(Some(event));
      }
      return Success(None);
    }
  }
}
