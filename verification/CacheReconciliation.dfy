/**
 The wallet cache and its audited synchronisation with the recorded ledger
 (backend/app/services/cache_reconciliation.py): a preview computed from one
 snapshot, and an update that compares version and fingerprint first. The ledger
 of a rider is kept in the order in which the query returns it. Amounts are in
 cents. A row under its lock is a field of the state.
 */
module CacheReconciliation {
  import opened Wrappers
  import opened LegacyLedger

  const MAX_VERSION := 2147483647

  type RiderId = nat
  type UserId = nat

  datatype Role = SUPERADMIN | OtherRole

  datatype User = User(active: bool, role: Role, tokenVersion: int)

  /** The identity that came with the request. */
  datatype Actor = Actor(id: UserId, tokenVersion: int)

  datatype Rider = Rider(wallet: Raw, version: int, ledger: seq<Entry>)

  /** The digest of the previewed state, taken as the state itself. */
  datatype StatePrint = StatePrint(rider: RiderId, wallet: Raw, version: int, evidence: LedgerPrint)

  datatype Status = Agrees | WithinTolerance | Discrepancy | NeedsReviewState | NoLedgerEvidence

  datatype CacheIssue = InvalidVersion | InvalidBalance | VersionExhausted

  datatype Preview = Preview(
    status: Status, ledgerBalance: Option<int>, stored: Option<int>, adjustment: Option<int>, version: Option<int>,
    fingerprint: StatePrint, canApply: bool, issues: seq<CacheIssue>, integrity: Integrity)

  datatype Audit = Audit(
    actor: UserId, rider: RiderId, reason: string,
    oldPrint: StatePrint, oldVersion: int, oldStored: Option<int>,
    newPrint: StatePrint, newVersion: int, newStored: int, evidence: LedgerPrint)

  /** The position of an audit row stands for its identifier and its age. */
  datatype Db = Db(users: map<UserId, User>, riders: map<RiderId, Rider>, audits: seq<Audit>)

  datatype Request = Request(expectedVersion: int, expectedPrint: StatePrint, reason: string)

  datatype SyncStatus = Reconciled | AlreadyApplied | NoChange

  datatype Answer = Answer(
    status: SyncStatus, before: Option<int>, after: int, previousVersion: int, version: int, audit: Option<nat>)

  /** HTTP 401, 403, 404 and the two meanings of 409. */
  datatype Refusal = Unauthorized | Forbidden | NotFound | StateChanged | EvidenceNeedsReview

  datatype Outcome = Accepted(db: Db, answer: Answer) | Refused(why: Refusal)

  // ----- the preview -----

  function Evidence(rider: RiderId, row: Rider, clock: int): Integrity {
    if |row.ledger| > MAX_LEDGER_ROWS then AnalyzeLedger(rider, row.ledger[..MAX_LEDGER_ROWS], true, clock)
    else AnalyzeLedger(rider, row.ledger, false, clock)
  }

  predicate ValidVersion(version: int) {
    0 <= version <= MAX_VERSION
  }

  /** A balance that is there but is no amount of money. */
  predicate Corrupt(wallet: Raw) {
    wallet != Missing && ExactMoney(wallet).None?
  }

  function Compare(stored: Option<int>, target: Option<int>): Option<int> {
    if stored.Some? && target.Some? then Some(target.value - stored.value) else None
  }

  function Classify(verdict: Verdict, sound: bool, adjustment: Option<int>, version: int): Status {
    if verdict == RequiresReview || !sound then NeedsReviewState
    else if verdict == NoEvidence then NoLedgerEvidence
    else if adjustment == Some(0) then Agrees
    else if adjustment.Some? && Abs(adjustment.value) <= 1 then WithinTolerance
    else if version == MAX_VERSION then NeedsReviewState
    else Discrepancy
  }

  function CacheIssues(row: Rider, exhausted: bool): seq<CacheIssue> {
    (if ValidVersion(row.version) then [] else [InvalidVersion])
    + (if Corrupt(row.wallet) then [InvalidBalance] else [])
    + (if exhausted then [VersionExhausted] else [])
  }

  function PreviewOf(rider: RiderId, row: Rider, clock: int): Preview {
    PreviewFrom(rider, row, Evidence(rider, row, clock))
  }

  function PreviewFrom(rider: RiderId, row: Rider, integrity: Integrity): Preview {
    var stored := ExactMoney(row.wallet);
    var adjustment := Compare(stored, integrity.balance);
    var sound := ValidVersion(row.version) && !Corrupt(row.wallet);
    var status := Classify(integrity.verdict, sound, adjustment, row.version);
    var exhausted := status == NeedsReviewState && Classify(integrity.verdict, sound, adjustment, 0) == Discrepancy;
    Preview(status, integrity.balance, stored, adjustment,
            if ValidVersion(row.version) then Some(row.version) else None,
            StatePrint(rider, row.wallet, row.version, integrity.evidence),
            status == Discrepancy, CacheIssues(row, exhausted), integrity)
  }

  // ----- the synchronisation -----

  function Authorize(db: Db, actor: Actor): Option<Refusal> {
    if actor.id !in db.users then Some(Unauthorized)
    else
      var user := db.users[actor.id];
      if !user.active || user.tokenVersion != actor.tokenVersion then Some(Unauthorized)
      else if user.role != SUPERADMIN then Some(Forbidden)
      else None
  }

  predicate Answers(audit: Audit, rider: RiderId, req: Request, actor: Actor) {
    && audit.rider == rider && audit.actor == actor.id
    && audit.reason == req.reason && audit.oldPrint == req.expectedPrint
  }

  /** The newest audit row that the replay query selects. */
  function Newest(audits: seq<Audit>, rider: RiderId, req: Request, actor: Actor): (r: Option<nat>)
    ensures r.Some? ==> r.value < |audits| && Answers(audits[r.value], rider, req, actor)
  {
    if audits == [] then None
    else
      var last := |audits| - 1;
      if Answers(audits[last], rider, req, actor) then Some(last) else Newest(audits[..last], rider, req, actor)
  }

  /** The audit row describes the state that is there now. */
  predicate StillThere(audit: Audit, req: Request, current: Preview) {
    && audit.oldVersion == req.expectedVersion
    && audit.newPrint == current.fingerprint
    && Some(audit.newVersion) == current.version
    && Some(audit.newStored) == current.stored
    && audit.evidence == current.integrity.evidence
    && (audit.oldStored.Some? ==> ExactMoney(Cents(audit.oldStored.value)).Some?)
    && current.status == Agrees
  }

  function Replay(db: Db, rider: RiderId, req: Request, actor: Actor, current: Preview): Outcome {
    var found := Newest(db.audits, rider, req, actor);
    if found.Some? && StillThere(db.audits[found.value], req, current) then
      var audit := db.audits[found.value];
      Accepted(db, Answer(AlreadyApplied, audit.oldStored, audit.newStored, req.expectedVersion, audit.newVersion, found))
    else Refused(StateChanged)
  }

  function AuditOf(rider: RiderId, reason: string, actor: Actor, current: Preview): Audit
    requires current.version.Some? && current.ledgerBalance.Some?
  {
    var target, version, evidence := current.ledgerBalance.value, current.version.value, current.integrity.evidence;
    Audit(actor.id, rider, reason, current.fingerprint, version, current.stored,
          StatePrint(rider, Cents(target), version + 1, evidence), version + 1, target, evidence)
  }

  function Write(db: Db, rider: RiderId, req: Request, actor: Actor, current: Preview): Outcome
    requires rider in db.riders && current.version.Some? && current.ledgerBalance.Some?
  {
    var target, version := current.ledgerBalance.value, current.version.value;
    Accepted(db.(riders := db.riders[rider := db.riders[rider].(wallet := Cents(target), version := version + 1)],
                 audits := db.audits + [AuditOf(rider, req.reason, actor, current)]),
             Answer(Reconciled, current.stored, target, version, version + 1, Some(|db.audits|)))
  }

  /** One call of `apply`, with the rows it locks. */
  function Apply(db: Db, rider: RiderId, req: Request, actor: Actor, clock: int): Outcome {
    var denied := Authorize(db, actor);
    if denied.Some? then Refused(denied.value)
    else if rider !in db.riders then Refused(NotFound)
    else
      var current := PreviewOf(rider, db.riders[rider], clock);
      if current.version != Some(req.expectedVersion) || current.fingerprint != req.expectedPrint then
        Replay(db, rider, req, actor, current)
      else if (current.status == Agrees || current.status == WithinTolerance) && current.stored.Some? then
        Accepted(db, Answer(NoChange, current.stored, current.stored.value,
                            req.expectedVersion, req.expectedVersion, None))
      else if !current.canApply || current.ledgerBalance.None? then Refused(EvidenceNeedsReview)
      else Write(db, rider, req, actor, current)
  }

  function After(db: Db, outcome: Outcome): Db {
    if outcome.Accepted? then outcome.db else db
  }

  // ----- what a preview says -----

  /** The rows a preview reads. */
  function Examined(row: Rider): seq<Entry> {
    if |row.ledger| > MAX_LEDGER_ROWS then row.ledger[..MAX_LEDGER_ROWS] else row.ledger
  }

  ghost predicate Proven(row: Rider, clock: int) {
    GoodEvidence(row.ledger, false, clock) && Chain(row.ledger) != [] && |row.ledger| <= MAX_LEDGER_ROWS
  }

  lemma {:induction false} EvidenceMeaning(rider: RiderId, row: Rider, clock: int)
    ensures var integrity := Evidence(rider, row, clock);
            && (integrity.verdict == Verified <==> Proven(row, clock))
            && (Proven(row, clock) ==>
                  integrity.balance == Some(Booked(row.ledger))
                  && Abs(Booked(row.ledger)) <= MAX_BALANCE)
            && (!Proven(row, clock) ==> integrity.balance == None)
  {
    VerifiedBalanceIsTheSum(rider, row.ledger, false, clock);
    if |row.ledger| > MAX_LEDGER_ROWS {
      VerifiedBalanceIsTheSum(rider, row.ledger[..MAX_LEDGER_ROWS], true, clock);
    }
    if Proven(row, clock) {
      BookedIsTotal(row.ledger, clock);
    }
  }

  /** A version that can be stored, and a balance that is an amount of money or missing. */
  predicate SoundCache(row: Rider) {
    && 0 <= row.version <= 2147483647
    && (row.wallet == Missing || (row.wallet.Cents? && -9_999_999_999 <= row.wallet.cents <= 9_999_999_999))
  }

  /** What a preview says, from the verdict on the evidence and the stored row. */
  lemma {:induction false} PreviewStatus(rider: RiderId, row: Rider, integrity: Integrity)
    requires integrity.verdict == Verified ==> integrity.balance.Some?
    ensures var p, verdict := PreviewFrom(rider, row, integrity), integrity.verdict;
            var off := if integrity.balance.Some? && row.wallet.Cents? then integrity.balance.value - row.wallet.cents else 2;
            var sound := SoundCache(row);
            && (p.status == NoLedgerEvidence <==> sound && verdict == NoEvidence)
            && (p.status == Agrees <==> sound && verdict == Verified && off == 0)
            && (p.status == WithinTolerance <==> sound && verdict == Verified && (off == 1 || off == -1))
            && (p.status == Discrepancy <==> sound && verdict == Verified && (off > 1 || off < -1) && row.version < 2147483647)
            && p.canApply == (p.status == Discrepancy) && p.ledgerBalance == integrity.balance
            && p.stored == (if row.wallet.Cents? && -9_999_999_999 <= row.wallet.cents <= 9_999_999_999 then Some(row.wallet.cents) else None)
            && (p.adjustment.Some? <==> p.ledgerBalance.Some? && p.stored.Some?)
            && (p.adjustment.Some? ==> p.adjustment.value == p.ledgerBalance.value - p.stored.value)
            && p.version == (if 0 <= row.version <= 2147483647 then Some(row.version) else None)
            && p.fingerprint == StatePrint(rider, row.wallet, row.version, integrity.evidence) && p.integrity == integrity
  {
  }

  /** Its issues: a version that cannot be stored, a balance that is no money, and a
      correction that would need one version more than there is. */
  lemma {:induction false} PreviewIssues(rider: RiderId, row: Rider, integrity: Integrity)
    requires integrity.verdict == Verified ==> integrity.balance.Some?
    ensures var issues := PreviewFrom(rider, row, integrity).issues;
            var off := if integrity.balance.Some? && row.wallet.Cents? then integrity.balance.value - row.wallet.cents else 2;
            && (InvalidVersion in issues <==> !(0 <= row.version <= 2147483647))
            && (InvalidBalance in issues <==>
                  row.wallet.Inexact? || (row.wallet.Cents? && !(-9_999_999_999 <= row.wallet.cents <= 9_999_999_999)))
            && (VersionExhausted in issues <==>
                  SoundCache(row) && integrity.verdict == Verified && (off > 1 || off < -1) && row.version == 2147483647)
  {
  }

  /** The cache is offered for correction exactly when the whole ledger is sound
      evidence, the row can take one more version, and the stored balance is missing
      or more than one cent away from the sum of the recorded effects; it agrees
      exactly when it is that sum. */
  lemma {:induction false} PreviewMeaning(rider: RiderId, row: Rider, clock: int)
    ensures var p := PreviewOf(rider, row, clock);
            var sum := Booked(row.ledger);
            && (p.canApply <==> && Proven(row, clock) && 0 <= row.version < MAX_VERSION && !Corrupt(row.wallet)
                                && (row.wallet == Missing || Abs(sum - row.wallet.cents) > 1))
            && (p.status == Agrees <==> Proven(row, clock) && ValidVersion(row.version) && row.wallet == Cents(sum))
            && (p.canApply ==> p.ledgerBalance == Some(sum) && p.version == Some(row.version))
  {
    var integrity := Evidence(rider, row, clock);
    EvidenceMeaning(rider, row, clock);
    assert PreviewOf(rider, row, clock) == PreviewFrom(rider, row, integrity);
    PreviewOfProven(rider, row, integrity, Proven(row, clock), Booked(row.ledger));
  }

  lemma {:induction false} PreviewOfProven(rider: RiderId, row: Rider, integrity: Integrity, proven: bool, sum: int)
    requires integrity.verdict == Verified <==> proven
    requires integrity.balance == if proven then Some(sum) else None
    requires proven ==> -9_999_999_999 <= sum <= 9_999_999_999
    ensures var p := PreviewFrom(rider, row, integrity);
            && (p.canApply <==> && proven && 0 <= row.version < MAX_VERSION && !Corrupt(row.wallet)
                                && (row.wallet == Missing || Abs(sum - row.wallet.cents) > 1))
            && (p.status == Agrees <==> proven && ValidVersion(row.version) && row.wallet == Cents(sum))
            && (p.canApply ==> p.ledgerBalance == Some(sum) && p.version == Some(row.version))
  {
    PreviewStatus(rider, row, integrity);
  }

  // ----- one call -----

  /** A reconciliation writes, and no other call does. */
  lemma {:induction false} OnlyReconciliationWrites(db: Db, rider: RiderId, req: Request, actor: Actor, clock: int)
    ensures var out := Apply(db, rider, req, actor, clock);
            After(db, out) == if out.Accepted? && out.answer.status == Reconciled then out.db else db
  {
  }

  /** Exactly when a call writes. */
  lemma {:induction false} ReconciledIff(db: Db, rider: RiderId, req: Request, actor: Actor, clock: int)
    ensures var out := Apply(db, rider, req, actor, clock);
            out.Accepted? && out.answer.status == Reconciled <==>
            && actor.id in db.users && db.users[actor.id] == User(true, SUPERADMIN, actor.tokenVersion)
            && rider in db.riders
            && PreviewOf(rider, db.riders[rider], clock).fingerprint == req.expectedPrint
            && req.expectedVersion == db.riders[rider].version
            && PreviewOf(rider, db.riders[rider], clock).canApply
  {
  }

  /** What a reconciliation leaves behind: the sum of the ledger in the cache, one
      more version, one audit row, and every other row and every ledger as it was. */
  lemma {:induction false} ReconciliationWrites(db: Db, rider: RiderId, req: Request, actor: Actor, clock: int)
    requires var out := Apply(db, rider, req, actor, clock); out.Accepted? && out.answer.status == Reconciled
    ensures var out := Apply(db, rider, req, actor, clock);
            var row := db.riders[rider];
            var sum, evidence := Booked(row.ledger), Evidence(rider, row, clock).evidence;
            && Proven(row, clock) && 0 <= row.version < MAX_VERSION
            && out.db.riders == db.riders[rider := Rider(Cents(sum), row.version + 1, row.ledger)]
            && out.db.users == db.users
            && |out.db.audits| == |db.audits| + 1 && out.db.audits[..|db.audits|] == db.audits
            && out.db.audits[|db.audits|]
               == Audit(actor.id, rider, req.reason,
                        StatePrint(rider, row.wallet, row.version, evidence), row.version, ExactMoney(row.wallet),
                        StatePrint(rider, Cents(sum), row.version + 1, evidence), row.version + 1, sum, evidence)
            && out.answer == Answer(Reconciled, ExactMoney(row.wallet), sum, row.version, row.version + 1, Some(|db.audits|))
  {
    ReconciledIff(db, rider, req, actor, clock);
    PreviewMeaning(rider, db.riders[rider], clock);
  }

  /** What a call answers otherwise: an account that may not, a rider that is not there, a
      cache that needs no correction, and evidence that does not allow one; each for its
      own cause, and none writes. */
  lemma {:induction false} ApplyAnswers(db: Db, rider: RiderId, req: Request, actor: Actor, clock: int)
    ensures var out := Apply(db, rider, req, actor, clock);
            var known := actor.id in db.users && db.users[actor.id].active && db.users[actor.id].tokenVersion == actor.tokenVersion;
            var may := known && db.users[actor.id].role == SUPERADMIN;
            && (out == Refused(Unauthorized) <==> !known)
            && (out == Refused(Forbidden) <==> known && !may)
            && (out == Refused(NotFound) <==> may && rider !in db.riders)
            && (may && rider in db.riders ==>
                  var row, p := db.riders[rider], PreviewOf(rider, db.riders[rider], clock);
                  var expected := req.expectedVersion == row.version && p.fingerprint == req.expectedPrint && p.version.Some?;
                  var close := (p.status == Agrees || p.status == WithinTolerance) && p.stored.Some?;
                  && (expected && close ==>
                        out == Accepted(db, Answer(NoChange, p.stored, p.stored.value, row.version, row.version, None)))
                  && (out.Accepted? && out.answer.status == NoChange ==> expected && close)
                  && (out == Refused(EvidenceNeedsReview) <==> expected && !close && p.status != Discrepancy))
  {
    if rider in db.riders {
      PreviewMeaning(rider, db.riders[rider], clock);
      EvidenceMeaning(rider, db.riders[rider], clock);
      PreviewStatus(rider, db.riders[rider], Evidence(rider, db.riders[rider], clock));
    }
  }

  lemma {:induction false} ProvenLater(rider: RiderId, row: Rider, clock: int, later: int)
    requires Proven(row, clock) && clock <= later
    ensures Proven(row, later)
    ensures Evidence(rider, row, later) == Evidence(rider, row, clock)
  {
    VerifiedBalanceIsTheSum(rider, row.ledger, false, clock);
    LaterClockSameAnalysis(rider, row.ledger, false, clock, later);
    VerifiedBalanceIsTheSum(rider, row.ledger, false, later);
  }

  lemma {:induction false} WrittenAgrees(rider: RiderId, row: Rider, clock: int, later: int)
    requires Proven(row, clock) && 0 <= row.version < MAX_VERSION && clock <= later
    ensures PreviewOf(rider, Rider(Cents(Booked(row.ledger)), row.version + 1, row.ledger), later).status == Agrees
  {
    var written := Rider(Cents(Booked(row.ledger)), row.version + 1, row.ledger);
    ProvenLater(rider, row, clock, later);
    assert Proven(written, later);
    PreviewMeaning(rider, written, later);
  }

  /** From then on the cache agrees with its ledger, at every later reading of the
      clock, for as long as nobody touches the row. */
  lemma {:induction false} ReconciledAgrees(db: Db, rider: RiderId, req: Request, actor: Actor, clock: int, later: int)
    requires var out := Apply(db, rider, req, actor, clock); out.Accepted? && out.answer.status == Reconciled
    requires clock <= later
    ensures var out := Apply(db, rider, req, actor, clock);
            && rider in out.db.riders
            && PreviewOf(rider, out.db.riders[rider], later).status == Agrees
            && out.db.riders[rider].version <= MAX_VERSION
  {
    ReconciliationWrites(db, rider, req, actor, clock);
    WrittenAgrees(rider, db.riders[rider], clock, later);
  }

  lemma {:induction false} EvidenceCarriesRows(rider: RiderId, row: Rider, clock: int)
    ensures Evidence(rider, row, clock).evidence.entries == Examined(row)
    ensures Evidence(rider, row, clock).evidence.truncated == (|row.ledger| > MAX_LEDGER_ROWS)
    ensures Evidence(rider, row, clock).evidence.verdict == Evidence(rider, row, clock).verdict
  {
  }

  /** What was previewed is what is applied: a request built from an earlier preview
      writes only while wallet, version and ledger are what that preview saw, and
      then writes the balance that it showed. */
  lemma {:induction false} PreviewedIsApplied(rider: RiderId, seen: Rider, seenAt: int, db: Db, req: Request,
                                              actor: Actor, clock: int)
    requires req.expectedPrint == PreviewOf(rider, seen, seenAt).fingerprint
    requires var out := Apply(db, rider, req, actor, clock); out.Accepted? && out.answer.status == Reconciled
    ensures rider in db.riders && db.riders[rider] == seen
    ensures var out := Apply(db, rider, req, actor, clock);
            && PreviewOf(rider, seen, seenAt).ledgerBalance == Some(out.answer.after)
            && PreviewOf(rider, seen, seenAt).stored == out.answer.before
  {
    ReconciledIff(db, rider, req, actor, clock);
    var row := db.riders[rider];
    EvidenceCarriesRows(rider, seen, seenAt);
    EvidenceCarriesRows(rider, row, clock);
    EvidenceMeaning(rider, row, clock);
    EvidenceMeaning(rider, seen, seenAt);
    PreviewMeaning(rider, row, clock);
    assert |row.ledger| <= MAX_LEDGER_ROWS && Examined(row) == row.ledger && Examined(seen) == seen.ledger;
  }

  lemma {:induction false} AgreementIsTheBalance(rider: RiderId, row: Rider, clock: int)
    requires PreviewOf(rider, row, clock).status == Agrees
    ensures |row.ledger| <= MAX_LEDGER_ROWS && ExactMoney(row.wallet) == Some(Opening(rider, row.ledger, clock))
  {
    PreviewMeaning(rider, row, clock);
    EvidenceMeaning(rider, row, clock);
  }

  lemma {:induction false} EvidenceGrows(rider: RiderId, row: Rider, clock: int, id: nat, amount: Raw, kind: Kind,
                                         status: PaymentStatus, entry: Entry, grown: Rider, later: int)
    requires NewEntry(rider, row.ledger, id, amount, kind, status, clock) == Success(entry) && clock <= later
    requires status == PROCESADO || status == PAGADO
    requires entry.createdAt.Some? && entry.createdAt.value <= later + SKEW && grown.ledger == row.ledger + [entry]
    ensures Delta(entry).Some?
    ensures Evidence(rider, grown, later).balance == Some(Opening(rider, row.ledger, clock) + Delta(entry).value)
  {
    WritingKeepsVerified(rider, row.ledger, id, amount, kind, status, clock, entry, later);
  }

  /** A cache that agrees and a new processed entry: the next preview asks for exactly
      the effect of that entry as the adjustment. */
  lemma {:induction false} NewEntryIsTheAdjustment(rider: RiderId, row: Rider, clock: int, id: nat, amount: Raw,
                                                   kind: Kind,
                                                   status: PaymentStatus, entry: Entry, grown: Rider, later: int)
    requires PreviewOf(rider, row, clock).status == Agrees && clock <= later
    requires NewEntry(rider, row.ledger, id, amount, kind, status, clock) == Success(entry)
    requires status == PROCESADO || status == PAGADO
    requires entry.createdAt.Some? && entry.createdAt.value <= later + SKEW
    requires grown == row.(ledger := row.ledger + [entry])
    ensures amount.Cents? && PreviewOf(rider, grown, later).adjustment == Some(Effect(kind, amount.cents))
  {
    WrittenEffect(rider, row.ledger, id, amount, kind, status, clock, entry);
    AgreementIsTheBalance(rider, row, clock);
    EvidenceGrows(rider, row, clock, id, amount, kind, status, entry, grown, later);
  }

  // ----- runs -----

  /** A step of the system: a synchronisation, a change to an account, or any other
      writer of a rider row and its ledger. */
  datatype Step =
    | Sync(rider: RiderId, req: Request, actor: Actor, clock: int)
    | SetUser(user: UserId, account: User)
    | WriteRider(id: RiderId, row: Rider)

  function Apply1(db: Db, step: Step): Db {
    match step
    case Sync(rider, req, actor, clock) => After(db, Apply(db, rider, req, actor, clock))
    case SetUser(user, account) => db.(users := db.users[user := account])
    case WriteRider(id, row) => db.(riders := db.riders[id := row])
  }

  /** Other writers never lower a version. */
  predicate NeverLowers(db: Db, step: Step) {
    step.WriteRider? && step.id in db.riders ==> db.riders[step.id].version <= step.row.version
  }

  function Run(db: Db, steps: seq<Step>): Db {
    if steps == [] then db else Apply1(Run(db, steps[..|steps| - 1]), steps[|steps| - 1])
  }

  predicate Fair(db: Db, steps: seq<Step>) {
    if steps == [] then true
    else
      var n := |steps| - 1;
      Fair(db, steps[..n]) && NeverLowers(Run(db, steps[..n]), steps[n])
  }

  /** An audit row is about a version the rider has left for good. */
  ghost predicate Past(db: Db, a: Audit) {
    && a.rider in db.riders && a.oldVersion < db.riders[a.rider].version
    && a.oldPrint.version == a.oldVersion
  }

  /** No two audit rows are about the same version of a rider, and newer rows about newer ones. */
  ghost predicate Ledgered(db: Db) {
    && (forall i :: 0 <= i < |db.audits| ==> Past(db, db.audits[i]))
    && (forall i, j :: 0 <= i < j < |db.audits| && db.audits[i].rider == db.audits[j].rider ==>
          db.audits[i].oldVersion < db.audits[j].oldVersion)
  }

  lemma {:induction false} SyncKeepsLedgered(db: Db, rider: RiderId, req: Request, actor: Actor, clock: int)
    requires Ledgered(db)
    ensures Ledgered(After(db, Apply(db, rider, req, actor, clock)))
  {
  }

  lemma {:induction false} StepKeepsLedgered(db: Db, step: Step)
    requires Ledgered(db) && NeverLowers(db, step)
    ensures Ledgered(Apply1(db, step))
    ensures |db.audits| <= |Apply1(db, step).audits| && Apply1(db, step).audits[..|db.audits|] == db.audits
  {
    match step
    case Sync(rider, req, actor, clock) =>
      SyncKeepsLedgered(db, rider, req, actor, clock);
    case SetUser(user, account) =>
      assert forall a :: Past(db, a) ==> Past(Apply1(db, step), a);
    case WriteRider(id, row) =>
      assert forall a :: Past(db, a) ==> Past(Apply1(db, step), a);
  }

  lemma {:induction false} RunKeepsLedgered(db: Db, steps: seq<Step>)
    requires Ledgered(db) && Fair(db, steps)
    ensures Ledgered(Run(db, steps))
    ensures |db.audits| <= |Run(db, steps).audits| && Run(db, steps).audits[..|db.audits|] == db.audits
  {
    if steps != [] {
      var n := |steps| - 1;
      var mid := Run(db, steps[..n]);
      RunKeepsLedgered(db, steps[..n]);
      StepKeepsLedgered(mid, steps[n]);
      var last := Run(db, steps);
      assert last.audits[..|db.audits|] == last.audits[..|mid.audits|][..|db.audits|];
    }
  }

  /** However many calls, actors and other writers are mixed, a version of a rider is
      reconciled at most once: two audit rows of the same rider are about different versions. */
  lemma {:induction false} AtMostOncePerVersion(db: Db, steps: seq<Step>, i: nat, j: nat)
    requires db.audits == [] && Fair(db, steps)
    requires i < j < |Run(db, steps).audits|
    ensures var audits := Run(db, steps).audits;
            audits[i].rider == audits[j].rider ==> audits[i].oldVersion < audits[j].oldVersion
  {
    RunKeepsLedgered(db, steps);
  }

  /** The other writers of a run change one account, or one rider, and nothing else. */
  lemma {:induction false} OtherWriters(db: Db, user: UserId, account: User, id: RiderId, row: Rider)
    ensures var after := Apply1(db, SetUser(user, account));
            after == Db(db.users[user := account], db.riders, db.audits)
    ensures var after := Apply1(db, WriteRider(id, row));
            after == Db(db.users, db.riders[id := row], db.audits)
  {
  }

  // ----- every version has its audit row -----

  function AuditsAbout(audits: seq<Audit>, rider: RiderId): nat {
    if audits == [] then 0
    else AuditsAbout(audits[..|audits| - 1], rider) + if audits[|audits| - 1].rider == rider then 1 else 0
  }

  /** From one state to a later one: the ledger is the same, every new version has an
      audit row, and without one the row is the same. */
  ghost predicate Accounts(before: Db, after: Db, rider: RiderId)
    requires rider in before.riders
  {
    && rider in after.riders && after.riders[rider].ledger == before.riders[rider].ledger
    && after.riders[rider].version - before.riders[rider].version
       == AuditsAbout(after.audits, rider) - AuditsAbout(before.audits, rider)
    && before.riders[rider].version <= after.riders[rider].version
    && (after.riders[rider].version == before.riders[rider].version ==> after.riders[rider] == before.riders[rider])
  }

  lemma {:induction false} SyncAccounts(db: Db, rider: RiderId, req: Request, actor: Actor, clock: int, id: RiderId)
    requires id in db.riders
    ensures Accounts(db, After(db, Apply(db, rider, req, actor, clock)), id)
  {
    var out := Apply(db, rider, req, actor, clock);
    if After(db, out) != db {
      OnlyReconciliationWrites(db, rider, req, actor, clock);
      ReconciliationWrites(db, rider, req, actor, clock);
      WrittenAudit(db, rider, req, actor, clock);
      assert out.db.audits[..|db.audits|] == db.audits;
    }
  }

  /** Conservation: while only the service writes rider rows, a row gains exactly one
      version per audit row about it, its ledger stays, and a row without a new audit
      row is untouched. */
  lemma {:induction false} EveryVersionIsAudited(db: Db, steps: seq<Step>, rider: RiderId)
    requires rider in db.riders && forall i :: 0 <= i < |steps| ==> !steps[i].WriteRider?
    ensures Accounts(db, Run(db, steps), rider)
  {
    if steps != [] {
      var n := |steps| - 1;
      EveryVersionIsAudited(db, steps[..n], rider);
      var step := steps[n];
      if step.Sync? {
        SyncAccounts(Run(db, steps[..n]), step.rider, step.req, step.actor, step.clock, rider);
      }
    }
  }

  /** With such a log the replay query can select one row at most, so its order does not matter. */
  lemma {:induction false} OneRowAnswers(db: Db, rider: RiderId, req: Request, actor: Actor, i: nat)
    requires Ledgered(db) && i < |db.audits| && Answers(db.audits[i], rider, req, actor)
    ensures Newest(db.audits, rider, req, actor) == Some(i)
  {
    forall j | 0 <= j < |db.audits| && j != i ensures !Answers(db.audits[j], rider, req, actor) {
      assert Past(db, db.audits[i]) && Past(db, db.audits[j]);
    }
    NewestIsTheOnly(db.audits, rider, req, actor, i);
  }

  lemma {:induction false} NewestIsTheOnly(audits: seq<Audit>, rider: RiderId, req: Request, actor: Actor, i: nat)
    requires i < |audits| && Answers(audits[i], rider, req, actor)
    requires forall j :: 0 <= j < |audits| && j != i ==> !Answers(audits[j], rider, req, actor)
    ensures Newest(audits, rider, req, actor) == Some(i)
  {
    var last := |audits| - 1;
    if i < last {
      NewestIsTheOnly(audits[..last], rider, req, actor, i);
    }
  }

  /** A lost response can be asked for again: after a reconciliation and any number of
      further steps that leave this rider's row and this actor's authorization as they
      were, the same request is answered with the same balances, versions and audit
      row, and writes nothing. */
  lemma {:induction false} ReplayAnswersTheSame(db: Db, rider: RiderId, req: Request, actor: Actor, clock: int,
                                                steps: seq<Step>, later: int)
    requires Ledgered(db) && clock <= later
    requires var out := Apply(db, rider, req, actor, clock);
             && out.Accepted? && out.answer.status == Reconciled && Fair(out.db, steps)
             && rider in Run(out.db, steps).riders && Run(out.db, steps).riders[rider] == out.db.riders[rider]
             && Authorize(Run(out.db, steps), actor) == None
    ensures var out := Apply(db, rider, req, actor, clock);
            var db2 := Run(out.db, steps);
            Apply(db2, rider, req, actor, later) == Accepted(db2, out.answer.(status := AlreadyApplied))
  {
    var out := Apply(db, rider, req, actor, clock);
    var db2, i := Run(out.db, steps), |db.audits|;
    var row := db.riders[rider];
    SyncKeepsLedgered(db, rider, req, actor, clock);
    RunKeepsLedgered(out.db, steps);
    ReconciledIff(db, rider, req, actor, clock);
    ReconciliationWrites(db, rider, req, actor, clock);
    ReconciledAgrees(db, rider, req, actor, clock, later);
    var audit := AuditOf(rider, req.reason, actor, PreviewOf(rider, row, clock));
    WrittenAudit(db, rider, req, actor, clock);
    assert db2.audits[i] == db2.audits[..|out.db.audits|][i] == audit;
    OneRowAnswers(db2, rider, req, actor, i);
    RowStillThere(db, rider, req, actor, clock, later);
  }

  lemma {:induction false} WrittenAudit(db: Db, rider: RiderId, req: Request, actor: Actor, clock: int)
    requires var out := Apply(db, rider, req, actor, clock); out.Accepted? && out.answer.status == Reconciled
    ensures rider in db.riders
    ensures var out := Apply(db, rider, req, actor, clock);
            var current := PreviewOf(rider, db.riders[rider], clock);
            && current.version == Some(db.riders[rider].version) && current.ledgerBalance.Some?
            && out.db.audits == db.audits + [AuditOf(rider, req.reason, actor, current)]
            && Answers(AuditOf(rider, req.reason, actor, current), rider, req, actor)
  {
  }

  lemma {:induction false} RowStillThere(db: Db, rider: RiderId, req: Request, actor: Actor, clock: int, later: int)
    requires var out := Apply(db, rider, req, actor, clock); out.Accepted? && out.answer.status == Reconciled
    requires clock <= later && rider in db.riders
    requires PreviewOf(rider, db.riders[rider], clock).version.Some?
    requires PreviewOf(rider, db.riders[rider], clock).ledgerBalance.Some?
    requires rider in Apply(db, rider, req, actor, clock).db.riders
    ensures var out := Apply(db, rider, req, actor, clock);
            StillThere(AuditOf(rider, req.reason, actor, PreviewOf(rider, db.riders[rider], clock)), req,
                       PreviewOf(rider, out.db.riders[rider], later))
  {
    var row := db.riders[rider];
    var written := Rider(Cents(Booked(row.ledger)), row.version + 1, row.ledger);
    ReconciledIff(db, rider, req, actor, clock);
    ReconciliationWrites(db, rider, req, actor, clock);
    ReconciledAgrees(db, rider, req, actor, clock, later);
    ProvenLater(rider, row, clock, later);
    EvidenceMeaning(rider, row, clock);
    assert Evidence(rider, written, later) == Evidence(rider, row, later);
  }

  /** The audit row of the same request by the same actor, and a row of the rider that
      is exactly what it wrote and still agrees with the ledger. */
  ghost predicate Backs(audit: Audit, rider: RiderId, req: Request, actor: Actor, row: Rider, clock: int) {
    var evidence := Evidence(rider, row, clock).evidence;
    && audit.rider == rider && audit.actor == actor.id && audit.reason == req.reason
    && audit.oldPrint == req.expectedPrint && audit.oldVersion == req.expectedVersion
    && row.wallet == Cents(audit.newStored) && row.version == audit.newVersion
    && audit.newPrint == StatePrint(rider, row.wallet, row.version, evidence) && audit.evidence == evidence
    && (audit.oldStored.Some? ==> -9_999_999_999 <= audit.oldStored.value <= 9_999_999_999)
    && Proven(row, clock) && 0 <= row.version <= 2147483647 && row.wallet == Cents(Booked(row.ledger))
  }

  lemma {:induction false} BackedIff(audit: Audit, rider: RiderId, req: Request, actor: Actor, row: Rider, clock: int)
    ensures Backs(audit, rider, req, actor, row, clock) <==>
            Answers(audit, rider, req, actor) && StillThere(audit, req, PreviewOf(rider, row, clock))
  {
    PreviewMeaning(rider, row, clock);
    EvidenceMeaning(rider, row, clock);
    PreviewStatus(rider, row, Evidence(rider, row, clock));
  }

  /** A call is answered as already applied only when this actor did apply it: the
      answer is that of an audit row of the same request, and the cache is still what
      it wrote. */
  lemma {:induction false} AlreadyAppliedIsTrue(db: Db, rider: RiderId, req: Request, actor: Actor, clock: int)
    requires var out := Apply(db, rider, req, actor, clock); out.Accepted? && out.answer.status == AlreadyApplied
    ensures var out := Apply(db, rider, req, actor, clock);
            && out.db == db && out.answer.audit.Some? && out.answer.audit.value < |db.audits| && rider in db.riders
            && var audit := db.audits[out.answer.audit.value];
               && Backs(audit, rider, req, actor, db.riders[rider], clock)
               && out.answer == Answer(AlreadyApplied, audit.oldStored, Booked(db.riders[rider].ledger),
                                       audit.oldVersion, db.riders[rider].version, out.answer.audit)
  {
    PreviewMeaning(rider, db.riders[rider], clock);
    BackedIff(db.audits[Apply(db, rider, req, actor, clock).answer.audit.value], rider, req, actor, db.riders[rider], clock);
  }

  /** With a log of the kind every run keeps, a call is answered as already applied
      exactly when the state is not the expected one and some audit row of the same
      request describes what is there; a mismatch without such a row is refused. */
  lemma {:induction false} AlreadyAppliedIff(db: Db, rider: RiderId, req: Request, actor: Actor, clock: int)
    requires Ledgered(db) && Authorize(db, actor) == None && rider in db.riders
    ensures var out, current := Apply(db, rider, req, actor, clock), PreviewOf(rider, db.riders[rider], clock);
            var expected := current.version == Some(req.expectedVersion) && current.fingerprint == req.expectedPrint;
            var applied := exists i :: 0 <= i < |db.audits| && Backs(db.audits[i], rider, req, actor, db.riders[rider], clock);
            && (out.Accepted? && out.answer.status == AlreadyApplied <==> !expected && applied)
            && (out == Refused(StateChanged) <==> !expected && !applied)
  {
    var row := db.riders[rider];
    forall i | 0 <= i < |db.audits|
      ensures Backs(db.audits[i], rider, req, actor, row, clock) ==> Newest(db.audits, rider, req, actor) == Some(i)
      ensures Backs(db.audits[i], rider, req, actor, row, clock) <==>
              Answers(db.audits[i], rider, req, actor) && StillThere(db.audits[i], req, PreviewOf(rider, row, clock))
    {
      BackedIff(db.audits[i], rider, req, actor, row, clock);
      if Answers(db.audits[i], rider, req, actor) {
        OneRowAnswers(db, rider, req, actor, i);
      }
    }
  }

  // ----- the service -----

  class CacheReconciliationService {
    var users: map<UserId, User>
    var riders: map<RiderId, Rider>
    var audits: seq<Audit>

    constructor (users: map<UserId, User>, riders: map<RiderId, Rider>)
      ensures State() == Db(users, riders, [])
    {
      this.users, this.riders, this.audits := users, riders, [];
    }

    ghost function State(): Db
      reads this
    {
      Db(users, riders, audits)
    }

    method NewestAnswer(rider: RiderId, req: Request, actor: Actor) returns (r: Option<nat>)
      ensures r == Newest(audits, rider, req, actor)
    {
      var i := |audits|;
      assert audits[..i] == audits;
      while i > 0
        invariant 0 <= i <= |audits|
        invariant Newest(audits, rider, req, actor) == Newest(audits[..i], rider, req, actor)
      {
        assert audits[..i][..i - 1] == audits[..i - 1];
        if Answers(audits[i - 1], rider, req, actor) {
          return Some(i - 1);
        }
        i := i - 1;
      }
      return None;
    }

    /** Synchronise one cached balance; a refusal rolls everything back. */
    method Synchronize(rider: RiderId, req: Request, actor: Actor, clock: int) returns (r: Result<Answer, Refusal>)
      modifies this
      ensures State() == After(old(State()), Apply(old(State()), rider, req, actor, clock))
      ensures r == match Apply(old(State()), rider, req, actor, clock)
                   case Accepted(_, answer) => Success(answer)
                   case Refused(why) => Failure(why)
    {
      if actor.id !in users || !users[actor.id].active || users[actor.id].tokenVersion != actor.tokenVersion {
        return Failure(Unauthorized);
      }
      if users[actor.id].role != SUPERADMIN {
        return Failure(Forbidden);
      }
      if rider !in riders {
        return Failure(NotFound);
      }
      var current := PreviewOf(rider, riders[rider], clock);
      if current.version != Some(req.expectedVersion) || current.fingerprint != req.expectedPrint {
        var found := NewestAnswer(rider, req, actor);
        if found.Some? && StillThere(audits[found.value], req, current) {
          var audit := audits[found.value];
          return Success(Answer(AlreadyApplied, audit.oldStored, audit.newStored, req.expectedVersion, audit.newVersion, found));
        }
        return Failure(StateChanged);
      }
      if (current.status == Agrees || current.status == WithinTolerance) && current.stored.Some? {
        return Success(Answer(NoChange, current.stored, current.stored.value, req.expectedVersion, req.expectedVersion, None));
      }
      if !current.canApply || current.ledgerBalance.None? {
        return Failure(EvidenceNeedsReview);
      }
      var target, version := current.ledgerBalance.value, current.version.value;
      var id := |audits|;
      riders := riders[rider := riders[rider].(wallet := Cents(target), version := version + 1)];
      audits := audits + [AuditOf(rider, req.reason, actor, current)];
      return Success(Answer(Reconciled, current.stored, target, version, version + 1, Some(id)));
    }
  }
}
