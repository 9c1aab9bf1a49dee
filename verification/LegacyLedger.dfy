/**
 The recorded chain of financial entries (backend/app/services/legacy_ledger.py):
 one pass that collects issues, and a balance that is reported only when there are
 none. Amounts are in cents and times in microseconds.
 */
module LegacyLedger {
  import opened Wrappers

  const MAX_BALANCE := 9_999_999_999
  const MAX_ISSUES := 50
  const SKEW := 5_000_000

  /** What a numeric column holds: nothing, something that is no whole number of cents, or cents. */
  datatype Raw = Missing | Inexact(text: string) | Cents(cents: int)

  datatype Kind =
    | PAGO_ENTREGA | PAGO_INTENTO_FALLIDO | BONO_RENDIMIENTO | INGRESO | BONO
    | PENALIZACION | RETIRO | AJUSTE_MANUAL | DESCUENTO
    | AJUSTE
    | UnsupportedKind

  datatype PaymentStatus = PENDIENTE | PROCESADO | PAGADO | RECHAZADO | UnknownStatus

  datatype Entry = Entry(
    id: nat, amount: Raw, before: Raw, after: Raw, kind: Kind, status: PaymentStatus, createdAt: Option<int>)

  datatype Code =
    | RowLimitExceeded | UnknownPaymentStatus | MissingTimestamp | FutureTimestamp | DisorderedTimestamp
    | InvalidAmount | InvalidSnapshot | UnsupportedType | UnverifiedOpening | ChainDiscontinuity | ArithmeticMismatch

  datatype Issue = Issue(code: Code, entry: Option<nat>)

  datatype Verdict = Verified | RequiresReview | NoEvidence

  /** The digest of the evidence, taken as the evidence itself. */
  datatype LedgerPrint = LedgerPrint(
    rider: nat, truncated: bool, entries: seq<Entry>, verdict: Verdict, issueCount: nat, issues: seq<Issue>)

  datatype Integrity = Integrity(
    verdict: Verdict, examined: nat, processed: nat, ignored: nat, truncated: bool,
    issueCount: nat, issues: seq<Issue>, balance: Option<int>, latest: Option<nat>, evidence: LedgerPrint)

  function Abs(x: int): nat {
    if x < 0 then -x else x
  }

  function ExactMoney(raw: Raw): Option<int> {
    match raw
    case Cents(c) => if Abs(c) <= MAX_BALANCE then Some(c) else None
    case _ => None
  }

  predicate IsCredit(kind: Kind) {
    kind == PAGO_ENTREGA || kind == PAGO_INTENTO_FALLIDO || kind == BONO_RENDIMIENTO || kind == INGRESO || kind == BONO
  }

  predicate IsDebit(kind: Kind) {
    kind == PENALIZACION || kind == RETIRO || kind == AJUSTE_MANUAL || kind == DESCUENTO
  }

  predicate IsProcessed(row: Entry) {
    row.status == PROCESADO || row.status == PAGADO
  }

  predicate IsUnprocessed(row: Entry) {
    row.status == PENDIENTE || row.status == RECHAZADO
  }

  /** The signed effect of an entry, when its amount and kind say one. */
  function Delta(row: Entry): Option<int> {
    match ExactMoney(row.amount)
    case None => None
    case Some(amount) =>
      var size: int := Abs(amount);
      if IsCredit(row.kind) then Some(size)
      else if IsDebit(row.kind) then Some(-size)
      else if row.kind == AJUSTE then Some(amount)
      else None
  }

  // ----- the pass -----

  datatype Scan = Scan(
    processed: nat, ignored: nat, running: int, previous: Option<int>, latest: Option<nat>, issues: seq<Issue>)

  function When(condition: bool, code: Code, row: Entry): seq<Issue> {
    if condition then [Issue(code, Some(row.id))] else []
  }

  function StampIssues(previous: Option<int>, row: Entry, clock: int): seq<Issue> {
    When(row.createdAt.None?, MissingTimestamp, row)
    + When(row.createdAt.Some? && row.createdAt.value > clock + SKEW, FutureTimestamp, row)
    + When(row.createdAt.Some? && previous.Some? && row.createdAt.value <= previous.value, DisorderedTimestamp, row)
  }

  function FormIssues(row: Entry): seq<Issue> {
    When(ExactMoney(row.amount).None? || ExactMoney(row.amount).value == 0, InvalidAmount, row)
    + When(ExactMoney(row.before).None? || ExactMoney(row.after).None?, InvalidSnapshot, row)
    + When(!IsCredit(row.kind) && !IsDebit(row.kind) && row.kind != AJUSTE, UnsupportedType, row)
  }

  function BalanceIssues(first: bool, running: int, row: Entry): seq<Issue> {
    var before, after, delta := ExactMoney(row.before), ExactMoney(row.after), Delta(row);
    When(before.Some? && before.value != running, if first then UnverifiedOpening else ChainDiscontinuity, row)
    + When(delta.Some? && before.Some? && after.Some? && after.value != before.value + delta.value, ArithmeticMismatch, row)
  }

  /** The issues of one processed row, in the order in which they are raised. */
  function RowIssues(first: bool, running: int, previous: Option<int>, row: Entry, clock: int): seq<Issue> {
    StampIssues(previous, row, clock) + FormIssues(row) + BalanceIssues(first, running, row)
  }

  function ScanRow(s: Scan, row: Entry, clock: int): Scan {
    if IsUnprocessed(row) then s.(ignored := s.ignored + 1)
    else if !IsProcessed(row) then s.(issues := s.issues + [Issue(UnknownPaymentStatus, Some(row.id))])
    else
      Scan(s.processed + 1, s.ignored,
           if ExactMoney(row.after).Some? then ExactMoney(row.after).value else s.running,
           if row.createdAt.Some? then row.createdAt else s.previous,
           Some(row.id),
           s.issues + RowIssues(s.processed == 0, s.running, s.previous, row, clock))
  }

  function ScanAll(entries: seq<Entry>, truncated: bool, clock: int): Scan {
    if entries == [] then
      Scan(0, 0, 0, None, None, if truncated then [Issue(RowLimitExceeded, None)] else [])
    else
      ScanRow(ScanAll(entries[..|entries| - 1], truncated, clock), entries[|entries| - 1], clock)
  }

  function FirstIssues(issues: seq<Issue>): seq<Issue> {
    if |issues| <= MAX_ISSUES then issues else issues[..MAX_ISSUES]
  }

  function Conclude(rider: nat, entries: seq<Entry>, truncated: bool, s: Scan): Integrity {
    var verdict := if s.issues != [] then RequiresReview else if s.processed > 0 then Verified else NoEvidence;
    Integrity(verdict, |entries|, s.processed, s.ignored, truncated, |s.issues|, FirstIssues(s.issues),
              if verdict == Verified then Some(s.running) else None, s.latest,
              LedgerPrint(rider, truncated, entries, verdict, |s.issues|, FirstIssues(s.issues)))
  }

  function AnalyzeLedger(rider: nat, entries: seq<Entry>, truncated: bool, clock: int): Integrity {
    Conclude(rider, entries, truncated, ScanAll(entries, truncated, clock))
  }

  // ----- what the verdict means -----

  /** The entries that move the balance. */
  function Chain(entries: seq<Entry>): seq<Entry> {
    if entries == [] then []
    else
      var row := entries[|entries| - 1];
      Chain(entries[..|entries| - 1]) + if IsProcessed(row) then [row] else []
  }

  function TotalDelta(chain: seq<Entry>): int {
    if chain == [] then 0
    else
      var row := chain[|chain| - 1];
      TotalDelta(chain[..|chain| - 1]) + if Delta(row).Some? then Delta(row).value else 0
  }

  ghost predicate KnownStatuses(entries: seq<Entry>) {
    forall i :: 0 <= i < |entries| ==> IsProcessed(entries[i]) || IsUnprocessed(entries[i])
  }

  /** A row is arithmetically sound by itself. */
  ghost predicate SoundRow(row: Entry, clock: int) {
    && row.createdAt.Some? && row.createdAt.value <= clock + SKEW
    && Delta(row).Some? && Delta(row).value != 0
    && ExactMoney(row.before).Some? && ExactMoney(row.after).Some?
    && ExactMoney(row.after).value == ExactMoney(row.before).value + Delta(row).value
  }

  /** A row starts where the one before it ended, at a later time. */
  ghost predicate Follows(earlier: Entry, row: Entry) {
    && ExactMoney(row.before) == ExactMoney(earlier.after)
    && earlier.createdAt.Some? && row.createdAt.Some? && earlier.createdAt.value < row.createdAt.value
  }

  ghost predicate LinkedAt(chain: seq<Entry>, i: nat)
    requires i < |chain|
  {
    if i == 0 then ExactMoney(chain[i].before) == Some(0) else Follows(chain[i - 1], chain[i])
  }

  /** Sound rows; the chain opens at zero and every entry follows the one before. */
  ghost predicate SoundChain(chain: seq<Entry>, clock: int) {
    forall i :: 0 <= i < |chain| ==> SoundRow(chain[i], clock) && LinkedAt(chain, i)
  }

  ghost predicate GoodEvidence(entries: seq<Entry>, truncated: bool, clock: int) {
    !truncated && KnownStatuses(entries) && SoundChain(Chain(entries), clock)
  }

  lemma {:induction false} RowIssuesNone(first: bool, running: int, previous: Option<int>, row: Entry, clock: int)
    ensures RowIssues(first, running, previous, row, clock) == [] <==>
            && SoundRow(row, clock) && ExactMoney(row.before) == Some(running)
            && (previous.Some? ==> row.createdAt.value > previous.value)
  {
  }

  lemma {:induction false} LinkExtends(chain: seq<Entry>, row: Entry, i: nat)
    requires i <= |chain|
    ensures i < |chain| ==> LinkedAt(chain + [row], i) == LinkedAt(chain, i)
    ensures i == |chain| ==> LinkedAt(chain + [row], i) == JoinsOn(chain, row)
  {
  }

  /** The row continues the chain. */
  ghost predicate JoinsOn(chain: seq<Entry>, row: Entry) {
    if chain == [] then ExactMoney(row.before) == Some(0) else Follows(chain[|chain| - 1], row)
  }

  lemma {:induction false} SoundChainExtends(chain: seq<Entry>, row: Entry, clock: int)
    ensures SoundChain(chain + [row], clock) <==>
            SoundChain(chain, clock) && SoundRow(row, clock) && JoinsOn(chain, row)
  {
    var all := chain + [row];
    if SoundChain(all, clock) {
      forall i | 0 <= i < |chain| ensures SoundRow(chain[i], clock) && LinkedAt(chain, i) {
        assert SoundRow(all[i], clock) && LinkedAt(all, i);
        LinkExtends(chain, row, i);
      }
      assert SoundRow(all[|chain|], clock) && LinkedAt(all, |chain|);
      LinkExtends(chain, row, |chain|);
    }
    if SoundChain(chain, clock) && SoundRow(row, clock) && JoinsOn(chain, row) {
      forall i | 0 <= i < |all| ensures SoundRow(all[i], clock) && LinkedAt(all, i) {
        LinkExtends(chain, row, i);
        if i < |chain| {
          assert SoundRow(chain[i], clock) && LinkedAt(chain, i);
        }
      }
    }
  }

  lemma {:induction false} TotalDeltaExtends(chain: seq<Entry>, row: Entry)
    ensures TotalDelta(chain + [row]) == TotalDelta(chain) + if Delta(row).Some? then Delta(row).value else 0
  {
  }

  /** What the pass carries along after some entries: no issue exactly for good
      evidence, and then the end of the chain and the sum of all its signed effects. */
  ghost predicate Tracks(s: Scan, entries: seq<Entry>, truncated: bool, clock: int) {
    && (s.issues == [] <==> GoodEvidence(entries, truncated, clock))
    && s.processed == |Chain(entries)|
    && (s.issues == [] ==> s.running == TotalDelta(Chain(entries)) && EndsAt(s, Chain(entries)))
  }

  ghost predicate EndsAt(s: Scan, chain: seq<Entry>) {
    if chain == [] then s.previous == None && s.running == 0
    else
      var last := chain[|chain| - 1];
      last.createdAt.Some? && s.previous == last.createdAt && ExactMoney(last.after) == Some(s.running)
  }

  lemma {:induction false} ProcessedRowTracks(s: Scan, chain: seq<Entry>, row: Entry, clock: int)
    requires IsProcessed(row) && s.processed == |chain|
    requires s.issues == [] ==> SoundChain(chain, clock) && s.running == TotalDelta(chain) && EndsAt(s, chain)
    ensures var s' := ScanRow(s, row, clock);
            && (s'.issues == [] <==> s.issues == [] && SoundChain(chain + [row], clock))
            && (s'.issues == [] ==> s'.running == TotalDelta(chain + [row]) && EndsAt(s', chain + [row]))
  {
    var s' := ScanRow(s, row, clock);
    RowIssuesNone(s.processed == 0, s.running, s.previous, row, clock);
    SoundChainExtends(chain, row, clock);
    TotalDeltaExtends(chain, row);
    assert s'.issues == [] <==> s.issues == [] && RowIssues(s.processed == 0, s.running, s.previous, row, clock) == [];
  }

  lemma {:induction false} ScanTracks(entries: seq<Entry>, truncated: bool, clock: int)
    ensures Tracks(ScanAll(entries, truncated, clock), entries, truncated, clock)
  {
    if entries != [] {
      var init, row := entries[..|entries| - 1], entries[|entries| - 1];
      ScanTracks(init, truncated, clock);
      StatusesExtend(entries);
      if IsProcessed(row) {
        ProcessedRowTracks(ScanAll(init, truncated, clock), Chain(init), row, clock);
        SoundChainExtends(Chain(init), row, clock);
      } else {
        assert Chain(init) + [] == Chain(init);
      }
    }
  }

  lemma {:induction false} StatusesExtend(entries: seq<Entry>)
    requires entries != []
    ensures KnownStatuses(entries) <==>
            KnownStatuses(entries[..|entries| - 1])
            && (IsProcessed(entries[|entries| - 1]) || IsUnprocessed(entries[|entries| - 1]))
  {
  }

  /** Verified means good evidence with at least one entry, and the balance is then
      the sum of every signed effect recorded, within range. */
  lemma {:induction false} VerifiedBalanceIsTheSum(rider: nat, entries: seq<Entry>, truncated: bool, clock: int)
    ensures var a := AnalyzeLedger(rider, entries, truncated, clock);
            && (a.verdict == Verified <==> GoodEvidence(entries, truncated, clock) && Chain(entries) != [])
            && (a.verdict == NoEvidence <==> GoodEvidence(entries, truncated, clock) && Chain(entries) == [])
            && (a.verdict == Verified ==>
                  a.balance == Some(TotalDelta(Chain(entries))) && Abs(a.balance.value) <= MAX_BALANCE)
            && (a.verdict != Verified ==> a.balance == None)
  {
    ScanTracks(entries, truncated, clock);
  }

  /** Evidence that is good now stays good: later readings of the clock change nothing. */
  lemma {:induction false} LaterClockSameAnalysis(rider: nat, entries: seq<Entry>, truncated: bool, clock: int,
                                                  later: int)
    requires clock <= later && AnalyzeLedger(rider, entries, truncated, clock).verdict != RequiresReview
    ensures AnalyzeLedger(rider, entries, truncated, later) == AnalyzeLedger(rider, entries, truncated, clock)
  {
    LaterClockSameScan(entries, truncated, clock, later);
  }

  lemma {:induction false} LaterClockSameScan(entries: seq<Entry>, truncated: bool, clock: int, later: int)
    requires clock <= later && ScanAll(entries, truncated, clock).issues == []
    ensures ScanAll(entries, truncated, later) == ScanAll(entries, truncated, clock)
  {
    if entries != [] {
      var init, row := entries[..|entries| - 1], entries[|entries| - 1];
      var s := ScanAll(init, truncated, clock);
      LaterClockSameScan(init, truncated, clock, later);
      RowIssuesNone(s.processed == 0, s.running, s.previous, row, clock);
      RowIssuesNone(s.processed == 0, s.running, s.previous, row, later);
    }
  }

  // ----- one more entry (backend/app/services/financial_service.py, lines 249-448) -----

  const MAX_LEDGER_ROWS := 10_000

  datatype WriteError = InvalidEntry | HistoryFull | Chronology | NeedsReview | OutOfRange

  function LatestStamp(entries: seq<Entry>): Option<int> {
    if entries == [] then None
    else
      var before := LatestStamp(entries[..|entries| - 1]);
      var stamp := entries[|entries| - 1].createdAt;
      if stamp.None? then before
      else if before.None? || before.value < stamp.value then stamp
      else before
  }

  /** The time of a new entry: the clock, or just after the latest entry when the clock lags it by at most the skew. */
  function EntryStamp(entries: seq<Entry>, clock: int): Result<int, WriteError> {
    var latest := LatestStamp(entries);
    if latest.None? || clock > latest.value then Success(clock)
    else if latest.value - clock > SKEW then Failure(Chronology)
    else Success(latest.value + 1)
  }

  predicate Supported(kind: Kind) {
    IsCredit(kind) || IsDebit(kind) || kind == AJUSTE
  }

  /** The row itself, from the balance it starts at. */
  function Compose(id: nat, exact: int, kind: Kind, status: PaymentStatus, stamp: int, before: int): Result<Entry,
                   WriteError>
    requires Supported(kind) && Abs(exact) <= MAX_BALANCE
  {
    var stored := Cents(if kind == AJUSTE then exact else Abs(exact));
    var entry := Entry(id, stored, Cents(before), Missing, kind, status, Some(stamp));
    var after := before + if IsProcessed(entry) then Delta(entry).value else 0;
    if Abs(after) > MAX_BALANCE then Failure(OutOfRange) else Success(entry.(after := Cents(after)))
  }

  /** What a new entry starts from: the verified balance, or nothing yet. */
  function Opening(rider: nat, entries: seq<Entry>, clock: int): int {
    var balance := AnalyzeLedger(rider, entries, false, clock).balance;
    if balance.Some? then balance.value else 0
  }

  /** The checks in their order: the input, the length of the history, its times, and its verdict. */
  function CheckEntry(amount: Raw, kind: Kind, status: PaymentStatus, rows: nat, stamp: Result<int, WriteError>,
                      verdict: Verdict): Option<WriteError> {
    var exact := ExactMoney(amount);
    if status == UnknownStatus || !Supported(kind) || exact.None? || exact.value == 0 then Some(InvalidEntry)
    else if rows >= MAX_LEDGER_ROWS then Some(HistoryFull)
    else if stamp.Failure? then Some(stamp.error)
    else if verdict == RequiresReview then Some(NeedsReview)
    else None
  }

  function NewEntry(rider: nat, entries: seq<Entry>, id: nat, amount: Raw, kind: Kind, status: PaymentStatus,
                    clock: int)
    : Result<Entry, WriteError>
  {
    var stamp := EntryStamp(entries, clock);
    var refusal := CheckEntry(amount, kind, status, |entries|, stamp, AnalyzeLedger(rider, entries, false, clock).verdict);
    if refusal.Some? then Failure(refusal.value)
    else Compose(id, ExactMoney(amount).value, kind, status, stamp.value, Opening(rider, entries, clock))
  }

  lemma {:induction false} ComposeIsSound(id: nat, exact: int, kind: Kind, status: PaymentStatus, stamp: int,
                                          before: int, later: int)
    requires Supported(kind) && exact != 0 && Abs(exact) <= MAX_BALANCE && Abs(before) <= MAX_BALANCE
    requires status == PROCESADO || status == PAGADO
    requires Compose(id, exact, kind, status, stamp, before).Success?
    ensures var entry := Compose(id, exact, kind, status, stamp, before).value;
            && IsProcessed(entry) && entry.createdAt == Some(stamp)
            && ExactMoney(entry.before) == Some(before)
            && (SoundRow(entry, later) <==> stamp <= later + SKEW)
  {
  }

  lemma {:induction false} LatestIsAfterAll(entries: seq<Entry>)
    ensures forall i :: 0 <= i < |entries| && entries[i].createdAt.Some? ==>
              LatestStamp(entries).Some? && entries[i].createdAt.value <= LatestStamp(entries).value
  {
    if entries != [] {
      var n := |entries| - 1;
      LatestIsAfterAll(entries[..n]);
      assert forall i :: 0 <= i < n ==> entries[..n][i] == entries[i];
    }
  }

  lemma {:induction false} ChainMembers(entries: seq<Entry>)
    ensures forall k :: 0 <= k < |Chain(entries)| ==> Chain(entries)[k] in entries
  {
    if entries != [] {
      var n := |entries| - 1;
      ChainMembers(entries[..n]);
      assert entries == entries[..n] + [entries[n]];
    }
  }

  /** Where a processed entry starts and ends, and when it is stamped. */
  lemma {:induction false} NewEntryIsSound(rider: nat, entries: seq<Entry>, id: nat, amount: Raw, kind: Kind,
                                           status: PaymentStatus, clock: int, entry: Entry, later: int)
    requires NewEntry(rider, entries, id, amount, kind, status, clock) == Success(entry)
    requires status == PROCESADO || status == PAGADO
    ensures AnalyzeLedger(rider, entries, false, clock).verdict != RequiresReview
    ensures IsProcessed(entry) && entry.createdAt.Some?
    ensures EntryStamp(entries, clock) == Success(entry.createdAt.value)
    ensures ExactMoney(entry.before) == Some(Opening(rider, entries, clock))
    ensures SoundRow(entry, later) <==> entry.createdAt.value <= later + SKEW
  {
    VerifiedBalanceIsTheSum(rider, entries, false, clock);
    ComposeIsSound(id, ExactMoney(amount).value, kind, status, EntryStamp(entries, clock).value,
                   Opening(rider, entries, clock), later);
  }

  /** The opening of the new entry is the end of the chain, and its stamp is after every other. */
  lemma {:induction false} NewEntryFollows(rider: nat, entries: seq<Entry>, clock: int, entry: Entry)
    requires AnalyzeLedger(rider, entries, false, clock).verdict != RequiresReview
    requires EntryStamp(entries, clock).Success? && entry.createdAt == Some(EntryStamp(entries, clock).value)
    requires ExactMoney(entry.before) == Some(Opening(rider, entries, clock))
    ensures GoodEvidence(entries, false, clock)
    ensures Opening(rider, entries, clock) == TotalDelta(Chain(entries))
    ensures JoinsOn(Chain(entries), entry)
  {
    var chain := Chain(entries);
    ScanTracks(entries, false, clock);
    if chain != [] {
      var last := chain[|chain| - 1];
      ChainMembers(entries);
      LatestIsAfterAll(entries);
      assert last in entries;
      assert LatestStamp(entries).Some? && last.createdAt.value <= LatestStamp(entries).value;
    }
  }

  lemma {:induction false} EvidenceExtends(entries: seq<Entry>, entry: Entry, clock: int)
    requires IsProcessed(entry) && KnownStatuses(entries)
    ensures Chain(entries + [entry]) == Chain(entries) + [entry]
    ensures GoodEvidence(entries + [entry], false, clock) <==> SoundChain(Chain(entries) + [entry], clock)
  {
    assert (entries + [entry])[..|entries|] == entries;
    StatusesExtend(entries + [entry]);
  }

  lemma {:induction false} SoundLater(chain: seq<Entry>, clock: int, later: int)
    requires SoundChain(chain, clock) && clock <= later
    ensures SoundChain(chain, later)
  {
  }

  /** A sound processed row that joins on extends good evidence by its own effect. */
  lemma {:induction false} AppendedIsVerified(rider: nat, entries: seq<Entry>, entry: Entry, clock: int, later: int)
    requires GoodEvidence(entries, false, clock) && clock <= later
    requires IsProcessed(entry) && JoinsOn(Chain(entries), entry)
    ensures AnalyzeLedger(rider, entries + [entry], false, later).verdict == Verified <==> SoundRow(entry, later)
    ensures SoundRow(entry, later) ==>
              AnalyzeLedger(rider, entries + [entry], false, later).balance == Some(TotalDelta(Chain(entries)) + Delta(entry).value)
  {
    var chain := Chain(entries);
    EvidenceExtends(entries, entry, later);
    SoundLater(chain, clock, later);
    SoundChainExtends(chain, entry, later);
    TotalDeltaExtends(chain, entry);
    VerifiedBalanceIsTheSum(rider, entries + [entry], false, later);
  }

  lemma {:induction false} SoundEntryKeepsVerified(rider: nat, entries: seq<Entry>, clock: int, entry: Entry, later: int)
    requires AnalyzeLedger(rider, entries, false, clock).verdict != RequiresReview && clock <= later
    requires IsProcessed(entry) && entry.createdAt.Some? && EntryStamp(entries, clock) == Success(entry.createdAt.value)
    requires ExactMoney(entry.before) == Some(Opening(rider, entries, clock))
    requires SoundRow(entry, later) <==> entry.createdAt.value <= later + SKEW
    ensures AnalyzeLedger(rider, entries + [entry], false, later).verdict == Verified
            <==> entry.createdAt.value <= later + SKEW
    ensures AnalyzeLedger(rider, entries + [entry], false, later).verdict == Verified ==>
              Delta(entry).Some?
              && AnalyzeLedger(rider, entries + [entry], false, later).balance
                 == Some(Opening(rider, entries, clock) + Delta(entry).value)
  {
    NewEntryFollows(rider, entries, clock, entry);
    var delta := Delta(entry);
    var opening := Opening(rider, entries, clock);
    assert SoundRow(entry, later) ==> delta.Some?;
    AppendedIsVerified(rider, entries, entry, clock, later);
    assert TotalDelta(Chain(entries)) == opening;
  }

  /** A processed entry that the writer lets through leaves good evidence, whose
      balance has moved by the signed amount, from the moment on at which its own
      time is within the skew of the clock. */
  lemma {:induction false} WritingKeepsVerified(rider: nat, entries: seq<Entry>, id: nat, amount: Raw, kind: Kind,
                                                status: PaymentStatus, clock: int, entry: Entry, later: int)
    requires NewEntry(rider, entries, id, amount, kind, status, clock) == Success(entry) && clock <= later
    requires status == PROCESADO || status == PAGADO
    ensures entry.createdAt.Some?
    ensures AnalyzeLedger(rider, entries + [entry], false, later).verdict == Verified
            <==> entry.createdAt.value <= later + SKEW
    ensures AnalyzeLedger(rider, entries + [entry], false, later).verdict == Verified ==>
              Delta(entry).Some?
              && AnalyzeLedger(rider, entries + [entry], false, later).balance
                 == Some(Opening(rider, entries, clock) + Delta(entry).value)
  {
    NewEntryIsSound(rider, entries, id, amount, kind, status, clock, entry, later);
    SoundEntryKeepsVerified(rider, entries, clock, entry, later);
  }

  /** The writer can stamp an entry beyond the skew of its own clock, and does so
      exactly when the latest entry is already at the skew: that ledger then needs
      review at the very reading that wrote it. */
  lemma {:induction false} StampBeyondTheSkew(entries: seq<Entry>, clock: int)
    requires EntryStamp(entries, clock).Success?
    ensures EntryStamp(entries, clock).value > clock + SKEW <==> LatestStamp(entries) == Some(clock + SKEW)
    ensures forall i :: 0 <= i < |entries| && entries[i].createdAt.Some? ==>
              entries[i].createdAt.value < EntryStamp(entries, clock).value
  {
    LatestIsAfterAll(entries);
  }

  // ----- kind by kind -----

  predicate Raises(kind: Kind) {
    kind in {PAGO_ENTREGA, PAGO_INTENTO_FALLIDO, BONO_RENDIMIENTO, INGRESO, BONO}
  }

  predicate Lowers(kind: Kind) {
    kind in {PENALIZACION, RETIRO, AJUSTE_MANUAL, DESCUENTO}
  }

  predicate Counts(status: PaymentStatus) {
    status in {PROCESADO, PAGADO}
  }

  /** What an amount of a kind does to the balance: a payment adds its size, a charge
      takes its size away, and an adjustment counts with its own sign. */
  function Effect(kind: Kind, cents: int): int {
    if Raises(kind) then (if cents < 0 then -cents else cents)
    else if Lowers(kind) then (if cents < 0 then cents else -cents)
    else if kind == AJUSTE then cents
    else 0
  }

  /** The sum over the entries that count. */
  function Booked(entries: seq<Entry>): int {
    if entries == [] then 0
    else
      var row := entries[|entries| - 1];
      Booked(entries[..|entries| - 1]) + if Counts(row.status) && row.amount.Cents? then Effect(row.kind, row.amount.cents) else 0
  }

  lemma {:induction false} DeltaIsEffect(row: Entry)
    ensures Delta(row).Some? <==>
            row.amount.Cents? && -9_999_999_999 <= row.amount.cents <= 9_999_999_999 && row.kind != UnsupportedKind
    ensures Delta(row).Some? ==> Delta(row).value == Effect(row.kind, row.amount.cents)
  {
  }

  lemma {:induction false} BookedIsTotal(entries: seq<Entry>, clock: int)
    requires SoundChain(Chain(entries), clock)
    ensures Booked(entries) == TotalDelta(Chain(entries))
  {
    if entries != [] {
      var init, row := entries[..|entries| - 1], entries[|entries| - 1];
      if IsProcessed(row) {
        SoundChainExtends(Chain(init), row, clock);
        BookedIsTotal(init, clock);
        TotalDeltaExtends(Chain(init), row);
        DeltaIsEffect(row);
      } else {
        assert Chain(init) + [] == Chain(init);
        BookedIsTotal(init, clock);
      }
    }
  }

  /** A verified balance is the sum of all payments, charges and adjustments that count. */
  lemma {:induction false} VerifiedBalanceIsBooked(rider: nat, entries: seq<Entry>, truncated: bool, clock: int)
    requires AnalyzeLedger(rider, entries, truncated, clock).verdict == Verified
    ensures AnalyzeLedger(rider, entries, truncated, clock).balance == Some(Booked(entries))
    ensures -9_999_999_999 <= Booked(entries) <= 9_999_999_999
  {
    VerifiedBalanceIsTheSum(rider, entries, truncated, clock);
    BookedIsTotal(entries, clock);
  }

  /** The chain is the entries that count, in their order. */
  lemma {:induction false} ChainCounts(entries: seq<Entry>, row: Entry)
    ensures row in Chain(entries) <==> row in entries && Counts(row.status)
  {
    if entries != [] {
      ChainCounts(entries[..|entries| - 1], row);
      assert entries == entries[..|entries| - 1] + [entries[|entries| - 1]];
    }
  }

  /** A row that moves the balance by what its kind says, at a time the clock allows. */
  predicate Moves(row: Entry, clock: int) {
    && row.amount.Cents? && row.before.Cents? && row.after.Cents? && row.amount.cents != 0 && row.kind != UnsupportedKind
    && row.after.cents == row.before.cents + Effect(row.kind, row.amount.cents)
    && row.createdAt.Some? && row.createdAt.value <= clock + 5_000_000
  }

  /** A row starts where the one before it ended, and later; the first one starts at zero. */
  predicate Continues(chain: seq<Entry>, k: nat)
    requires k < |chain|
  {
    if k == 0 then chain[k].before == Cents(0)
    else
      && chain[k].before == chain[k - 1].after && chain[k - 1].createdAt.Some? && chain[k].createdAt.Some?
      && chain[k - 1].createdAt.value < chain[k].createdAt.value
  }

  lemma {:induction false} SoundMoves(row: Entry, clock: int)
    requires SoundRow(row, clock)
    ensures Moves(row, clock)
  {
    DeltaIsEffect(row);
  }

  lemma {:induction false} SoundContinues(chain: seq<Entry>, clock: int, k: nat)
    requires SoundChain(chain, clock) && k < |chain|
    ensures Moves(chain[k], clock) && Continues(chain, k)
  {
    assert SoundRow(chain[k], clock) && LinkedAt(chain, k);
    SoundMoves(chain[k], clock);
    if k > 0 {
      assert SoundRow(chain[k - 1], clock);
    }
  }

  /** Every row of a verified chain moves the balance by what its kind says, from where
      the row before it left off, the first one from zero; the balance is where the
      last one ends. */
  lemma {:induction false} VerifiedRowMoves(rider: nat, entries: seq<Entry>, truncated: bool, clock: int, k: nat)
    requires AnalyzeLedger(rider, entries, truncated, clock).verdict == Verified && k < |Chain(entries)|
    ensures var chain := Chain(entries);
            && Moves(chain[k], clock) && Continues(chain, k) && chain[|chain| - 1].after.Cents?
            && AnalyzeLedger(rider, entries, truncated, clock).balance == Some(chain[|chain| - 1].after.cents)
  {
    BalanceIsTheEnd(rider, entries, truncated, clock);
    SoundContinues(Chain(entries), clock, k);
  }

  lemma {:induction false} BalanceIsTheEnd(rider: nat, entries: seq<Entry>, truncated: bool, clock: int)
    requires AnalyzeLedger(rider, entries, truncated, clock).verdict == Verified
    ensures SoundChain(Chain(entries), clock) && Chain(entries) != []
    ensures var chain := Chain(entries);
            ExactMoney(chain[|chain| - 1].after) == AnalyzeLedger(rider, entries, truncated, clock).balance
  {
    ScanTracks(entries, truncated, clock);
  }

  // ----- what the writer answers -----

  /** Later than every entry: the clock itself, or just after the latest. */
  ghost predicate StampedAfter(entries: seq<Entry>, clock: int, stamp: int) {
    && (forall i :: 0 <= i < |entries| && entries[i].createdAt.Some? ==> entries[i].createdAt.value < stamp)
    && (stamp == clock
        || (clock < stamp <= clock + 5_000_001
            && exists i :: 0 <= i < |entries| && entries[i].createdAt == Some(stamp - 1)))
  }

  ghost predicate TooFarAhead(entries: seq<Entry>, clock: int) {
    exists i :: 0 <= i < |entries| && entries[i].createdAt.Some? && entries[i].createdAt.value > clock + 5_000_000
  }

  lemma {:induction false} LatestIsThere(entries: seq<Entry>)
    ensures LatestStamp(entries).Some? ==> exists i :: 0 <= i < |entries| && entries[i].createdAt == LatestStamp(entries)
  {
    if entries != [] {
      var n := |entries| - 1;
      LatestIsThere(entries[..n]);
      if LatestStamp(entries) == entries[n].createdAt {
        assert entries[n].createdAt == LatestStamp(entries);
      } else if LatestStamp(entries).Some? {
        var i :| 0 <= i < n && entries[..n][i].createdAt == LatestStamp(entries[..n]);
        assert entries[i].createdAt == LatestStamp(entries);
      }
    }
  }

  lemma {:induction false} StampMeaning(entries: seq<Entry>, clock: int)
    ensures EntryStamp(entries, clock).Success? <==> !TooFarAhead(entries, clock)
    ensures EntryStamp(entries, clock).Success? ==> StampedAfter(entries, clock, EntryStamp(entries, clock).value)
    ensures EntryStamp(entries, clock).Failure? ==> EntryStamp(entries, clock).error == Chronology
  {
    LatestIsAfterAll(entries);
    LatestIsThere(entries);
  }

  predicate KnownInput(amount: Raw, kind: Kind, status: PaymentStatus) {
    && status != UnknownStatus && kind != UnsupportedKind
    && amount.Cents? && amount.cents != 0 && -9_999_999_999 <= amount.cents <= 9_999_999_999
  }

  /** Where an entry of this kind and status ends. */
  function EndOf(before: int, kind: Kind, status: PaymentStatus, cents: int): int {
    before + if Counts(status) then Effect(kind, cents) else 0
  }

  lemma {:induction false} ComposeMeaning(id: nat, exact: int, kind: Kind, status: PaymentStatus, stamp: int, before: int)
    requires Supported(kind) && Abs(exact) <= MAX_BALANCE
    ensures var r, end := Compose(id, exact, kind, status, stamp, before), EndOf(before, kind, status, exact);
            && (r.Success? <==> -9_999_999_999 <= end <= 9_999_999_999) && (r.Failure? ==> r.error == OutOfRange)
            && (r.Success? ==>
                  r.value == Entry(id, Cents(if kind == AJUSTE || exact > 0 then exact else -exact),
                                   Cents(before), Cents(end), kind, status, Some(stamp)))
  {
  }

  lemma {:induction false} OpeningIsBooked(rider: nat, entries: seq<Entry>, clock: int)
    requires AnalyzeLedger(rider, entries, false, clock).verdict != RequiresReview
    ensures Opening(rider, entries, clock) == Booked(entries)
  {
    VerifiedBalanceIsTheSum(rider, entries, false, clock);
    BookedIsTotal(entries, clock);
  }

  lemma {:induction false} CheckEntryMeaning(amount: Raw, kind: Kind, status: PaymentStatus, rows: nat,
                                             stamp: Result<int, WriteError>, verdict: Verdict)
    requires stamp.Failure? ==> stamp.error == Chronology
    ensures var r, known := CheckEntry(amount, kind, status, rows, stamp, verdict), KnownInput(amount, kind, status);
            var room, timely, sound := rows < 10_000, stamp.Success?, verdict != RequiresReview;
            && (r == Some(InvalidEntry) <==> !known)
            && (r == Some(HistoryFull) <==> known && !room)
            && (r == Some(Chronology) <==> known && room && !timely)
            && (r == Some(NeedsReview) <==> known && room && timely && !sound)
            && (r == None <==> known && room && timely && sound)
  {
  }

  /** The writer takes an entry exactly when it names a known status and kind and an
      amount other than zero, the history has room, its times are not ahead of the
      clock and it needs no review; and then unless the new balance is out of range. */
  lemma {:induction false} WriterRefuses(rider: nat, entries: seq<Entry>, id: nat, amount: Raw, kind: Kind,
                                         status: PaymentStatus, clock: int)
    ensures var r := NewEntry(rider, entries, id, amount, kind, status, clock);
            var known, room, timely := KnownInput(amount, kind, status), |entries| < 10_000, !TooFarAhead(entries, clock);
            var sound := AnalyzeLedger(rider, entries, false, clock).verdict != RequiresReview;
            && (r == Failure(InvalidEntry) <==> !known)
            && (r == Failure(HistoryFull) <==> known && !room)
            && (r == Failure(Chronology) <==> known && room && !timely)
            && (r == Failure(NeedsReview) <==> known && room && timely && !sound)
            && (r.Success? || r == Failure(OutOfRange) <==> known && room && timely && sound)
  {
    var stamp, verdict := EntryStamp(entries, clock), AnalyzeLedger(rider, entries, false, clock).verdict;
    StampMeaning(entries, clock);
    CheckEntryMeaning(amount, kind, status, |entries|, stamp, verdict);
    if CheckEntry(amount, kind, status, |entries|, stamp, verdict) == None {
      ComposeMeaning(id, ExactMoney(amount).value, kind, status, stamp.value, Opening(rider, entries, clock));
    }
  }

  /** What it writes: the entry as given, from the verified balance to where its kind
      and status move it, stamped after all others. */
  lemma {:induction false} WriterWrites(rider: nat, entries: seq<Entry>, id: nat, amount: Raw, kind: Kind,
                                        status: PaymentStatus, clock: int)
    requires KnownInput(amount, kind, status) && |entries| < 10_000 && !TooFarAhead(entries, clock)
    requires AnalyzeLedger(rider, entries, false, clock).verdict != RequiresReview
    ensures var r := NewEntry(rider, entries, id, amount, kind, status, clock);
            var end := EndOf(Booked(entries), kind, status, amount.cents);
            && (r.Success? <==> -9_999_999_999 <= end <= 9_999_999_999)
            && (r.Success? ==>
                  && r.value.createdAt.Some? && StampedAfter(entries, clock, r.value.createdAt.value)
                  && r.value == Entry(id, Cents(if kind == AJUSTE || amount.cents > 0 then amount.cents else -amount.cents),
                                      Cents(Booked(entries)), Cents(end), kind, status, r.value.createdAt))
  {
    StampMeaning(entries, clock);
    CheckEntryMeaning(amount, kind, status, |entries|, EntryStamp(entries, clock), AnalyzeLedger(rider, entries, false, clock).verdict);
    OpeningIsBooked(rider, entries, clock);
    ComposeMeaning(id, amount.cents, kind, status, EntryStamp(entries, clock).value, Opening(rider, entries, clock));
  }

  lemma {:induction false} WrittenEffect(rider: nat, entries: seq<Entry>, id: nat, amount: Raw, kind: Kind,
                                         status: PaymentStatus, clock: int, entry: Entry)
    requires NewEntry(rider, entries, id, amount, kind, status, clock) == Success(entry)
    ensures amount.Cents? && Delta(entry) == Some(Effect(kind, amount.cents))
    ensures Opening(rider, entries, clock) == Booked(entries)
  {
    WriterRefuses(rider, entries, id, amount, kind, status, clock);
    WriterWrites(rider, entries, id, amount, kind, status, clock);
    OpeningIsBooked(rider, entries, clock);
    DeltaIsEffect(entry);
  }

  /** Once an entry that counts is verified with its ledger, the balance has moved by
      what its kind does with the amount given. */
  lemma {:induction false} WritingMovesTheBalance(rider: nat, entries: seq<Entry>, id: nat, amount: Raw, kind: Kind,
                                                  status: PaymentStatus, clock: int, entry: Entry, later: int)
    requires NewEntry(rider, entries, id, amount, kind, status, clock) == Success(entry) && clock <= later
    requires Counts(status)
    ensures amount.Cents? && entry.createdAt.Some?
    ensures var a := AnalyzeLedger(rider, entries + [entry], false, later);
            && (a.verdict == Verified <==> entry.createdAt.value <= later + 5_000_000)
            && (a.verdict == Verified ==> a.balance == Some(Booked(entries) + Effect(kind, amount.cents)))
  {
    WrittenEffect(rider, entries, id, amount, kind, status, clock, entry);
    var opening := Opening(rider, entries, clock);
    assert Some(opening + Delta(entry).value) == Some(Booked(entries) + Effect(kind, amount.cents));
    WritingKeepsVerified(rider, entries, id, amount, kind, status, clock, entry, later);
  }

  // ----- what an analysis counts -----

  function Where(entries: seq<Entry>, statuses: set<PaymentStatus>): set<nat> {
    set i: nat | i < |entries| && entries[i].status in statuses
  }

  lemma {:induction false} WhereExtends(entries: seq<Entry>, statuses: set<PaymentStatus>)
    requires entries != []
    ensures var n := |entries| - 1;
            |Where(entries, statuses)| == |Where(entries[..n], statuses)| + if entries[n].status in statuses then 1 else 0
  {
    var n := |entries| - 1;
    var before := Where(entries[..n], statuses);
    if entries[n].status in statuses {
      assert Where(entries, statuses) == before + {n};
    } else {
      assert Where(entries, statuses) == before;
    }
  }

  /** The last entry that counts. */
  ghost predicate LastCounting(entries: seq<Entry>, k: int) {
    0 <= k < |entries| && Counts(entries[k].status) && forall i :: k < i < |entries| ==> !Counts(entries[i].status)
  }

  lemma {:induction false} ScanRowCounts(s: Scan, row: Entry, clock: int)
    ensures var s' := ScanRow(s, row, clock);
            && s'.processed == s.processed + (if row.status in {PROCESADO, PAGADO} then 1 else 0)
            && s'.ignored == s.ignored + (if row.status in {PENDIENTE, RECHAZADO} then 1 else 0)
            && s'.latest == if Counts(row.status) then Some(row.id) else s.latest
  {
  }

  lemma {:induction false} ScanCounts(entries: seq<Entry>, truncated: bool, clock: int)
    ensures var s := ScanAll(entries, truncated, clock);
            s.processed == |Where(entries, {PROCESADO, PAGADO})| && s.ignored == |Where(entries, {PENDIENTE, RECHAZADO})|
  {
    if entries == [] {
      assert Where(entries, {PROCESADO, PAGADO}) == {} && Where(entries, {PENDIENTE, RECHAZADO}) == {};
    } else {
      var n := |entries| - 1;
      ScanCounts(entries[..n], truncated, clock);
      WhereExtends(entries, {PROCESADO, PAGADO});
      WhereExtends(entries, {PENDIENTE, RECHAZADO});
      ScanRowCounts(ScanAll(entries[..n], truncated, clock), entries[n], clock);
    }
  }

  lemma {:induction false} ScanLatest(entries: seq<Entry>, truncated: bool, clock: int)
    ensures var latest := ScanAll(entries, truncated, clock).latest;
            && (latest.None? ==> forall i :: 0 <= i < |entries| ==> !Counts(entries[i].status))
            && (latest.Some? ==> exists k :: LastCounting(entries, k) && latest == Some(entries[k].id))
  {
    if entries != [] {
      var n := |entries| - 1;
      ScanLatest(entries[..n], truncated, clock);
      var before := ScanAll(entries[..n], truncated, clock);
      ScanRowCounts(before, entries[n], clock);
      if Counts(entries[n].status) {
        assert LastCounting(entries, n);
      } else if before.latest.Some? {
        var k :| LastCounting(entries[..n], k) && before.latest == Some(entries[..n][k].id);
        LastStaysLast(entries, k);
      } else {
        assert forall i :: 0 <= i < n ==> entries[..n][i] == entries[i];
      }
    }
  }

  lemma {:induction false} LastStaysLast(entries: seq<Entry>, k: int)
    requires entries != [] && LastCounting(entries[..|entries| - 1], k) && !Counts(entries[|entries| - 1].status)
    ensures LastCounting(entries, k)
  {
    var n := |entries| - 1;
    assert forall i :: 0 <= i < n ==> entries[..n][i] == entries[i];
  }

  predicate Stamped(row: Entry) {
    Counts(row.status) && row.createdAt.Some?
  }

  predicate Settled(row: Entry) {
    Counts(row.status) && ExactMoney(row.after).Some?
  }

  ghost predicate LastStamped(entries: seq<Entry>, k: int) {
    0 <= k < |entries| && Stamped(entries[k]) && forall i :: k < i < |entries| ==> !Stamped(entries[i])
  }

  ghost predicate LastSettled(entries: seq<Entry>, k: int) {
    0 <= k < |entries| && Settled(entries[k]) && forall i :: k < i < |entries| ==> !Settled(entries[i])
  }

  lemma {:induction false} ScanRowCarries(s: Scan, row: Entry, clock: int)
    ensures var s' := ScanRow(s, row, clock);
            && s'.previous == (if Stamped(row) then row.createdAt else s.previous)
            && (if Settled(row) then ExactMoney(row.after) == Some(s'.running) else s'.running == s.running)
            && s.issues <= s'.issues
  {
  }

  lemma {:induction false} StampedStaysLast(entries: seq<Entry>, k: int)
    requires entries != [] && LastStamped(entries[..|entries| - 1], k) && !Stamped(entries[|entries| - 1])
    ensures LastStamped(entries, k)
  {
    var n := |entries| - 1;
    assert forall i :: 0 <= i < n ==> entries[..n][i] == entries[i];
  }

  /** The time carried along is that of the last entry that counts and has one. */
  lemma {:induction false} CarriesTheTime(entries: seq<Entry>, truncated: bool, clock: int) returns (last: Option<nat>)
    ensures last.Some? ==> LastStamped(entries, last.value)
    ensures last.None? ==> forall i :: 0 <= i < |entries| ==> !Stamped(entries[i])
    ensures ScanAll(entries, truncated, clock).previous == if last.Some? then entries[last.value].createdAt else None
  {
    last := None;
    if entries != [] {
      var n := |entries| - 1;
      last := CarriesTheTime(entries[..n], truncated, clock);
      ScanRowCarries(ScanAll(entries[..n], truncated, clock), entries[n], clock);
      if Stamped(entries[n]) {
        last := Some(n);
      } else if last.Some? {
        StampedStaysLast(entries, last.value);
      } else {
        assert forall i :: 0 <= i < n ==> entries[..n][i] == entries[i];
      }
    }
  }

  lemma {:induction false} SettledStaysLast(entries: seq<Entry>, k: int)
    requires entries != [] && LastSettled(entries[..|entries| - 1], k) && !Settled(entries[|entries| - 1])
    ensures LastSettled(entries, k)
  {
    var n := |entries| - 1;
    assert forall i :: 0 <= i < n ==> entries[..n][i] == entries[i];
  }

  /** The balance carried along is that after the last entry that counts and has an exact
      one, and zero before the first. */
  lemma {:induction false} CarriesTheBalance(entries: seq<Entry>, truncated: bool, clock: int) returns (last: Option<nat>)
    ensures last.Some? ==> LastSettled(entries, last.value)
    ensures last.None? ==> forall i :: 0 <= i < |entries| ==> !Settled(entries[i])
    ensures var running := ScanAll(entries, truncated, clock).running;
            if last.Some? then ExactMoney(entries[last.value].after) == Some(running) else running == 0
  {
    last := None;
    if entries != [] {
      var n := |entries| - 1;
      last := CarriesTheBalance(entries[..n], truncated, clock);
      ScanRowCarries(ScanAll(entries[..n], truncated, clock), entries[n], clock);
      if Settled(entries[n]) {
        last := Some(n);
      } else if last.Some? {
        SettledStaysLast(entries, last.value);
      } else {
        assert forall i :: 0 <= i < n ==> entries[..n][i] == entries[i];
      }
    }
  }

  /** What an analysis reports besides its verdict: how many entries it saw, how many of
      them count and how many are pending or rejected, and the last that counts. */
  lemma {:induction false} AnalysisCounts(rider: nat, entries: seq<Entry>, truncated: bool, clock: int)
    ensures var a := AnalyzeLedger(rider, entries, truncated, clock);
            && a.examined == |entries| && a.truncated == truncated
            && a.processed == |Where(entries, {PROCESADO, PAGADO})| && a.ignored == |Where(entries, {PENDIENTE, RECHAZADO})|
            && (a.latest.None? ==> forall i :: 0 <= i < |entries| ==> !Counts(entries[i].status))
            && (a.latest.Some? ==> exists k :: LastCounting(entries, k) && a.latest == Some(entries[k].id))
            && a.issues == (if a.issueCount <= 50 then ScanAll(entries, truncated, clock).issues
                            else ScanAll(entries, truncated, clock).issues[..50])
            && a.issueCount == |ScanAll(entries, truncated, clock).issues|
  {
    ScanCounts(entries, truncated, clock);
    ScanLatest(entries, truncated, clock);
  }

  // ----- which issues are raised -----

  /** Why an issue with this code is raised at a row that counts, when the chain so far
      ends at `running` and the latest time seen is `previous`. */
  predicate Raised(code: Code, first: bool, running: int, previous: Option<int>, row: Entry, clock: int) {
    var amount, before, after := ExactMoney(row.amount), ExactMoney(row.before), ExactMoney(row.after);
    match code
    case MissingTimestamp => row.createdAt.None?
    case FutureTimestamp => row.createdAt.Some? && row.createdAt.value > clock + 5_000_000
    case DisorderedTimestamp => row.createdAt.Some? && previous.Some? && row.createdAt.value <= previous.value
    case InvalidAmount => amount.None? || amount == Some(0)
    case InvalidSnapshot => before.None? || after.None?
    case UnsupportedType => row.kind == UnsupportedKind
    case UnverifiedOpening => first && before.Some? && before != Some(running)
    case ChainDiscontinuity => !first && before.Some? && before != Some(running)
    case ArithmeticMismatch =>
      amount.Some? && row.kind != UnsupportedKind && before.Some? && after.Some?
      && after.value != before.value + Effect(row.kind, amount.value)
    case _ => false
  }

  lemma {:induction false} StampIssuesMeaning(previous: Option<int>, row: Entry, clock: int, issue: Issue)
    ensures issue in StampIssues(previous, row, clock) <==>
            issue.entry == Some(row.id) && issue.code in {MissingTimestamp, FutureTimestamp, DisorderedTimestamp}
            && Raised(issue.code, false, 0, previous, row, clock)
  {
  }

  lemma {:induction false} FormIssuesMeaning(row: Entry, issue: Issue)
    ensures issue in FormIssues(row) <==>
            issue.entry == Some(row.id) && issue.code in {InvalidAmount, InvalidSnapshot, UnsupportedType}
            && Raised(issue.code, false, 0, None, row, 0)
  {
  }

  lemma {:induction false} BalanceIssuesMeaning(first: bool, running: int, row: Entry, issue: Issue)
    ensures issue in BalanceIssues(first, running, row) <==>
            issue.entry == Some(row.id) && issue.code in {UnverifiedOpening, ChainDiscontinuity, ArithmeticMismatch}
            && Raised(issue.code, first, running, None, row, 0)
  {
    DeltaIsEffect(row);
  }

  /** Each code is raised at a row exactly for its own cause. */
  lemma {:induction false} RowIssuesMeaning(first: bool, running: int, previous: Option<int>, row: Entry, clock: int,
                                            issue: Issue)
    ensures issue in RowIssues(first, running, previous, row, clock) <==>
            issue.entry == Some(row.id) && Raised(issue.code, first, running, previous, row, clock)
  {
    StampIssuesMeaning(previous, row, clock, issue);
    FormIssuesMeaning(row, issue);
    BalanceIssuesMeaning(first, running, row, issue);
  }

  /** The order of the codes at one row. */
  function Rank(code: Code): nat {
    match code
    case MissingTimestamp => 1
    case FutureTimestamp => 2
    case DisorderedTimestamp => 3
    case InvalidAmount => 4
    case InvalidSnapshot => 5
    case UnsupportedType => 6
    case UnverifiedOpening => 7
    case ChainDiscontinuity => 8
    case ArithmeticMismatch => 9
    case _ => 0
  }

  ghost predicate Ranked(issues: seq<Issue>, lo: nat, hi: nat) {
    && (forall i :: 0 <= i < |issues| ==> lo <= Rank(issues[i].code) <= hi)
    && (forall i, j :: 0 <= i < j < |issues| ==> Rank(issues[i].code) < Rank(issues[j].code))
  }

  lemma {:induction false} RankedParts(a: seq<Issue>, b: seq<Issue>, lo: nat, mid: nat, hi: nat)
    requires Ranked(a, lo, mid) && Ranked(b, mid + 1, hi) && lo <= mid <= hi
    ensures Ranked(a + b, lo, hi)
  {
  }

  lemma {:induction false} StampIssuesRanked(previous: Option<int>, row: Entry, clock: int)
    ensures Ranked(StampIssues(previous, row, clock), 1, 3)
  {
  }

  lemma {:induction false} FormIssuesRanked(row: Entry)
    ensures Ranked(FormIssues(row), 4, 6)
  {
  }

  lemma {:induction false} BalanceIssuesRanked(first: bool, running: int, row: Entry)
    ensures Ranked(BalanceIssues(first, running, row), 7, 9)
  {
  }

  /** The issues of one row come in this order, each code at most once. */
  lemma {:induction false} RowIssuesRanked(first: bool, running: int, previous: Option<int>, row: Entry, clock: int)
    ensures Ranked(RowIssues(first, running, previous, row, clock), 1, 9)
  {
    StampIssuesRanked(previous, row, clock);
    FormIssuesRanked(row);
    BalanceIssuesRanked(first, running, row);
    RankedParts(StampIssues(previous, row, clock), FormIssues(row), 1, 3, 6);
    RankedParts(StampIssues(previous, row, clock) + FormIssues(row), BalanceIssues(first, running, row), 1, 6, 9);
  }

  /** And the issues of earlier rows come before those of later ones. */
  lemma {:induction false} IssuesInOrder(entries: seq<Entry>, k: nat, truncated: bool, clock: int)
    requires k <= |entries|
    ensures ScanAll(entries[..k], truncated, clock).issues <= ScanAll(entries, truncated, clock).issues
    decreases |entries|
  {
    if k < |entries| {
      var n := |entries| - 1;
      assert entries[..n][..k] == entries[..k];
      IssuesInOrder(entries[..n], k, truncated, clock);
      ScanRowCarries(ScanAll(entries[..n], truncated, clock), entries[n], clock);
    } else {
      assert entries[..k] == entries;
    }
  }

  /** The state of the pass before an entry, as an issue at that entry sees it. */
  ghost predicate RaisedAt(entries: seq<Entry>, truncated: bool, clock: int, k: nat, issue: Issue)
    requires k < |entries|
  {
    var s, row := ScanAll(entries[..k], truncated, clock), entries[k];
    && issue.entry == Some(row.id)
    && if Counts(row.status) then Raised(issue.code, s.processed == 0, s.running, s.previous, row, clock)
       else issue.code == UnknownPaymentStatus && row.status == UnknownStatus
  }

  /** An analysis raises an issue exactly for a truncated list, or at an entry that gives cause. */
  lemma {:induction false} ScanIssuesMeaning(entries: seq<Entry>, truncated: bool, clock: int, issue: Issue)
    ensures issue in ScanAll(entries, truncated, clock).issues <==>
            || (truncated && issue == Issue(RowLimitExceeded, None))
            || exists k :: 0 <= k < |entries| && RaisedAt(entries, truncated, clock, k, issue)
  {
    if entries != [] {
      var n := |entries| - 1;
      var s := ScanAll(entries[..n], truncated, clock);
      ScanIssuesMeaning(entries[..n], truncated, clock, issue);
      forall k | 0 <= k < n ensures RaisedAt(entries[..n], truncated, clock, k, issue) == RaisedAt(entries, truncated, clock, k, issue) {
        assert entries[..n][..k] == entries[..k];
      }
      ScanRowIssues(s, entries[n], clock, issue);
      assert issue in ScanAll(entries, truncated, clock).issues <==>
             issue in s.issues || RaisedAt(entries, truncated, clock, n, issue);
    }
  }

  lemma {:induction false} ScanRowIssues(s: Scan, row: Entry, clock: int, issue: Issue)
    ensures issue in ScanRow(s, row, clock).issues <==>
            || issue in s.issues
            || (&& issue.entry == Some(row.id)
                && if Counts(row.status) then Raised(issue.code, s.processed == 0, s.running, s.previous, row, clock)
                   else issue.code == UnknownPaymentStatus && row.status == UnknownStatus)
  {
    RowIssuesMeaning(s.processed == 0, s.running, s.previous, row, clock, issue);
  }

  function SkewedLedger(clock: int): seq<Entry> {
    [Entry(1, Cents(100), Cents(0), Cents(100), INGRESO, PROCESADO, Some(clock + SKEW))]
  }

  function EntryBeyondTheSkew(clock: int): Entry {
    Entry(2, Cents(50), Cents(100), Cents(150), INGRESO, PROCESADO, Some(clock + SKEW + 1))
  }

  lemma {:induction false} SkewedLedgerTakesAnEntry(rider: nat, clock: int)
    ensures AnalyzeLedger(rider, SkewedLedger(clock), false, clock).verdict == Verified
    ensures NewEntry(rider, SkewedLedger(clock), 2, Cents(50), INGRESO, PROCESADO, clock) == Success(EntryBeyondTheSkew(clock))
  {
    var entries := SkewedLedger(clock);
    assert entries[..0] == [] && entries == entries[..0] + [entries[0]];
    FirstGoodEntry(rider, entries[..0], entries[0], clock);
    assert LatestStamp(entries[..0]) == None;
    assert LatestStamp(entries) == Some(clock + SKEW);
    assert EntryStamp(entries, clock) == Success(clock + SKEW + 1);
    assert Opening(rider, entries, clock) == 100;
  }

  /** It happens: a verified ledger of one entry that is exactly at the skew; the writer
      lets the next entry through, and the ledger needs review at the same reading. */
  lemma {:induction false} SkewExample(rider: nat, clock: int)
    ensures var entries, entry := SkewedLedger(clock), EntryBeyondTheSkew(clock);
            && AnalyzeLedger(rider, entries, false, clock).verdict == Verified
            && NewEntry(rider, entries, 2, Cents(50), INGRESO, PROCESADO, clock) == Success(entry)
            && AnalyzeLedger(rider, entries + [entry], false, clock).verdict == RequiresReview
  {
    var entries, entry := SkewedLedger(clock), EntryBeyondTheSkew(clock);
    SkewedLedgerTakesAnEntry(rider, clock);
    WritingKeepsVerified(rider, entries, 2, Cents(50), INGRESO, PROCESADO, clock, entry, clock);
    VerifiedBalanceIsTheSum(rider, entries, false, clock);
    VerifiedBalanceIsTheSum(rider, entries + [entry], false, clock);
    EvidenceExtends(entries, entry, clock);
  }

  lemma {:induction false} FirstGoodEntry(rider: nat, none: seq<Entry>, row: Entry, clock: int)
    requires none == [] && IsProcessed(row) && SoundRow(row, clock) && ExactMoney(row.before) == Some(0)
    ensures AnalyzeLedger(rider, none + [row], false, clock).verdict == Verified
    ensures AnalyzeLedger(rider, none + [row], false, clock).balance == Some(Delta(row).value)
  {
    assert Chain(none) == [] && TotalDelta(Chain(none)) == 0;
    AppendedIsVerified(rider, none, row, clock, clock);
  }

  lemma {:induction false} ScanExtends(entries: seq<Entry>, i: nat, truncated: bool, clock: int)
    requires i < |entries|
    ensures ScanAll(entries[..i + 1], truncated, clock) == ScanRow(ScanAll(entries[..i], truncated, clock), entries[i], clock)
  {
    assert entries[..i + 1][..i] == entries[..i];
  }

  // ----- the pass in place -----

  method AnalyzeLedgerRows(rider: nat, entries: seq<Entry>, truncated: bool, clock: int) returns (r: Integrity)
    ensures r == AnalyzeLedger(rider, entries, truncated, clock)
  {
    var issues: seq<Issue> := if truncated then [Issue(RowLimitExceeded, None)] else [];
    var processed, ignored, running := 0, 0, 0;
    var previous: Option<int>, latest: Option<nat> := None, None;
    for i := 0 to |entries|
      invariant Scan(processed, ignored, running, previous, latest, issues) == ScanAll(entries[..i], truncated, clock)
    {
      var row := entries[i];
      ghost var before := Scan(processed, ignored, running, previous, latest, issues);
      ScanExtends(entries, i, truncated, clock);
      if IsUnprocessed(row) {
        ignored := ignored + 1;
      } else if !IsProcessed(row) {
        issues := issues + [Issue(UnknownPaymentStatus, Some(row.id))];
      } else {
        issues := issues + RowIssues(processed == 0, running, previous, row, clock);
        processed := processed + 1;
        latest := Some(row.id);
        if row.createdAt.Some? {
          previous := row.createdAt;
        }
        if ExactMoney(row.after).Some? {
          running := ExactMoney(row.after).value;
        }
      }
      assert Scan(processed, ignored, running, previous, latest, issues) == ScanRow(before, row, clock);
    }
    assert entries[..|entries|] == entries;
    r := Conclude(rider, entries, truncated, Scan(processed, ignored, running, previous, latest, issues));
  }
}
