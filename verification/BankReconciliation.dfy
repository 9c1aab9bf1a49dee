/**
 Automatic bank reconciliation (backend/app/services/bank_reconciliation_service.py):
 every statement line takes the best scoring internal transaction that no earlier
 line or run has taken. Scores are in hundredths and dates are day ordinals;
 `alert` is the configured variance alert in cents.
 */
module BankReconciliation {
  import opened Wrappers

  /** 9999-12-31; 0001-01-01 is day 1. */
  const MAX_DAY := 3_652_059

  /** The INTEGER column of an internal amount. */
  type Int32 = x: int | -0x8000_0000 <= x < 0x8000_0000

  datatype Txn = Txn(id: nat, cents: Int32, date: Option<int>, reference: Option<string>)

  datatype Line = Line(date: int, reference: Option<string>, cents: int)

  datatype Status = RELACIONADO | VARIANCIA | SIN_RELACIONAR | RESUELTO_MANUAL

  datatype Record = Record(
    date: int, reference: Option<string>, cents: int, score: nat,
    txn: Option<nat>, matched: Option<int>, variance: nat, status: Status)

  datatype Summary = Summary(processed: nat, matched: nat, variance: nat, unmatched: nat)

  /** The date arithmetic left the representable range, or a record does not fit its columns. */
  datatype RunError = DateOverflow | NotStorable

  function Abs(x: int): nat {
    if x < 0 then -x else x
  }

  // ----- the score -----

  function LowerChar(c: char): char {
    if 'A' <= c <= 'Z' then c + ' ' else c
  }

  function Lower(s: Option<string>): string {
    if s.None? then "" else seq(|s.value|, i requires 0 <= i < |s.value| => LowerChar(s.value[i]))
  }

  function Take(s: string, n: nat): string {
    if |s| <= n then s else s[..n]
  }

  predicate OccursAt(text: string, part: string, i: nat) {
    i + |part| <= |text| && text[i..i + |part|] == part
  }

  predicate Contains(text: string, part: string) {
    exists i :: 0 <= i <= |text| && OccursAt(text, part, i)
  }

  predicate SharesReference(line: Line, t: Txn) {
    var outer := Lower(line.reference);
    var inner := Lower(t.reference);
    outer != "" && inner != "" && (Contains(outer, Take(inner, 13)) || Contains(inner, Take(outer, 13)))
  }

  function Confidence(line: Line, t: Txn, alert: int): nat {
    var gap := Abs(Abs(t.cents) - Abs(line.cents));
    var amount := if gap == 0 then 60 else if gap <= alert then 30 else 0;
    var day := if t.date.Some? && Abs(t.date.value - line.date) <= 1 then 25 else 0;
    var reference := if SharesReference(line, t) then 15 else 0;
    amount + day + reference
  }

  // ----- what the score measures -----

  function TextOf(reference: Option<string>): string {
    if reference.Some? then reference.value else ""
  }

  /** Equal up to the case of ASCII letters. */
  predicate SameLetter(a: char, b: char) {
    a == b || ('A' <= a <= 'Z' && b as int == a as int + 32) || ('A' <= b <= 'Z' && a as int == b as int + 32)
  }

  /** From position `i` of the text on, the first 13 letters of the part are there, or all if it is shorter. */
  ghost predicate StandsAt(text: string, part: string, i: nat) {
    forall j :: 0 <= j < |part| && j < 13 ==> i + j < |text| && SameLetter(text[i + j], part[j])
  }

  ghost predicate Mentions(text: string, part: string) {
    text != "" && part != "" && exists i :: 0 <= i <= |text| && StandsAt(text, part, i)
  }

  /** One of the two references begins with something that occurs in the other. */
  ghost predicate Recognised(line: Line, t: Txn) {
    Mentions(TextOf(line.reference), TextOf(t.reference)) || Mentions(TextOf(t.reference), TextOf(line.reference))
  }

  lemma {:induction false} SameLetterIsLower(a: char, b: char)
    ensures SameLetter(a, b) <==> LowerChar(a) == LowerChar(b)
  {
  }

  lemma {:induction false} OccursIsStands(text: Option<string>, part: Option<string>, i: nat)
    requires i <= |TextOf(text)|
    ensures OccursAt(Lower(text), Take(Lower(part), 13), i) <==> StandsAt(TextOf(text), TextOf(part), i)
  {
    var outer, inner := Lower(text), Take(Lower(part), 13);
    forall a, b ensures SameLetter(a, b) <==> LowerChar(a) == LowerChar(b) {
      SameLetterIsLower(a, b);
    }
    if OccursAt(outer, inner, i) {
      forall j | 0 <= j < |TextOf(part)| && j < 13
        ensures i + j < |TextOf(text)| && SameLetter(TextOf(text)[i + j], TextOf(part)[j])
      {
        assert outer[i..i + |inner|][j] == inner[j];
      }
    }
    if StandsAt(TextOf(text), TextOf(part), i) {
      assert inner == "" || i + |inner| - 1 < |outer| by {
        if inner != "" {
          var j := |inner| - 1;
          assert SameLetter(TextOf(part)[j], TextOf(part)[j]) && i + j < |TextOf(text)|;
        }
      }
      assert outer[i..i + |inner|] == inner;
    }
  }

  lemma {:induction false} ContainsIsMentions(text: Option<string>, part: Option<string>)
    requires TextOf(text) != "" && TextOf(part) != ""
    ensures Contains(Lower(text), Take(Lower(part), 13)) <==> Mentions(TextOf(text), TextOf(part))
  {
    forall i | 0 <= i <= |TextOf(text)|
      ensures OccursAt(Lower(text), Take(Lower(part), 13), i) <==> StandsAt(TextOf(text), TextOf(part), i)
    {
      OccursIsStands(text, part, i);
    }
  }

  lemma {:induction false} SharesIsRecognised(line: Line, t: Txn)
    ensures SharesReference(line, t) <==> Recognised(line, t)
  {
    if TextOf(line.reference) != "" && TextOf(t.reference) != "" {
      ContainsIsMentions(line.reference, t.reference);
      ContainsIsMentions(t.reference, line.reference);
    }
  }

  /** By how much one size exceeds another. */
  function Gap(a: int, b: int): int {
    (if a < 0 then -a else a) - (if b < 0 then -b else b)
  }

  /** Sixty points for the same amount, or thirty for one within the alert; twenty-five
      for dates a day apart at most; fifteen for a recognised reference. */
  ghost function Points(line: Line, t: Txn, alert: int): nat {
    var gap := Gap(t.cents, line.cents);
    (if gap == 0 then 60 else if -alert <= gap <= alert then 30 else 0)
    + (if t.date.Some? && -1 <= t.date.value - line.date <= 1 then 25 else 0)
    + (if Recognised(line, t) then 15 else 0)
  }

  lemma {:induction false} ConfidenceIsPoints(line: Line, t: Txn, alert: int)
    ensures Confidence(line, t, alert) == Points(line, t, alert)
  {
    SharesIsRecognised(line, t);
  }

  /** Same absolute amount and dates at most one day apart. */
  predicate Compatible(line: Line, t: Txn) {
    Abs(t.cents) == Abs(line.cents) && t.date.Some? && Abs(t.date.value - line.date) <= 1
  }

  /** The threshold asks for exactly the amount and the date; a reference decides nothing but ties. */
  lemma {:induction false} ThresholdIffCompatible(line: Line, t: Txn, alert: int)
    ensures Confidence(line, t, alert) == Points(line, t, alert)
    ensures Confidence(line, t, alert) >= 80 <==> Compatible(line, t)
  {
    ConfidenceIsPoints(line, t, alert);
  }

  // ----- one line -----

  /** The first of the transactions not yet used that has the highest positive score. */
  function Best(line: Line, txns: seq<Txn>, used: set<nat>, alert: int): (Option<Txn>, nat) {
    if txns == [] then (None, 0)
    else
      var (best, score) := Best(line, txns[..|txns| - 1], used, alert);
      var t := txns[|txns| - 1];
      if t.id !in used && Confidence(line, t, alert) > score then (Some(t), Confidence(line, t, alert)) else (best, score)
  }

  /** The k-th transaction is not used and scores more than every unused one before it. */
  ghost predicate Leads(line: Line, txns: seq<Txn>, used: set<nat>, k: int, alert: int) {
    && 0 <= k < |txns| && txns[k].id !in used
    && forall i :: 0 <= i < k && txns[i].id !in used ==> Points(line, txns[i], alert) < Points(line, txns[k], alert)
  }

  lemma {:induction false} BestIsFirstMaximum(line: Line, txns: seq<Txn>, used: set<nat>, alert: int)
    ensures var (best, score) := Best(line, txns, used, alert);
            && (forall i :: 0 <= i < |txns| && txns[i].id !in used ==> Points(line, txns[i], alert) <= score)
            && (best.None? ==> score == 0)
            && (best.Some? ==>
                  && score == Points(line, best.value, alert) && best.value in txns && best.value.id !in used
                  && exists k :: Leads(line, txns, used, k, alert) && best.value == txns[k])
  {
    if txns != [] {
      var n := |txns| - 1;
      BestIsFirstMaximum(line, txns[..n], used, alert);
      var (best, score) := Best(line, txns[..n], used, alert);
      var t := txns[n];
      assert txns == txns[..n] + [t];
      ConfidenceIsPoints(line, t, alert);
      if t.id !in used && Confidence(line, t, alert) > score {
        assert Leads(line, txns, used, n, alert);
      } else if best.Some? {
        var k :| Leads(line, txns[..n], used, k, alert) && best.value == txns[..n][k];
        LeadsStill(line, txns[..n], t, used, k, alert);
      }
    }
  }

  lemma {:induction false} LeadsStill(line: Line, txns: seq<Txn>, t: Txn, used: set<nat>, k: int, alert: int)
    requires Leads(line, txns, used, k, alert)
    ensures Leads(line, txns + [t], used, k, alert) && (txns + [t])[k] == txns[k]
  {
  }

  function RecordFor(line: Line, best: Option<Txn>, score: nat, alert: int): Record {
    if best.Some? && score >= 80 then
      var diff := Abs(Abs(line.cents) - Abs(best.value.cents));
      Record(line.date, line.reference, line.cents, score, Some(best.value.id), Some(best.value.cents), diff,
             if diff > alert then VARIANCIA else RELACIONADO)
    else
      Record(line.date, line.reference, line.cents, score, None, None, Abs(line.cents), SIN_RELACIONAR)
  }

  function MatchLine(line: Line, txns: seq<Txn>, used: set<nat>, alert: int): Record {
    var (best, score) := Best(line, txns, used, alert);
    RecordFor(line, best, score, alert)
  }

  /** A line is matched exactly when an unused compatible transaction is there, and
      then to one of those, with no variance. VARIANCIA is assigned exactly when that
      happens with a negative alert. */
  lemma {:induction false} MatchLineFinds(line: Line, txns: seq<Txn>, used: set<nat>, alert: int)
    ensures var r := MatchLine(line, txns, used, alert);
            && (r.status == SIN_RELACIONAR <==> !exists t :: t in txns && t.id !in used && Compatible(line, t))
            && (r.status != SIN_RELACIONAR ==> r.status == if alert < 0 then VARIANCIA else RELACIONADO)
            && (r.status != SIN_RELACIONAR ==>
                  exists t :: t in txns && t.id !in used && Compatible(line, t)
                              && r.txn == Some(t.id) && r.matched == Some(t.cents) && r.variance == 0)
            && (r.status == SIN_RELACIONAR ==> r.txn == None && r.matched == None && r.variance == Abs(line.cents))
            && r.date == line.date && r.reference == line.reference && r.cents == line.cents && r.score <= 100
  {
    BestIsFirstMaximum(line, txns, used, alert);
    var (best, score) := Best(line, txns, used, alert);
    if best.Some? {
      ThresholdIffCompatible(line, best.value, alert);
    }
    forall t | t in txns && t.id !in used && Compatible(line, t) ensures score >= 80 {
      ThresholdIffCompatible(line, t, alert);
      var i :| 0 <= i < |txns| && txns[i] == t;
    }
  }

  // ----- which candidate is taken -----

  ghost predicate Available(line: Line, txns: seq<Txn>, used: set<nat>, k: int) {
    0 <= k < |txns| && txns[k].id !in used && Compatible(line, txns[k])
  }

  /** The first available candidate whose reference is recognised, or, if there is none,
      the first available candidate. */
  ghost predicate Preferred(line: Line, txns: seq<Txn>, used: set<nat>, k: int) {
    && Available(line, txns, used, k)
    && if Recognised(line, txns[k]) then forall i :: 0 <= i < k && Available(line, txns, used, i) ==> !Recognised(line, txns[i])
       else forall i :: Available(line, txns, used, i) ==> !Recognised(line, txns[i]) && k <= i
  }

  lemma {:induction false} LeaderIsPreferred(line: Line, txns: seq<Txn>, used: set<nat>, k: int, alert: int)
    requires Leads(line, txns, used, k, alert) && Points(line, txns[k], alert) >= 80
    requires forall i :: 0 <= i < |txns| && txns[i].id !in used ==> Points(line, txns[i], alert) <= Points(line, txns[k], alert)
    ensures Preferred(line, txns, used, k) && Points(line, txns[k], alert) == if Recognised(line, txns[k]) then 100 else 85
  {
  }

  /** A reference decides between compatible candidates: a line is linked to the first
      one that it recognises, else to the first; and its record says which was the case. */
  lemma {:induction false} ReferenceDecides(line: Line, txns: seq<Txn>, used: set<nat>, alert: int)
    ensures var r := MatchLine(line, txns, used, alert);
            && (r.txn.Some? <==> exists k :: Available(line, txns, used, k))
            && (r.txn.Some? ==>
                  exists k :: Preferred(line, txns, used, k) && r.txn == Some(txns[k].id) && r.matched == Some(txns[k].cents)
                              && r.score == if Recognised(line, txns[k]) then 100 else 85)
  {
    MatchLineFinds(line, txns, used, alert);
    BestIsFirstMaximum(line, txns, used, alert);
    var r := MatchLine(line, txns, used, alert);
    forall t | t in txns && t.id !in used && Compatible(line, t) ensures exists k :: Available(line, txns, used, k) {
      var k :| 0 <= k < |txns| && txns[k] == t;
      assert Available(line, txns, used, k);
    }
    if r.txn.Some? {
      var best := Best(line, txns, used, alert).0;
      var k :| Leads(line, txns, used, k, alert) && best.value == txns[k];
      LeaderIsPreferred(line, txns, used, k, alert);
    }
  }

  /** A record without a link keeps the points of the best candidate that was not enough. */
  lemma {:induction false} UnmatchedScore(line: Line, txns: seq<Txn>, used: set<nat>, alert: int)
    ensures var r := MatchLine(line, txns, used, alert);
            && (forall t :: t in txns && t.id !in used ==> Points(line, t, alert) <= r.score)
            && (r.score == 0 || exists t :: t in txns && t.id !in used && Points(line, t, alert) == r.score)
  {
    BestIsFirstMaximum(line, txns, used, alert);
    forall t | t in txns && t.id !in used ensures Points(line, t, alert) <= MatchLine(line, txns, used, alert).score {
      var i :| 0 <= i < |txns| && txns[i] == t;
    }
  }

  // ----- a whole run -----

  predicate Links(r: Record) {
    (r.status == RELACIONADO || r.status == RESUELTO_MANUAL) && r.txn.Some?
  }

  function UsedIds(records: seq<Record>): set<nat> {
    set r | r in records && Links(r) :: r.txn.value
  }

  function MatchAll(lines: seq<Line>, txns: seq<Txn>, used: set<nat>, alert: int): seq<Record> {
    if lines == [] then []
    else
      var earlier := MatchAll(lines[..|lines| - 1], txns, used, alert);
      earlier + [MatchLine(lines[|lines| - 1], txns, used + UsedIds(earlier), alert)]
  }

  function Kept(lines: seq<Line>, day: Option<int>): seq<Line> {
    if lines == [] then []
    else
      var last := lines[|lines| - 1];
      Kept(lines[..|lines| - 1], day) + if day.None? || last.date == day.value then [last] else []
  }

  /** The lines of a run are the lines of its day, or all of them. */
  lemma {:induction false} KeptIsTheDay(lines: seq<Line>, day: Option<int>, line: Line)
    ensures line in Kept(lines, day) <==> line in lines && (day.None? || line.date == day.value)
  {
    if lines != [] {
      var n := |lines| - 1;
      KeptIsTheDay(lines[..n], day, line);
      assert lines == lines[..n] + [lines[n]];
    }
  }

  function MinDate(lines: seq<Line>): int
    requires lines != []
  {
    var last := lines[|lines| - 1].date;
    if |lines| == 1 then last
    else
      var m := MinDate(lines[..|lines| - 1]);
      if last < m then last else m
  }

  function MaxDate(lines: seq<Line>): int
    requires lines != []
  {
    var last := lines[|lines| - 1].date;
    if |lines| == 1 then last
    else
      var m := MaxDate(lines[..|lines| - 1]);
      if last > m then last else m
  }

  lemma {:induction false} DatesBetween(lines: seq<Line>)
    requires lines != []
    ensures forall i :: 0 <= i < |lines| ==> MinDate(lines) <= lines[i].date <= MaxDate(lines)
    ensures exists i :: 0 <= i < |lines| && lines[i].date == MinDate(lines)
    ensures exists i :: 0 <= i < |lines| && lines[i].date == MaxDate(lines)
  {
    var n := |lines| - 1;
    if n == 0 {
      assert lines[0].date == MinDate(lines) == MaxDate(lines);
    } else {
      var init := lines[..n];
      DatesBetween(init);
      var a :| 0 <= a < |init| && init[a].date == MinDate(init);
      var b :| 0 <= b < |init| && init[b].date == MaxDate(init);
      assert lines[a].date == MinDate(init) && lines[b].date == MaxDate(init);
      assert lines[n].date == MinDate(lines) || lines[a].date == MinDate(lines);
      assert lines[n].date == MaxDate(lines) || lines[b].date == MaxDate(lines);
      assert forall i :: 0 <= i < n ==> lines[i] == init[i];
    }
  }

  /** The rows of the query: dated from lo to hi, both included. */
  function Between(txns: seq<Txn>, lo: int, hi: int): seq<Txn> {
    if txns == [] then []
    else
      var last := txns[|txns| - 1];
      Between(txns[..|txns| - 1], lo, hi)
      + if last.date.Some? && lo <= last.date.value <= hi then [last] else []
  }

  lemma {:induction false} BetweenMembers(txns: seq<Txn>, lo: int, hi: int, t: Txn)
    ensures t in Between(txns, lo, hi) <==> t in txns && t.date.Some? && lo <= t.date.value <= hi
  {
    if txns != [] {
      var n := |txns| - 1;
      BetweenMembers(txns[..n], lo, hi, t);
      assert txns == txns[..n] + [txns[n]];
    }
  }

  /** At least two days from the first day of the calendar, 1, and three from the last, 3652059. */
  predicate HasRoom(line: Line) {
    3 <= line.date <= 3_652_056
  }

  /** The days to query, unless the date arithmetic overflows. */
  function Range(lines: seq<Line>, today: int): Result<(int, int), RunError> {
    if lines == [] then Success((today - 7, today))
    else
      var lo := MinDate(lines) - 2;
      var hi := MaxDate(lines) + 2;
      if lo < 1 || hi + 1 > MAX_DAY then Failure(DateOverflow) else Success((lo, hi))
  }

  function Count(s: Summary, status: Status): Summary {
    match status
    case RELACIONADO => s.(processed := s.processed + 1, matched := s.matched + 1)
    case VARIANCIA => s.(processed := s.processed + 1, variance := s.variance + 1)
    case _ => s.(processed := s.processed + 1, unmatched := s.unmatched + 1)
  }

  function Tally(records: seq<Record>): Summary {
    if records == [] then Summary(0, 0, 0, 0)
    else Count(Tally(records[..|records| - 1]), records[|records| - 1].status)
  }

  /** The records that one run adds to those of earlier runs. */
  function NewRecords(txns: seq<Txn>, records: seq<Record>, lines: seq<Line>, range: (int, int), alert: int): seq<Record> {
    MatchAll(lines, Between(txns, range.0, range.1), UsedIds(records), alert)
  }

  lemma {:induction false} MatchAllShape(lines: seq<Line>, txns: seq<Txn>, used: set<nat>, alert: int)
    ensures |MatchAll(lines, txns, used, alert)| == |lines|
    ensures forall i :: 0 <= i < |lines| ==>
              MatchAll(lines, txns, used, alert)[i] == MatchLine(lines[i], txns, used + UsedIds(MatchAll(lines, txns, used, alert)[..i]), alert)
  {
    if lines != [] {
      var n := |lines| - 1;
      MatchAllShape(lines[..n], txns, used, alert);
      var earlier := MatchAll(lines[..n], txns, used, alert);
      var all := MatchAll(lines, txns, used, alert);
      assert all[..n] == earlier;
      forall i | 0 <= i < |lines| ensures all[i] == MatchLine(lines[i], txns, used + UsedIds(all[..i]), alert) {
        if i < n {
          assert all[..i] == earlier[..i];
          assert lines[..n][i] == lines[i];
        }
      }
    }
  }

  /** The pairs of a run are a matching: each record links at most one
      transaction, no two records the same one, and none that was used before. */
  lemma {:induction false} RunIsMatching(lines: seq<Line>, txns: seq<Txn>, used: set<nat>, alert: int)
    ensures var rs := MatchAll(lines, txns, used, alert);
            && |rs| == |lines|
            && (forall i :: 0 <= i < |rs| && Links(rs[i]) ==> rs[i].txn.value !in used)
            && (forall i, j :: 0 <= i < j < |rs| && Links(rs[i]) && Links(rs[j]) ==> rs[i].txn != rs[j].txn)
            && (forall i :: 0 <= i < |rs| && Links(rs[i]) ==>
                  exists t :: t in txns && Compatible(lines[i], t) && rs[i].txn == Some(t.id))
  {
    var rs := MatchAll(lines, txns, used, alert);
    MatchAllShape(lines, txns, used, alert);
    forall i | 0 <= i < |rs|
      ensures Links(rs[i]) ==> rs[i].txn.value !in used && rs[i].txn.value !in UsedIds(rs[..i])
      ensures Links(rs[i]) ==> exists t :: t in txns && Compatible(lines[i], t) && rs[i].txn == Some(t.id)
    {
      MatchLineFinds(lines[i], txns, used + UsedIds(rs[..i]), alert);
    }
    forall i, j | 0 <= i < j < |rs| && Links(rs[i]) && Links(rs[j]) ensures rs[i].txn != rs[j].txn {
      assert rs[..j][i] == rs[i];
      assert rs[i].txn.value in UsedIds(rs[..j]);
    }
  }

  /** The widened query range loses no compatible transaction. */
  lemma {:induction false} RangeKeepsCompatible(lines: seq<Line>, txns: seq<Txn>, today: int, i: nat, t: Txn)
    requires i < |lines| && t in txns && Compatible(lines[i], t) && Range(lines, today).Success?
    ensures var (lo, hi) := Range(lines, today).value; t in Between(txns, lo, hi)
  {
    var (lo, hi) := Range(lines, today).value;
    DatesBetween(lines);
    BetweenMembers(txns, lo, hi, t);
  }

  /** The query goes from two days before the first line to two days after the last, and
      over the last week when there is none. */
  lemma {:induction false} RangeIsAround(lines: seq<Line>, today: int)
    requires Range(lines, today).Success?
    ensures var (lo, hi) := Range(lines, today).value;
            && (lines == [] ==> lo == today - 7 && hi == today)
            && (lines != [] ==>
                  && (forall i :: 0 <= i < |lines| ==> lo + 2 <= lines[i].date <= hi - 2)
                  && (exists i :: 0 <= i < |lines| && lines[i].date == lo + 2)
                  && (exists i :: 0 <= i < |lines| && lines[i].date == hi - 2))
  {
    if lines != [] {
      DatesBetween(lines);
    }
  }

  /** No compatible pair of an unmatched line and a free transaction is left over. */
  lemma {:induction false} RunIsMaximal(lines: seq<Line>, table: seq<Txn>, records: seq<Record>, today: int,
                                        i: nat, t: Txn, alert: int)
    requires Range(lines, today).Success? && i < |lines| && t in table && Compatible(lines[i], t)
    requires t.id !in UsedIds(records) && alert >= 0
    ensures var rs := NewRecords(table, records, lines, Range(lines, today).value, alert);
            |rs| == |lines| && (rs[i].status == RELACIONADO || t.id in UsedIds(rs))
  {
    var range := Range(lines, today).value;
    var txns := Between(table, range.0, range.1);
    var rs := MatchAll(lines, txns, UsedIds(records), alert);
    MatchAllShape(lines, txns, UsedIds(records), alert);
    RangeKeepsCompatible(lines, table, today, i, t);
    MatchLineFinds(lines[i], txns, UsedIds(records) + UsedIds(rs[..i]), alert);
    if t.id in UsedIds(rs[..i]) {
      assert forall r :: r in rs[..i] ==> r in rs;
    }
  }

  // ----- at least half of the best possible -----

  lemma {:induction false} InjectiveFirst(pairs: set<(nat, nat)>, firsts: set<nat>)
    requires forall p :: p in pairs ==> p.0 in firsts
    requires forall p, q :: p in pairs && q in pairs && p.0 == q.0 ==> p == q
    ensures |pairs| <= |firsts|
    decreases pairs
  {
    if pairs != {} {
      var p :| p in pairs;
      InjectiveFirst(pairs - {p}, firsts - {p.0});
    }
  }

  lemma {:induction false} InjectiveSecond(pairs: set<(nat, nat)>, seconds: set<nat>)
    requires forall p :: p in pairs ==> p.1 in seconds
    requires forall p, q :: p in pairs && q in pairs && p.1 == q.1 ==> p == q
    ensures |pairs| <= |seconds|
    decreases pairs
  {
    if pairs != {} {
      var p :| p in pairs;
      InjectiveSecond(pairs - {p}, seconds - {p.1});
    }
  }

  function MatchedLines(rs: seq<Record>): set<nat> {
    set i: nat | i < |rs| && rs[i].status == RELACIONADO
  }

  lemma {:induction false} TallyAppend(rs: seq<Record>, r: Record)
    ensures Tally(rs + [r]) == Count(Tally(rs), r.status)
  {
  }

  /** The counters of a run count the records of each status. */
  lemma {:induction false} TallyCounts(rs: seq<Record>)
    ensures var s := Tally(rs);
            && s.processed == |rs| && s.matched == |With(rs, {RELACIONADO})| && s.variance == |With(rs, {VARIANCIA})|
            && s.unmatched == |With(rs, {SIN_RELACIONAR, RESUELTO_MANUAL})|
  {
    if rs == [] {
      assert With(rs, {RELACIONADO}) == With(rs, {VARIANCIA}) == With(rs, {SIN_RELACIONAR, RESUELTO_MANUAL}) == {};
    } else {
      TallyCounts(rs[..|rs| - 1]);
      WithExtends(rs, {RELACIONADO});
      WithExtends(rs, {VARIANCIA});
      WithExtends(rs, {SIN_RELACIONAR, RESUELTO_MANUAL});
    }
  }

  function With(rs: seq<Record>, statuses: set<Status>): set<nat> {
    set i: nat | i < |rs| && rs[i].status in statuses
  }

  lemma {:induction false} WithExtends(rs: seq<Record>, statuses: set<Status>)
    requires rs != []
    ensures var n := |rs| - 1;
            |With(rs, statuses)| == |With(rs[..n], statuses)| + if rs[n].status in statuses then 1 else 0
  {
    var n := |rs| - 1;
    var before := With(rs[..n], statuses);
    if rs[n].status in statuses {
      assert With(rs, statuses) == before + {n};
    } else {
      assert With(rs, statuses) == before;
    }
  }

  lemma {:induction false} UsedIdsAppend(rs: seq<Record>, r: Record)
    ensures UsedIds(rs + [r]) == UsedIds(rs) + if Links(r) then {r.txn.value} else {}
  {
  }

  lemma {:induction false} MatchedLinesAppend(rs: seq<Record>, r: Record)
    ensures |MatchedLines(rs + [r])| == |MatchedLines(rs)| + if r.status == RELACIONADO then 1 else 0
  {
    var all := rs + [r];
    if r.status == RELACIONADO {
      assert MatchedLines(all) == MatchedLines(rs) + {|rs|};
    } else {
      assert MatchedLines(all) == MatchedLines(rs);
    }
  }

  lemma {:induction false} MatchedCounts(rs: seq<Record>)
    requires forall r :: r in rs ==> r.status == RELACIONADO || r.status == SIN_RELACIONAR
    ensures |MatchedLines(rs)| == Tally(rs).matched && |UsedIds(rs)| <= Tally(rs).matched
    ensures Tally(rs).processed == |rs| == Tally(rs).matched + Tally(rs).unmatched && Tally(rs).variance == 0
  {
    if rs == [] {
      assert MatchedLines(rs) == {};
      assert UsedIds(rs) == {};
    } else {
      var init, r := rs[..|rs| - 1], rs[|rs| - 1];
      assert rs == init + [r];
      MatchedCounts(init);
      TallyAppend(init, r);
      UsedIdsAppend(init, r);
      MatchedLinesAppend(init, r);
    }
  }

  /** Any other way to pair lines with transactions that were free when the run began. */
  ghost predicate FreeMatching(pairs: set<(nat, nat)>, lines: seq<Line>, table: seq<Txn>, records: seq<Record>) {
    && (forall p :: p in pairs ==>
          p.0 < |lines| && p.1 !in UsedIds(records) && exists t :: t in table && t.id == p.1 && Compatible(lines[p.0], t))
    && (forall p, q :: p in pairs && q in pairs && p.0 == q.0 ==> p == q)
    && (forall p, q :: p in pairs && q in pairs && p.1 == q.1 ==> p == q)
  }

  lemma {:induction false} RunStatuses(lines: seq<Line>, txns: seq<Txn>, used: set<nat>, alert: int)
    requires alert >= 0
    ensures forall r :: r in MatchAll(lines, txns, used, alert) ==> r.status == RELACIONADO || r.status == SIN_RELACIONAR
  {
    var rs := MatchAll(lines, txns, used, alert);
    MatchAllShape(lines, txns, used, alert);
    forall r | r in rs ensures r.status == RELACIONADO || r.status == SIN_RELACIONAR {
      var i :| 0 <= i < |rs| && rs[i] == r;
      MatchLineFinds(lines[i], txns, used + UsedIds(rs[..i]), alert);
    }
  }

  /** The greedy run finds at least half as many pairs as any matching could. */
  lemma {:induction false} HalfOfAnyMatching(pairs: set<(nat, nat)>, lines: seq<Line>, table: seq<Txn>,
                                             records: seq<Record>, today: int, alert: int)
    requires Range(lines, today).Success? && FreeMatching(pairs, lines, table, records) && alert >= 0
    ensures |pairs| <= 2 * Tally(NewRecords(table, records, lines, Range(lines, today).value, alert)).matched
  {
    var range := Range(lines, today).value;
    var rs := NewRecords(table, records, lines, range, alert);
    RunStatuses(lines, Between(table, range.0, range.1), UsedIds(records), alert);
    MatchedCounts(rs);
    var byLine := set p | p in pairs && p.0 in MatchedLines(rs);
    var byTxn := set p | p in pairs && p.1 in UsedIds(rs);
    forall p | p in pairs ensures p in byLine || p in byTxn {
      var t :| t in table && t.id == p.1 && Compatible(lines[p.0], t);
      RunIsMaximal(lines, table, records, today, p.0, t, alert);
    }
    InjectiveFirst(byLine, MatchedLines(rs));
    InjectiveSecond(byTxn, UsedIds(rs));
    CoverBound(pairs, byLine, byTxn);
  }

  lemma {:induction false} CoverBound<T>(all: set<T>, a: set<T>, b: set<T>)
    requires forall p :: p in all ==> p in a || p in b
    requires a <= all && b <= all
    ensures |all| <= |a| + |b|
  {
    assert all == a + (b - a);
    assert |b - a| <= |b| by {
      assert b == (b - a) + (a * b);
    }
  }

  lemma {:induction false} MatchAllAppend(lines: seq<Line>, line: Line, txns: seq<Txn>, used: set<nat>, alert: int)
    ensures var earlier := MatchAll(lines, txns, used, alert);
            MatchAll(lines + [line], txns, used, alert) == earlier + [MatchLine(line, txns, used + UsedIds(earlier), alert)]
  {
  }

  /** The first line fits both transactions and takes the only one that fits the second. */
  ghost predicate Crossed(l0: Line, l1: Line, t0: Txn, t1: Txn, alert: int) {
    && t0.id != t1.id && alert >= 0
    && Compatible(l0, t0) && Compatible(l0, t1) && Compatible(l1, t0) && !Compatible(l1, t1)
    && Points(l0, t1, alert) <= Points(l0, t0, alert)
  }

  lemma {:induction false} CrossedFirst(l0: Line, l1: Line, t0: Txn, t1: Txn, txns: seq<Txn>, used: set<nat>, alert: int)
    requires Crossed(l0, l1, t0, t1, alert) && |txns| == 2 && txns[0] == t0 && txns[1] == t1 && used == {}
    ensures MatchLine(l0, txns, used, alert).txn == Some(t0.id) && MatchLine(l0, txns, used, alert).status == RELACIONADO
  {
    BestIsFirstMaximum(l0, txns, used, alert);
    ThresholdIffCompatible(l0, t0, alert);
    ThresholdIffCompatible(l0, t1, alert);
  }

  lemma {:induction false} CrossedRun(l0: Line, l1: Line, t0: Txn, t1: Txn, lines: seq<Line>, txns: seq<Txn>, alert: int)
    requires Crossed(l0, l1, t0, t1, alert) && |txns| == 2 && txns[0] == t0 && txns[1] == t1
    requires |lines| == 2 && lines[0] == l0 && lines[1] == l1
    ensures Tally(MatchAll(lines, txns, {}, alert)).matched == 1
  {
    var rs := MatchAll(lines, txns, {}, alert);
    MatchAllShape(lines, txns, {}, alert);
    CrossedFirst(l0, l1, t0, t1, txns, {} + UsedIds(rs[..0]), alert);
    assert rs[0] == MatchLine(l0, txns, {} + UsedIds(rs[..0]), alert);
    assert rs[0] in rs[..1];
    MatchLineFinds(l1, txns, {} + UsedIds(rs[..1]), alert);
    TallyAppend([], rs[0]);
    TallyAppend([rs[0]], rs[1]);
    assert rs == [] + [rs[0]] + [rs[1]];
  }

  lemma {:induction false} CrossedRange(l0: Line, l1: Line, t0: Txn, t1: Txn, alert: int)
    requires Crossed(l0, l1, t0, t1, alert) && HasRoom(l0) && HasRoom(l1)
    ensures Range([l0, l1], 0).Success?
    ensures var (lo, hi) := Range([l0, l1], 0).value; Between([t0, t1], lo, hi) == [t0, t1]
  {
    var lines, table := [l0, l1], [t0, t1];
    RangeSucceedsIff(lines, 0);
    DatesBetween(lines);
    assert lines[0] == l0;
    var (lo, hi) := Range(lines, 0).value;
    assert table[..1] == [t0] && [t0][..0] == [];
    assert Between([t0], lo, hi) == [t0];
  }

  lemma {:induction false} CrossedPairs(l0: Line, l1: Line, t0: Txn, t1: Txn, lines: seq<Line>, txns: seq<Txn>, alert: int)
    requires Crossed(l0, l1, t0, t1, alert) && |txns| == 2 && txns[0] == t0 && txns[1] == t1
    requires |lines| == 2 && lines[0] == l0 && lines[1] == l1
    ensures FreeMatching({(0, t1.id), (1, t0.id)}, lines, txns, [])
  {
  }

  /** The bound is reached whenever the best candidate of one line is the only one of the next. */
  lemma {:induction false} HalfIsReached(l0: Line, l1: Line, t0: Txn, t1: Txn, alert: int)
    requires Crossed(l0, l1, t0, t1, alert) && HasRoom(l0) && HasRoom(l1)
    ensures Range([l0, l1], 0).Success?
    ensures Tally(NewRecords([t0, t1], [], [l0, l1], Range([l0, l1], 0).value, alert)).matched == 1
    ensures FreeMatching({(0, t1.id), (1, t0.id)}, [l0, l1], [t0, t1], []) && |{(0, t1.id), (1, t0.id)}| == 2
  {
    var lines, table := [l0, l1], [t0, t1];
    CrossedRange(l0, l1, t0, t1, alert);
    CrossedRun(l0, l1, t0, t1, lines, table, alert);
    assert UsedIds([]) == {};
    CrossedPairs(l0, l1, t0, t1, lines, table, alert);
  }

  lemma {:induction false} CrossedExample()
    ensures Crossed(Line(100, None, 500), Line(102, None, 500), Txn(0, 500, Some(101), None), Txn(1, -500, Some(99), None), 100)
  {
  }

  // ----- the columns of a record -----

  const MAX_REFERENCE := 100
  const BIGINT: int := 0x8000_0000_0000_0000

  /** VARCHAR(100): no longer, and text of the database holds no NUL. */
  predicate FitsText(reference: Option<string>) {
    reference.Some? ==> |reference.value| <= MAX_REFERENCE && '\0' !in reference.value
  }

  predicate FitsBigInt(x: int) {
    -BIGINT <= x < BIGINT
  }

  /** Every column takes its value; the score is a NUMERIC(3, 2). */
  predicate Fits(r: Record) {
    && FitsText(r.reference) && FitsBigInt(r.cents) && FitsBigInt(r.variance)
    && (r.matched.Some? ==> FitsBigInt(r.matched.value)) && r.score <= 999
  }

  /** What a caller can look at before the run: a reference of at most 100 characters,
      none of them NUL, and an amount of at most 63 bits, whatever its sign. */
  predicate Storable(line: Line) {
    && (line.reference.Some? ==>
          |line.reference.value| <= 100 && forall i :: 0 <= i < |line.reference.value| ==> line.reference.value[i] != '\0')
    && -9_223_372_036_854_775_807 <= line.cents <= 9_223_372_036_854_775_807
  }

  /** A record fits exactly when its line is storable, matched or not. */
  lemma {:induction false} FitsIffStorable(line: Line, txns: seq<Txn>, used: set<nat>, alert: int)
    ensures Fits(MatchLine(line, txns, used, alert)) <==> Storable(line)
  {
    MatchLineFinds(line, txns, used, alert);
  }

  lemma {:induction false} AllFitIffStorable(lines: seq<Line>, txns: seq<Txn>, used: set<nat>, alert: int)
    ensures (forall r :: r in MatchAll(lines, txns, used, alert) ==> Fits(r)) <==> forall line :: line in lines ==> Storable(line)
  {
    var rs := MatchAll(lines, txns, used, alert);
    MatchAllShape(lines, txns, used, alert);
    forall i | 0 <= i < |lines| ensures Fits(rs[i]) <==> Storable(lines[i]) {
      FitsIffStorable(lines[i], txns, used + UsedIds(rs[..i]), alert);
    }
    if forall r :: r in rs ==> Fits(r) {
      forall line | line in lines ensures Storable(line) {
        var i :| 0 <= i < |lines| && lines[i] == line;
        assert rs[i] in rs;
      }
    }
    if forall line :: line in lines ==> Storable(line) {
      forall r | r in rs ensures Fits(r) {
        var i :| 0 <= i < |rs| && rs[i] == r;
        assert lines[i] in lines;
      }
    }
  }

  // ----- run after run -----

  datatype RunInput = RunInput(lines: seq<Line>, day: Option<int>, today: int, alert: int)

  /** The records of one run, all committed together or none. */
  function NewRun(table: seq<Txn>, records: seq<Record>, input: RunInput): Result<seq<Record>, RunError> {
    var lines := Kept(input.lines, input.day);
    match Range(lines, input.today)
    case Failure(e) => Failure(e)
    case Success(range) =>
      var added := NewRecords(table, records, lines, range, input.alert);
      if forall r :: r in added ==> Fits(r) then Success(added) else Failure(NotStorable)
  }

  function AfterRun(table: seq<Txn>, records: seq<Record>, input: RunInput): seq<Record> {
    match NewRun(table, records, input)
    case Failure(_) => records
    case Success(added) => records + added
  }

  function AfterRuns(table: seq<Txn>, records: seq<Record>, inputs: seq<RunInput>): seq<Record> {
    if inputs == [] then records
    else AfterRun(table, AfterRuns(table, records, inputs[..|inputs| - 1]), inputs[|inputs| - 1])
  }

  /** A transaction is taken exactly if some record, settled by a run or by hand, is linked to it. */
  lemma {:induction false} TakenIff(records: seq<Record>, id: nat)
    ensures id in UsedIds(records) <==>
            exists r :: r in records && r.status in {RELACIONADO, RESUELTO_MANUAL} && r.txn == Some(id)
  {
  }

  /** No run links a transaction that a record of an earlier run, or one settled by hand, is linked to. */
  lemma {:induction false} EarlierLinksStay(table: seq<Txn>, records: seq<Record>, input: RunInput, before: Record, r: Record)
    requires NewRun(table, records, input).Success? && r in NewRun(table, records, input).value
    requires before in records && before.status in {RELACIONADO, RESUELTO_MANUAL} && before.txn.Some?
    ensures r.txn != before.txn
  {
    var lines := Kept(input.lines, input.day);
    var range := Range(lines, input.today).value;
    var txns := Between(table, range.0, range.1);
    var rs := NewRecords(table, records, lines, range, input.alert);
    TakenIff(records, before.txn.value);
    MatchAllShape(lines, txns, UsedIds(records), input.alert);
    var i :| 0 <= i < |rs| && rs[i] == r;
    var used := UsedIds(records) + UsedIds(rs[..i]);
    ReferenceDecides(lines[i], txns, used, input.alert);
  }

  ghost predicate NoTransactionTwice(records: seq<Record>) {
    forall i, j :: 0 <= i < j < |records| && Links(records[i]) && Links(records[j]) ==> records[i].txn != records[j].txn
  }

  /** No sequence of runs ever links one transaction to two statement lines. */
  lemma {:induction false} NeverTwiceAcrossRuns(table: seq<Txn>, records: seq<Record>, inputs: seq<RunInput>)
    requires NoTransactionTwice(records)
    ensures NoTransactionTwice(AfterRuns(table, records, inputs)) && records <= AfterRuns(table, records, inputs)
  {
    if inputs != [] {
      var n := |inputs| - 1;
      NeverTwiceAcrossRuns(table, records, inputs[..n]);
      var before := AfterRuns(table, records, inputs[..n]);
      if NewRun(table, before, inputs[n]).Success? {
        var lines := Kept(inputs[n].lines, inputs[n].day);
        var range := Range(lines, inputs[n].today).value;
        var added := NewRecords(table, before, lines, range, inputs[n].alert);
        RunIsMatching(lines, Between(table, range.0, range.1), UsedIds(before), inputs[n].alert);
        var after := before + added;
        forall i, j | 0 <= i < j < |after| && Links(after[i]) && Links(after[j]) ensures after[i].txn != after[j].txn {
          if i < |before| <= j {
            assert after[i].txn.value in UsedIds(before);
          }
        }
      }
    }
  }

  /** One turn of the outer loop extends the records by the next line's. */
  lemma {:induction false} LineStep(lines: seq<Line>, i: nat, txns: seq<Txn>, used: set<nat>, added: seq<Record>,
                 best: Option<Txn>, score: nat, record: Record, alert: int)
    requires i < |lines| && added == MatchAll(lines[..i], txns, used, alert)
    requires (best, score) == Best(lines[i], txns, used + UsedIds(added), alert) && record == RecordFor(lines[i], best, score, alert)
    ensures added + [record] == MatchAll(lines[..i + 1], txns, used, alert)
    ensures Tally(added + [record]) == Count(Tally(added), record.status)
    ensures record.status == RELACIONADO ==> best.Some?
    ensures UsedIds(added + [record]) == UsedIds(added) + if record.status == RELACIONADO then {best.value.id} else {}
  {
    UsedIdsAppend(added, record);
    TallyAppend(added, record);
    MatchAllAppend(lines[..i], lines[i], txns, used, alert);
    assert lines[..i + 1] == lines[..i] + [lines[i]];
  }

  // ----- the run in place -----

  class Reconciler {
    const txns: seq<Txn>
    const alert: int
    var records: seq<Record>

    constructor (txns: seq<Txn>, alert: int, records: seq<Record>)
      ensures this.txns == txns && this.alert == alert && this.records == records
    {
      this.txns, this.alert, this.records := txns, alert, records;
    }

    method SelectLines(lines: seq<Line>, day: Option<int>) returns (kept: seq<Line>)
      ensures kept == Kept(lines, day)
    {
      kept := [];
      for i := 0 to |lines|
        invariant kept == Kept(lines[..i], day)
      {
        assert lines[..i + 1][..i] == lines[..i];
        if day.None? || lines[i].date == day.value {
          kept := kept + [lines[i]];
        }
      }
      assert lines[..|lines|] == lines;
    }

    method SelectTransactions(lo: int, hi: int) returns (found: seq<Txn>)
      ensures found == Between(txns, lo, hi)
    {
      found := [];
      for i := 0 to |txns|
        invariant found == Between(txns[..i], lo, hi)
      {
        assert txns[..i + 1][..i] == txns[..i];
        if txns[i].date.Some? && lo <= txns[i].date.value <= hi {
          found := found + [txns[i]];
        }
      }
      assert txns[..|txns|] == txns;
    }

    /** The inner loop over the candidates of one line. */
    method BestCandidate(line: Line, candidates: seq<Txn>, alreadyMatched: set<nat>)
      returns (best: Option<Txn>, bestScore: nat)
      ensures (best, bestScore) == Best(line, candidates, alreadyMatched, alert)
    {
      best, bestScore := None, 0;
      for k := 0 to |candidates|
        invariant (best, bestScore) == Best(line, candidates[..k], alreadyMatched, alert)
      {
        assert candidates[..k + 1][..k] == candidates[..k];
        var t := candidates[k];
        if t.id in alreadyMatched {
          continue;
        }
        var score := Confidence(line, t, alert);
        if score > bestScore {
          best, bestScore := Some(t), score;
        }
      }
      assert candidates[..|candidates|] == candidates;
    }

    /** The record of one line, and the counters that it moves. */
    method StoreLine(line: Line, best: Option<Txn>, bestScore: nat, counters: Summary)
      returns (record: Record, summary: Summary)
      ensures record == RecordFor(line, best, bestScore, alert)
      ensures summary == Count(counters, record.status)
    {
      summary := counters.(processed := counters.processed + 1);
      record := Record(line.date, line.reference, line.cents, bestScore, None, None, 0, SIN_RELACIONAR);
      if best.Some? && bestScore >= 80 {
        var diff := Abs(Abs(line.cents) - Abs(best.value.cents));
        record := record.(txn := Some(best.value.id), matched := Some(best.value.cents), variance := diff);
        if diff > alert {
          record := record.(status := VARIANCIA);
          summary := summary.(variance := summary.variance + 1);
        } else {
          record := record.(status := RELACIONADO);
          summary := summary.(matched := summary.matched + 1);
        }
      } else {
        record := record.(variance := Abs(line.cents));
        summary := summary.(unmatched := summary.unmatched + 1);
      }
    }

    /** The outer loop: one record for each line, and the counters. */
    method MatchLines(lines: seq<Line>, candidates: seq<Txn>, usedBefore: set<nat>)
      returns (added: seq<Record>, summary: Summary)
      ensures added == MatchAll(lines, candidates, usedBefore, alert)
      ensures summary == Tally(added)
    {
      var alreadyMatched := usedBefore;
      added := [];
      summary := Summary(0, 0, 0, 0);
      for i := 0 to |lines|
        invariant added == MatchAll(lines[..i], candidates, usedBefore, alert)
        invariant alreadyMatched == usedBefore + UsedIds(added)
        invariant summary == Tally(added)
      {
        var best, bestScore := BestCandidate(lines[i], candidates, alreadyMatched);
        var record;
        record, summary := StoreLine(lines[i], best, bestScore, summary);
        LineStep(lines, i, candidates, usedBefore, added, best, bestScore, record, alert);
        if record.status == RELACIONADO {
          alreadyMatched := alreadyMatched + {best.value.id};
        }
        added := added + [record];
      }
      assert lines[..|lines|] == lines;
    }

    /** Matches every line and stores one record for each; a run that fails stores nothing. */
    method RunReconciliation(allLines: seq<Line>, day: Option<int>, today: int) returns (r: Result<Summary, RunError>)
      modifies this
      ensures records == AfterRun(txns, old(records), RunInput(allLines, day, today, alert))
      ensures r.Success? <==>
                forall line :: line in Kept(allLines, day) ==> HasRoom(line) && Storable(line)
      ensures r.Failure? ==> r.error == (if Range(Kept(allLines, day), today).Failure? then DateOverflow else NotStorable)
      ensures r.Success? ==>
                && old(records) <= records && r.value == Tally(records[|old(records)|..])
                && (alert >= 0 ==>
                      r.value.variance == 0 && r.value.processed == |Kept(allLines, day)| == r.value.matched + r.value.unmatched)
      ensures old(NoTransactionTwice(records)) ==> NoTransactionTwice(records)
    {
      var lines := SelectLines(allLines, day);
      var range := Range(lines, today);
      ghost var input := RunInput(allLines, day, today, alert);
      RunsOnce(txns, records, input);
      RunSucceedsIff(txns, records, input);
      if range.Failure? {
        return Failure(DateOverflow);
      }
      var candidates := SelectTransactions(range.value.0, range.value.1);
      var alreadyMatched := UsedIds(records);
      var added, summary := MatchLines(lines, candidates, alreadyMatched);
      if exists i :: 0 <= i < |added| && !Fits(added[i]) {
        return Failure(NotStorable);
      }
      MatchAllShape(lines, candidates, alreadyMatched, alert);
      if alert >= 0 {
        RunStatuses(lines, candidates, alreadyMatched, alert);
        MatchedCounts(added);
      }
      records := records + added;
      assert records[|old(records)|..] == added;
      return Success(summary);
    }
  }

  lemma {:induction false} RunsOnce(table: seq<Txn>, records: seq<Record>, input: RunInput)
    ensures NoTransactionTwice(records) ==> NoTransactionTwice(AfterRun(table, records, input))
  {
    if NoTransactionTwice(records) {
      NeverTwiceAcrossRuns(table, records, [input]);
      assert [input][..0] == [];
      assert AfterRuns(table, records, []) == records;
    }
  }

  /** The dates leave room for the widening exactly when every line is dated at least
      two days after the first and three days before the last representable day. */
  lemma {:induction false} RangeSucceedsIff(lines: seq<Line>, today: int)
    ensures Range(lines, today).Success? <==> forall i :: 0 <= i < |lines| ==> HasRoom(lines[i])
  {
    if lines != [] {
      DatesBetween(lines);
    }
  }

  /** A run goes through exactly when every line kept is dated with that room and can
      be stored; otherwise nothing of it stays. The source says that data never makes
      a run raise. */
  lemma {:induction false} RunSucceedsIff(table: seq<Txn>, records: seq<Record>, input: RunInput)
    ensures NewRun(table, records, input).Success? <==>
            forall line :: line in Kept(input.lines, input.day) ==> HasRoom(line) && Storable(line)
    ensures NewRun(table, records, input) == Failure(DateOverflow) <==>
            exists line :: line in Kept(input.lines, input.day) && !HasRoom(line)
    ensures NewRun(table, records, input).Failure? ==> AfterRun(table, records, input) == records
  {
    var lines := Kept(input.lines, input.day);
    RangeSucceedsIff(lines, input.today);
    assert Range(lines, input.today).Success? <==> forall line :: line in lines ==> HasRoom(line);
    if Range(lines, input.today).Success? {
      var range := Range(lines, input.today).value;
      AllFitIffStorable(lines, Between(table, range.0, range.1), UsedIds(records), input.alert);
    }
  }

  /** Three statements whose one line, dated in the middle of the calendar or at its
      edge, makes the run raise: a long reference, a huge amount, and an early date. */
  lemma {:induction false} DataCanRaise(table: seq<Txn>, records: seq<Record>, alert: int, long: string)
    requires |long| == 101
    ensures NewRun(table, records, RunInput([Line(700_000, Some(long), 500)], None, 700_000, alert)) == Failure(NotStorable)
    ensures NewRun(table, records, RunInput([Line(700_000, None, 9_223_372_036_854_775_808)], None, 700_000, alert)) == Failure(NotStorable)
    ensures NewRun(table, records, RunInput([Line(2, None, 500)], None, 700_000, alert)) == Failure(DateOverflow)
  {
    OneLineRaises(table, records, Line(700_000, Some(long), 500), alert);
    OneLineRaises(table, records, Line(700_000, None, 9_223_372_036_854_775_808), alert);
    OneLineRaises(table, records, Line(2, None, 500), alert);
  }

  lemma {:induction false} OneLineRaises(table: seq<Txn>, records: seq<Record>, line: Line, alert: int)
    ensures var run := NewRun(table, records, RunInput([line], None, 700_000, alert));
            && (run == Failure(DateOverflow) <==> !HasRoom(line))
            && (run == Failure(NotStorable) <==> HasRoom(line) && !Storable(line))
  {
    RunSucceedsIff(table, records, RunInput([line], None, 700_000, alert));
    KeptAlone(line);
  }

  lemma {:induction false} KeptAlone(line: Line)
    ensures Kept([line], None) == [line]
  {
    assert [line][..0] == [] && Kept([], None) == [];
  }
}
