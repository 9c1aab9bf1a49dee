/**
 The sliding window of backend/app/core/rate_limiter.py, in both forms: the local
 list of timestamps and the Redis sorted set with an expiring key. Times are counted
 in microseconds. A call names an identifier with the limit and the window that apply to it.
 */
module SlidingWindow {
  import opened Wrappers

  datatype Call = Call(id: string, limit: int, window: int, now: int)

  datatype Answer = Answer(allowed: bool, limit: int, remaining: int, reset: int, retryAfter: Option<int>)

  type Logs = map<string, seq<int>>

  const SECOND := 1_000_000

  /** int() of a float number of seconds: truncation toward zero. */
  function Trunc(x: int): int {
    if x >= 0 then x / SECOND else -(-x / SECOND)
  }

  function AtLeastOne(n: int): int {
    if n < 1 then 1 else n
  }

  function Prune(log: seq<int>, start: int): seq<int> {
    if log == [] then []
    else
      var last := log[|log| - 1];
      Prune(log[..|log| - 1], start) + if last > start then [last] else []
  }

  function Oldest(log: seq<int>): int
    requires log != []
  {
    var last := log[|log| - 1];
    if |log| == 1 then last
    else
      var least := Oldest(log[..|log| - 1]);
      if last < least then last else least
  }

  function LogOf(logs: Logs, id: string): seq<int> {
    if id in logs then logs[id] else []
  }

  function Start(c: Call): int {
    c.now - c.window * SECOND
  }

  function Granted(c: Call, used: int): Answer {
    Answer(true, c.limit, c.limit - used - 1, Trunc(c.now + c.window * SECOND), None)
  }

  function Denied(c: Call, retry: int): Answer {
    Answer(false, c.limit, 0, Trunc(c.now + c.window * SECOND), Some(AtLeastOne(retry)))
  }

  /** What a call is told when `recent` are the admissions inside its window. */
  function Decide(recent: seq<int>, c: Call): Answer {
    if |recent| < c.limit then Granted(c, |recent|)
    else Denied(c, Trunc((if recent == [] then c.now else Oldest(recent)) + c.window * SECOND - c.now))
  }

  function LocalStep(logs: Logs, c: Call): (Logs, Answer) {
    var recent := Prune(LogOf(logs, c.id), Start(c));
    var answer := Decide(recent, c);
    (logs[c.id := if answer.allowed then recent + [c.now] else recent], answer)
  }

  function LocalRun(calls: seq<Call>): (Logs, seq<Answer>) {
    if calls == [] then (map[], [])
    else
      var (logs, answers) := LocalRun(calls[..|calls| - 1]);
      var (logs', answer) := LocalStep(logs, calls[|calls| - 1]);
      (logs', answers + [answer])
  }

  lemma {:induction false} RunAnswersEveryCall(calls: seq<Call>)
    ensures |LocalRun(calls).1| == |calls|
  {
    if calls != [] {
      RunAnswersEveryCall(calls[..|calls| - 1]);
    }
  }

  /** The times at which an identifier was admitted, nothing ever forgotten. */
  function Admitted(calls: seq<Call>, answers: seq<Answer>, id: string): seq<int>
    requires |calls| == |answers|
  {
    if calls == [] then []
    else
      var n := |calls| - 1;
      Admitted(calls[..n], answers[..n], id) + if calls[n].id == id && answers[n].allowed then [calls[n].now] else []
  }

  // ----- pruning -----

  lemma {:induction false} PruneAppend(log: seq<int>, t: int, start: int)
    ensures Prune(log + [t], start) == Prune(log, start) + if t > start then [t] else []
  {
  }

  lemma {:induction false} PruneTwice(log: seq<int>, early: int, late: int)
    requires early <= late
    ensures Prune(Prune(log, early), late) == Prune(log, late)
  {
    if log != [] {
      var n := |log| - 1;
      PruneTwice(log[..n], early, late);
      if log[n] > early {
        PruneAppend(Prune(log[..n], early), log[n], late);
      } else {
        assert Prune(log[..n], early) + [] == Prune(log[..n], early);
      }
    }
  }

  lemma {:induction false} PruneKeepsRecent(log: seq<int>, start: int)
    ensures forall t :: t in Prune(log, start) <==> t in log && t > start
  {
    if log != [] {
      var n := |log| - 1;
      PruneKeepsRecent(log[..n], start);
      assert log == log[..n] + [log[n]];
    }
  }

  lemma {:induction false} OldestIsLeast(log: seq<int>)
    requires log != []
    ensures Oldest(log) in log && forall t :: t in log ==> Oldest(log) <= t
  {
    if |log| > 1 {
      var n := |log| - 1;
      OldestIsLeast(log[..n]);
      assert log == log[..n] + [log[n]];
    }
  }

  // ----- pruning is not observable -----

  /** Readings never go back, windows are positive, and an identifier always carries the same limit and window. */
  ghost predicate Orderly(calls: seq<Call>, policy: map<string, (int, int)>) {
    && (forall i, j :: 0 <= i < j < |calls| ==> calls[i].now <= calls[j].now)
    && (forall i :: 0 <= i < |calls| ==>
          calls[i].window > 0 && calls[i].id in policy && policy[calls[i].id] == (calls[i].limit, calls[i].window))
  }

  /** From any point still inside the window on, the stored list shows what the full history shows. */
  ghost predicate SameRecent(log: seq<int>, full: seq<int>, from: int) {
    forall start: int :: start >= from ==> Prune(log, start) == Prune(full, start)
  }

  lemma {:induction false} OrderlyPrefix(calls: seq<Call>, policy: map<string, (int, int)>)
    requires Orderly(calls, policy) && calls != []
    ensures Orderly(calls[..|calls| - 1], policy)
  {
  }

  lemma {:induction false} StepKeepsRecent(log: seq<int>, full: seq<int>, from: int, start: int)
    requires SameRecent(log, full, from) && from <= start
    ensures Prune(log, start) == Prune(full, start)
    ensures SameRecent(Prune(log, start), full, start)
  {
    forall s: int | s >= start ensures Prune(Prune(log, start), s) == Prune(full, s) {
      PruneTwice(log, start, s);
    }
  }

  lemma {:induction false} AppendKeepsRecent(log: seq<int>, full: seq<int>, from: int, t: int)
    requires SameRecent(log, full, from)
    ensures SameRecent(log + [t], full + [t], from)
  {
  }

  lemma {:induction false} StepLog(logs: Logs, c: Call, id: string)
    ensures LogOf(LocalStep(logs, c).0, id) ==
            if c.id != id then LogOf(logs, id)
            else Prune(LogOf(logs, id), Start(c)) + if LocalStep(logs, c).1.allowed then [c.now] else []
  {
  }

  lemma {:induction false} RunExtends(calls: seq<Call>, c: Call)
    ensures LocalRun(calls + [c]).0 == LocalStep(LocalRun(calls).0, c).0
    ensures LocalRun(calls + [c]).1 == LocalRun(calls).1 + [LocalStep(LocalRun(calls).0, c).1]
  {
  }

  lemma {:induction false} AdmittedExtends(calls: seq<Call>, answers: seq<Answer>, c: Call, answer: Answer, id: string)
    requires |calls| == |answers|
    ensures Admitted(calls + [c], answers + [answer], id) ==
            Admitted(calls, answers, id) + if c.id == id && answer.allowed then [c.now] else []
  {
  }

  /** One more call keeps the list as good as the history, from the new window start on. */
  lemma {:induction false} StepStaysRecent(logs: Logs, full: seq<int>, c: Call, id: string, from: int, from': int)
    requires SameRecent(LogOf(logs, id), full, from) && from <= from'
    requires c.id == id ==> from' == Start(c)
    ensures SameRecent(LogOf(LocalStep(logs, c).0, id),
                       full + if c.id == id && LocalStep(logs, c).1.allowed then [c.now] else [], from')
  {
    var log := LogOf(logs, id);
    StepLog(logs, c, id);
    assert full + [] == full;
    if c.id == id {
      StepKeepsRecent(log, full, from, from');
      assert Prune(log, from') + [] == Prune(log, from');
      if LocalStep(logs, c).1.allowed {
        AppendKeepsRecent(Prune(log, from'), full, from', c.now);
      }
    }
  }

  /** After any orderly run the pruned lists decide as the complete history of admissions would. */
  lemma {:induction false} PruningIsInvisible(calls: seq<Call>, policy: map<string, (int, int)>, id: string)
    requires Orderly(calls, policy) && calls != [] && id in policy
    ensures |LocalRun(calls).1| == |calls|
    ensures SameRecent(LogOf(LocalRun(calls).0, id), Admitted(calls, LocalRun(calls).1, id),
                       calls[|calls| - 1].now - policy[id].1 * SECOND)
    decreases |calls|
  {
    var init, c := calls[..|calls| - 1], calls[|calls| - 1];
    assert calls == init + [c];
    RunAnswersEveryCall(calls);
    RunAnswersEveryCall(init);
    RunExtends(init, c);
    var (logs, answers) := LocalRun(init);
    AdmittedExtends(init, answers, c, LocalStep(logs, c).1, id);
    var full := Admitted(init, answers, id);
    var from' := c.now - policy[id].1 * SECOND;
    if init == [] {
      StepStaysRecent(logs, full, c, id, from', from');
    } else {
      OrderlyPrefix(calls, policy);
      PruningIsInvisible(init, policy, id);
      StepStaysRecent(logs, full, c, id, init[|init| - 1].now - policy[id].1 * SECOND, from');
    }
  }

  /** Each answer of an orderly run is the answer computed from the complete history before it. */
  lemma {:induction false} AnswersFromFullHistory(calls: seq<Call>, policy: map<string, (int, int)>)
    requires Orderly(calls, policy) && calls != []
    ensures |LocalRun(calls).1| == |calls| && |LocalRun(calls[..|calls| - 1]).1| == |calls| - 1
    ensures var n := |calls| - 1;
            LocalRun(calls).1[n]
            == Decide(Prune(Admitted(calls[..n], LocalRun(calls[..n]).1, calls[n].id), Start(calls[n])), calls[n])
  {
    var n := |calls| - 1;
    RunAnswersEveryCall(calls);
    RunAnswersEveryCall(calls[..n]);
    var c := calls[n];
    if n > 0 {
      OrderlyPrefix(calls, policy);
      PruningIsInvisible(calls[..n], policy, c.id);
      assert calls[n - 1].now <= c.now;
    }
  }

  // ----- what an answer says -----

  /** The places in a history at which a time after `start` is recorded. */
  function After(times: seq<int>, start: int): set<nat> {
    set i: nat | i < |times| && times[i] > start
  }

  lemma {:induction false} PruneCounts(times: seq<int>, start: int)
    ensures |Prune(times, start)| == |After(times, start)|
  {
    if times == [] {
      assert After(times, start) == {};
    } else {
      var n := |times| - 1;
      PruneCounts(times[..n], start);
      var before := After(times[..n], start);
      assert After(times, start) == if times[n] > start then before + {n} else before;
    }
  }

  /** The number of whole seconds in a time that is not negative. */
  predicate IsSeconds(seconds: int, micros: int) {
    1_000_000 * seconds <= micros < 1_000_000 * seconds + 1_000_000
  }

  /** The first of the times after `start`, where `start` itself stands for none. */
  ghost predicate EarliestAfter(times: seq<int>, start: int, t: int) {
    && (exists i :: 0 <= i < |times| && times[i] == t && t > start)
    && forall i :: 0 <= i < |times| && times[i] > start ==> t <= times[i]
  }

  /** What a call is told when `times` are the admissions of its identifier so far: it is
      admitted exactly if those in the window that ends now are fewer than the limit, is
      told how many are left, and a denied one how long until the earliest of them
      leaves the window, in whole seconds and at least one. */
  ghost predicate Tells(answer: Answer, c: Call, times: seq<int>) {
    var start := c.now - c.window * 1_000_000;
    var used := |After(times, start)|;
    && answer.limit == c.limit && IsSeconds(answer.reset, c.now + c.window * 1_000_000)
    && (answer.allowed <==> used < c.limit)
    && (answer.allowed ==> answer.remaining == c.limit - used - 1 && answer.retryAfter == None)
    && (!answer.allowed ==> answer.remaining == 0 && answer.retryAfter.Some? && answer.retryAfter.value >= 1)
    && (!answer.allowed && used > 0 ==>
          exists t :: EarliestAfter(times, start, t)
                      && (IsSeconds(answer.retryAfter.value, t - start)
                          || (answer.retryAfter.value == 1 && t - start < 1_000_000)))
  }

  lemma {:induction false} DecideTells(times: seq<int>, c: Call)
    requires c.window > 0 && c.now >= 0
    ensures Tells(Decide(Prune(times, Start(c)), c), c, times)
  {
    var recent := Prune(times, Start(c));
    PruneCounts(times, Start(c));
    if recent != [] {
      OldestIsLeast(recent);
      PruneKeepsRecent(times, Start(c));
      forall i | 0 <= i < |times| && times[i] > Start(c) ensures Oldest(recent) <= times[i] {
        assert times[i] in times;
      }
      assert EarliestAfter(times, Start(c), Oldest(recent));
    }
  }

  /** The last answer of an orderly run tells what the admissions before it say. */
  lemma {:induction false} AnswerMeaning(calls: seq<Call>, policy: map<string, (int, int)>)
    requires Orderly(calls, policy) && calls != [] && calls[|calls| - 1].now >= 0
    ensures |LocalRun(calls).1| == |calls| && |LocalRun(calls[..|calls| - 1]).1| == |calls| - 1
    ensures var n, c := |calls| - 1, calls[|calls| - 1];
            Tells(LocalRun(calls).1[n], c, Admitted(calls[..n], LocalRun(calls[..n]).1, c.id))
  {
    var n, c := |calls| - 1, calls[|calls| - 1];
    AnswersFromFullHistory(calls, policy);
    DecideTells(Admitted(calls[..n], LocalRun(calls[..n]).1, c.id), c);
  }

  // ----- the bound -----

  /** Admissions from `lo` on and before `lo + span`. */
  function CountIn(times: seq<int>, lo: int, span: int): nat {
    if times == [] then 0
    else
      var last := times[|times| - 1];
      CountIn(times[..|times| - 1], lo, span) + if lo <= last < lo + span then 1 else 0
  }

  lemma {:induction false} CountFitsInWindow(times: seq<int>, lo: int, span: int, start: int)
    requires start < lo
    ensures CountIn(times, lo, span) <= |Prune(times, start)|
  {
    if times != [] {
      CountFitsInWindow(times[..|times| - 1], lo, span, start);
    }
  }

  lemma {:induction false} CountAppend(times: seq<int>, t: int, lo: int, span: int)
    ensures CountIn(times + [t], lo, span) == CountIn(times, lo, span) + if lo <= t < lo + span then 1 else 0
  {
  }

  /** No half-open interval of the length of the window holds more than `limit`
      admitted calls of one identifier. */
  lemma {:induction false} AtMostLimitPerWindow(calls: seq<Call>, policy: map<string, (int, int)>, id: string, lo: int)
    requires Orderly(calls, policy) && id in policy && policy[id].0 >= 0
    ensures |LocalRun(calls).1| == |calls|
    ensures CountIn(Admitted(calls, LocalRun(calls).1, id), lo, policy[id].1 * SECOND) <= policy[id].0
    decreases |calls|
  {
    RunAnswersEveryCall(calls);
    if calls != [] {
      var n := |calls| - 1;
      var c := calls[n];
      OrderlyPrefix(calls, policy);
      RunAnswersEveryCall(calls[..n]);
      AtMostLimitPerWindow(calls[..n], policy, id, lo);
      assert LocalRun(calls).1[..n] == LocalRun(calls[..n]).1;
      var before := Admitted(calls[..n], LocalRun(calls[..n]).1, id);
      if c.id == id && LocalRun(calls).1[n].allowed {
        AnswersFromFullHistory(calls, policy);
        CountAppend(before, c.now, lo, policy[id].1 * SECOND);
        if lo <= c.now < lo + policy[id].1 * SECOND {
          CountFitsInWindow(before, lo, policy[id].1 * SECOND, Start(c));
        }
      } else {
        assert before + [] == before;
      }
    }
  }

  // ----- what the wait of a denied call is worth -----

  lemma {:induction false} PruneDropsIff(log: seq<int>, start: int)
    ensures |Prune(log, start)| <= |log|
    ensures |Prune(log, start)| == |log| <==> forall t :: t in log ==> t > start
  {
    if log != [] {
      var n := |log| - 1;
      PruneDropsIff(log[..n], start);
      assert log == log[..n] + [log[n]];
      assert log[n] in log && forall t :: t in log[..n] ==> t in log;
    }
  }

  lemma {:induction false} StoredAtMostLimit(calls: seq<Call>, policy: map<string, (int, int)>, id: string)
    requires Orderly(calls, policy) && id in policy && policy[id].0 >= 0
    ensures |LogOf(LocalRun(calls).0, id)| <= policy[id].0
  {
    if calls != [] {
      var init, c := calls[..|calls| - 1], calls[|calls| - 1];
      assert calls == init + [c];
      OrderlyPrefix(calls, policy);
      StoredAtMostLimit(init, policy, id);
      RunExtends(init, c);
      StepLog(LocalRun(init).0, c, id);
      PruneDropsIff(LogOf(LocalRun(init).0, id), Start(c));
    }
  }

  /** What a call that was just denied has to wait until the oldest stored admission leaves the window. */
  function Gap(log: seq<int>, c: Call): int
    requires log != []
  {
    Oldest(log) + c.window * SECOND - c.now
  }

  /** The same call, some seconds later. */
  function Later(c: Call, seconds: int): Call {
    c.(now := c.now + seconds * SECOND)
  }

  /** A full list lets a later call through exactly when its oldest entry has left the window by then. */
  lemma {:induction false} FullListAdmitsIff(logs: Logs, c: Call, seconds: int)
    requires LogOf(logs, c.id) != [] && |LogOf(logs, c.id)| == c.limit
    ensures LocalStep(logs, Later(c, seconds)).1.allowed <==> Gap(LogOf(logs, c.id), c) <= seconds * SECOND
  {
    var log := LogOf(logs, c.id);
    var start := Start(Later(c, seconds));
    PruneDropsIff(log, start);
    OldestIsLeast(log);
    assert Oldest(log) <= start <==> Gap(log, c) <= seconds * SECOND;
  }

  lemma {:induction false} WholeSecondsReach(gap: int, seconds: int)
    requires gap > 0 && seconds == AtLeastOne(Trunc(gap))
    ensures gap <= seconds * SECOND <==> gap % SECOND == 0 || gap <= SECOND
    ensures gap <= (seconds + 1) * SECOND
  {
  }

  /** A denied call finds a full window, all of it still inside. */
  lemma {:induction false} DeniedFindsFull(calls: seq<Call>, policy: map<string, (int, int)>, c: Call)
    requires Orderly(calls + [c], policy) && c.limit >= 1
    requires !LocalStep(LocalRun(calls).0, c).1.allowed
    ensures var log := LogOf(LocalStep(LocalRun(calls).0, c).0, c.id);
            && log != [] && |log| == c.limit && Gap(log, c) > 0
            && LocalStep(LocalRun(calls).0, c).1.retryAfter == Some(AtLeastOne(Trunc(Gap(log, c))))
  {
    var before := LogOf(LocalRun(calls).0, c.id);
    var recent := Prune(before, Start(c));
    assert c == (calls + [c])[|calls|];
    RunExtends(calls, c);
    StoredAtMostLimit(calls + [c], policy, c.id);
    assert LogOf(LocalStep(LocalRun(calls).0, c).0, c.id) == recent;
    OldestIsLeast(recent);
    PruneKeepsRecent(before, Start(c));
  }

  /** A call denied at the end of a run and made again, with no other call of its
      identifier in between, after the wait that it was told: it is admitted exactly
      when the time left was a whole number of seconds or at most one second. One
      second more always suffices. */
  lemma {:induction false} RetryAdmittedIff(calls: seq<Call>, policy: map<string, (int, int)>, c: Call)
    requires Orderly(calls + [c], policy) && c.limit >= 1
    requires !LocalStep(LocalRun(calls).0, c).1.allowed
    ensures var (logs, answer) := LocalStep(LocalRun(calls).0, c);
            && LogOf(logs, c.id) != [] && answer.retryAfter.Some?
            && var gap, wait := Gap(LogOf(logs, c.id), c), answer.retryAfter.value;
               && gap > 0
               && (LocalStep(logs, Later(c, wait)).1.allowed <==> gap % SECOND == 0 || gap <= SECOND)
               && LocalStep(logs, Later(c, wait + 1)).1.allowed
  {
    DeniedFindsFull(calls, policy, c);
    var (logs, answer) := LocalStep(LocalRun(calls).0, c);
    RetryOfFull(logs, c, answer.retryAfter.value);
  }

  lemma {:induction false} RetryOfFull(logs: Logs, c: Call, wait: int)
    requires LogOf(logs, c.id) != [] && |LogOf(logs, c.id)| == c.limit && Gap(LogOf(logs, c.id), c) > 0
    requires wait == AtLeastOne(Trunc(Gap(LogOf(logs, c.id), c)))
    ensures var gap := Gap(LogOf(logs, c.id), c);
            && (LocalStep(logs, Later(c, wait)).1.allowed <==> gap % SECOND == 0 || gap <= SECOND)
            && LocalStep(logs, Later(c, wait + 1)).1.allowed
  {
    WholeSecondsReach(Gap(LogOf(logs, c.id), c), wait);
    FullListAdmitsIff(logs, c, wait);
    FullListAdmitsIff(logs, c, wait + 1);
  }

  lemma {:induction false} OneEntryDenies(logs: Logs, c: Call, t: int)
    requires LogOf(logs, c.id) == [t] && t > Start(c) && c.limit == 1
    ensures LocalStep(logs, c).1 == Denied(c, Trunc(t + c.window * SECOND - c.now))
    ensures LogOf(LocalStep(logs, c).0, c.id) == [t]
  {
    assert [t][..0] == [];
    assert Prune([t], Start(c)) == [t];
  }

  /** It happens: one admission a minute, one at 0 and a call at half a second, which
      is told 59 seconds and is denied again after them. */
  lemma {:induction false} RetryTooEarly()
    ensures var first, second := Call("a", 1, 60, 0), Call("a", 1, 60, SECOND / 2);
            var (logs, answer) := LocalStep(LocalStep(map[], first).0, second);
            && LocalStep(map[], first).1.allowed && answer.retryAfter == Some(59)
            && !LocalStep(logs, Later(second, 59)).1.allowed
  {
    var first, second := Call("a", 1, 60, 0), Call("a", 1, 60, SECOND / 2);
    var logs := LocalStep(map[], first).0;
    OneEntryDenies(logs, second, 0);
    RetryOfFull(LocalStep(logs, second).0, second, 59);
  }

  // ----- the sorted set -----

  /** Scores in ascending order. The member is the printed timestamp, so equal readings are one member. */
  datatype Key = Key(scores: seq<int>, expires: int)

  type Redis = map<string, Key>

  function ZAdd(scores: seq<int>, t: int): seq<int> {
    if scores == [] then [t]
    else
      var n := |scores| - 1;
      if scores[n] < t then scores + [t]
      else if scores[n] == t then scores
      else ZAdd(scores[..n], t) + [scores[n]]
  }

  /** ZREMRANGEBYSCORE from zero up to and including `high`. */
  function ZRemRange(scores: seq<int>, high: int): seq<int> {
    if scores == [] then []
    else
      var last := scores[|scores| - 1];
      ZRemRange(scores[..|scores| - 1], high) + if 0 <= last <= high then [] else [last]
  }

  function Live(redis: Redis, id: string, now: int): seq<int> {
    if id in redis && now < redis[id].expires then redis[id].scores else []
  }

  /** An empty set is no key, and its expiry goes with it. */
  function RedisStep(redis: Redis, c: Call): (Redis, Answer) {
    var kept := ZRemRange(Live(redis, c.id, c.now), Start(c));
    if |kept| < c.limit then
      (redis[c.id := Key(ZAdd(kept, c.now), c.now + c.window * SECOND)], Granted(c, |kept|))
    else if kept == [] then
      (redis - {c.id}, Denied(c, c.window))
    else
      (redis[c.id := Key(kept, if c.id in redis then redis[c.id].expires else c.now)],
       Denied(c, Trunc(kept[0] + c.window * SECOND - c.now)))
  }

  function RedisRun(calls: seq<Call>): (Redis, seq<Answer>) {
    if calls == [] then (map[], [])
    else
      var (redis, answers) := RedisRun(calls[..|calls| - 1]);
      var (redis', answer) := RedisStep(redis, calls[|calls| - 1]);
      (redis', answers + [answer])
  }

  ghost predicate Increasing(log: seq<int>) {
    forall i, j :: 0 <= i < j < |log| ==> log[i] < log[j]
  }

  /** Adding a reading keeps the set in order and adds just that reading. */
  lemma {:induction false} ZAddMeaning(scores: seq<int>, t: int)
    requires Increasing(scores)
    ensures Increasing(ZAdd(scores, t))
    ensures forall x :: x in ZAdd(scores, t) <==> x in scores || x == t
  {
    if scores != [] {
      var n := |scores| - 1;
      assert scores == scores[..n] + [scores[n]];
      if scores[n] > t {
        ZAddMeaning(scores[..n], t);
        var before := ZAdd(scores[..n], t);
        forall i | 0 <= i < |before| ensures before[i] < scores[n] {
          assert before[i] in before;
        }
      }
    }
  }

  lemma {:induction false} RemRangeIsPrune(log: seq<int>, start: int)
    requires forall i :: 0 <= i < |log| ==> 0 <= log[i]
    ensures ZRemRange(log, start) == Prune(log, start)
  {
    if log != [] {
      RemRangeIsPrune(log[..|log| - 1], start);
    }
  }

  /** Pruning an ascending list keeps a suffix of it. */
  lemma {:induction false} PruneIncreasing(log: seq<int>, start: int) returns (k: nat)
    requires Increasing(log)
    ensures k <= |log| && Prune(log, start) == log[k..]
  {
    k := 0;
    if log != [] {
      var n := |log| - 1;
      k := PruneIncreasing(log[..n], start);
      if log[n] > start {
        assert log[..n][k..] + [log[n]] == log[k..];
      } else {
        NothingRecent(log[..n], start);
        k := n + 1;
      }
    }
  }

  lemma {:induction false} NothingRecent(log: seq<int>, start: int)
    requires forall i :: 0 <= i < |log| ==> log[i] <= start
    ensures Prune(log, start) == []
  {
    if log != [] {
      NothingRecent(log[..|log| - 1], start);
    }
  }

  lemma {:induction false} OldestIsFirst(log: seq<int>)
    requires log != [] && Increasing(log)
    ensures Oldest(log) == log[0]
  {
    if |log| > 1 {
      OldestIsFirst(log[..|log| - 1]);
    }
  }

  /** One identifier's list and sorted set hold the same admissions. */
  ghost predicate Agree(log: seq<int>, redis: Redis, id: string, last: int, window: int) {
    && Increasing(log)
    && (forall i :: 0 <= i < |log| ==> 0 <= log[i] <= last)
    && (id !in redis ==> log == [])
    && (id in redis ==> log != [] && redis[id] == Key(log, log[|log| - 1] + window * SECOND))
  }

  /** What is left of the sorted set, after expiry and range removal, is the pruned list. */
  lemma {:induction false} KeptIsPruned(log: seq<int>, redis: Redis, c: Call, last: int)
    requires Agree(log, redis, c.id, last, c.window)
    ensures ZRemRange(Live(redis, c.id, c.now), Start(c)) == Prune(log, Start(c))
  {
    if c.id in redis && c.now < redis[c.id].expires {
      RemRangeIsPrune(log, Start(c));
    } else {
      NothingRecent(log, Start(c));
    }
  }

  lemma {:induction false} AdmissionAgrees(log: seq<int>, pruned: seq<int>, k: nat, c: Call, redis: Redis, last: int)
    requires Increasing(log) && (forall i :: 0 <= i < |log| ==> 0 <= log[i] <= last) && last < c.now && c.now >= 0
    requires k <= |log| && pruned == log[k..]
    requires c.id in redis && redis[c.id] == Key(ZAdd(pruned, c.now), c.now + c.window * SECOND)
    ensures Agree(pruned + [c.now], redis, c.id, c.now, c.window)
  {
  }

  lemma {:induction false} DenialAgrees(log: seq<int>, pruned: seq<int>, k: nat, c: Call, redis: Redis, last: int)
    requires Agree(log, redis, c.id, last, c.window) && c.window > 0
    requires k <= |log| && pruned == log[k..] && Prune(log, Start(c)) == pruned && |pruned| >= c.limit
    ensures Decide(pruned, c) == RedisStep(redis, c).1
    ensures Agree(pruned, RedisStep(redis, c).0, c.id, last, c.window)
  {
    KeptIsPruned(log, redis, c, last);
    DenialAnswers(pruned, redis, c);
    if pruned == [] {
      assert RedisStep(redis, c).0 == redis - {c.id};
    } else {
      SuffixAgrees(log, pruned, k, redis, redis[c.id := Key(pruned, redis[c.id].expires)], c.id, last, c.window);
    }
  }

  lemma {:induction false} SuffixAgrees(log: seq<int>, pruned: seq<int>, k: nat, redis: Redis, after: Redis, id: string,
                                        last: int, window: int)
    requires Agree(log, redis, id, last, window) && k < |log| && pruned == log[k..]
    requires id in redis && id in after && after[id] == Key(pruned, redis[id].expires)
    ensures Agree(pruned, after, id, last, window)
  {
    assert pruned[|pruned| - 1] == log[|log| - 1];
  }

  lemma {:induction false} DenialAnswers(pruned: seq<int>, redis: Redis, c: Call)
    requires Increasing(pruned) && |pruned| >= c.limit && c.window > 0
    requires ZRemRange(Live(redis, c.id, c.now), Start(c)) == pruned
    ensures Decide(pruned, c) == RedisStep(redis, c).1
  {
    if pruned == [] {
      assert Trunc(c.now + c.window * SECOND - c.now) == c.window;
    } else {
      OldestIsFirst(pruned);
    }
  }

  /** Stores that agree give the same answer, whatever the reading of the call. */
  lemma {:induction false} AnswersAgree(logs: Logs, redis: Redis, c: Call, last: int)
    requires Agree(LogOf(logs, c.id), redis, c.id, last, c.window) && c.window > 0
    ensures LocalStep(logs, c).1 == RedisStep(redis, c).1
  {
    var log := LogOf(logs, c.id);
    var pruned := Prune(log, Start(c));
    var k := PruneIncreasing(log, Start(c));
    KeptIsPruned(log, redis, c, last);
    if |pruned| >= c.limit {
      DenialAgrees(log, pruned, k, c, redis, last);
    }
  }

  /** And they still agree after a call that reads a later time than any before it. */
  lemma {:induction false} StepsAgree(logs: Logs, redis: Redis, c: Call, last: int)
    requires Agree(LogOf(logs, c.id), redis, c.id, last, c.window) && last < c.now && c.window > 0 && c.now >= 0
    ensures Agree(LogOf(LocalStep(logs, c).0, c.id), RedisStep(redis, c).0, c.id, c.now, c.window)
  {
    var log := LogOf(logs, c.id);
    var pruned := Prune(log, Start(c));
    var k := PruneIncreasing(log, Start(c));
    StepLog(logs, c, c.id);
    KeptIsPruned(log, redis, c, last);
    if |pruned| < c.limit {
      AdmissionAgrees(log, pruned, k, c, RedisStep(redis, c).0, last);
    } else {
      assert pruned + [] == pruned;
      DenialAgrees(log, pruned, k, c, redis, last);
    }
  }

  /** A call of one identifier does not touch the other. */
  lemma {:induction false} StepsApart(logs: Logs, redis: Redis, c: Call, id: string, last: int, window: int)
    requires Agree(LogOf(logs, id), redis, id, last, window) && c.id != id
    ensures Agree(LogOf(LocalStep(logs, c).0, id), RedisStep(redis, c).0, id, last, window)
  {
  }

  /** The last reading of an identifier. */
  function LastOwn(calls: seq<Call>, id: string): int {
    if calls == [] then -1
    else if calls[|calls| - 1].id == id then calls[|calls| - 1].now
    else LastOwn(calls[..|calls| - 1], id)
  }

  /** The calls of one identifier read later and later times. */
  ghost predicate OwnAscend(calls: seq<Call>, id: string) {
    forall i, j :: 0 <= i < j < |calls| && calls[i].id == calls[j].id == id ==> calls[i].now < calls[j].now
  }

  ghost predicate NoneNegative(calls: seq<Call>) {
    forall i :: 0 <= i < |calls| ==> calls[i].now >= 0
  }

  lemma {:induction false} LastOwnIsOwn(calls: seq<Call>, id: string)
    ensures LastOwn(calls, id) == -1 || exists i :: 0 <= i < |calls| && calls[i].id == id && calls[i].now == LastOwn(calls, id)
  {
    if calls != [] && calls[|calls| - 1].id != id {
      LastOwnIsOwn(calls[..|calls| - 1], id);
    }
  }

  /** What happens to one identifier depends on its own readings only. */
  lemma {:induction false} OwnStoresAgree(calls: seq<Call>, policy: map<string, (int, int)>, id: string)
    requires Orderly(calls, policy) && NoneNegative(calls) && OwnAscend(calls, id) && id in policy
    ensures Agree(LogOf(LocalRun(calls).0, id), RedisRun(calls).0, id, LastOwn(calls, id), policy[id].1)
  {
    if calls != [] {
      var init, c := calls[..|calls| - 1], calls[|calls| - 1];
      OrderlyPrefix(calls, policy);
      OwnStoresAgree(init, policy, id);
      var (logs, redis) := (LocalRun(init).0, RedisRun(init).0);
      assert LocalRun(calls).0 == LocalStep(logs, c).0 && RedisRun(calls).0 == RedisStep(redis, c).0;
      if c.id == id {
        LastOwnIsOwn(init, id);
        StepsAgree(logs, redis, c, LastOwn(init, id));
      } else {
        StepsApart(logs, redis, c, id, LastOwn(init, id), policy[id].1);
      }
    }
  }

  /** No identifier repeats a reading before its last call. */
  ghost predicate AscendsBeforeLast(calls: seq<Call>) {
    forall k :: 0 <= k < |calls| ==> OwnAscend(calls[..k], calls[k].id)
  }

  lemma {:induction false} AscendsPrefix(calls: seq<Call>, n: nat)
    requires AscendsBeforeLast(calls) && n <= |calls|
    ensures AscendsBeforeLast(calls[..n])
  {
    forall k | 0 <= k < n ensures OwnAscend(calls[..n][..k], calls[..n][k].id) {
      assert calls[..n][..k] == calls[..k];
    }
  }

  lemma {:induction false} RedisExtends(calls: seq<Call>, c: Call)
    ensures RedisRun(calls + [c]).0 == RedisStep(RedisRun(calls).0, c).0
    ensures RedisRun(calls + [c]).1 == RedisRun(calls).1 + [RedisStep(RedisRun(calls).0, c).1]
  {
    assert (calls + [c])[..|calls|] == calls;
  }

  /** With readings that never go back, and never repeat for an identifier before its
      last call, the sorted set and the list give the same answers on every run. */
  lemma {:induction false} RedisEqualsLocal(calls: seq<Call>, policy: map<string, (int, int)>)
    requires Orderly(calls, policy) && NoneNegative(calls) && AscendsBeforeLast(calls)
    ensures RedisRun(calls).1 == LocalRun(calls).1
  {
    if calls != [] {
      var init, c := calls[..|calls| - 1], calls[|calls| - 1];
      assert calls == init + [c];
      OrderlyPrefix(calls, policy);
      AscendsPrefix(calls, |init|);
      RedisEqualsLocal(init, policy);
      OwnStoresAgree(init, policy, c.id);
      AnswersAgree(LocalRun(init).0, RedisRun(init).0, c, LastOwn(init, c.id));
      RunExtends(init, c);
      RedisExtends(init, c);
    }
  }

  // ----- repeated readings -----

  lemma {:induction false} PruneFresh(times: seq<int>, start: int)
    requires forall i :: 0 <= i < |times| ==> times[i] > start
    ensures Prune(times, start) == times
  {
    if times != [] {
      PruneFresh(times[..|times| - 1], start);
    }
  }

  function Times(calls: seq<Call>, id: string): seq<int> {
    if calls == [] then []
    else
      var c := calls[|calls| - 1];
      Times(calls[..|calls| - 1], id) + if c.id == id then [c.now] else []
  }

  /** An ascending list with each value once. */
  function Distinct(times: seq<int>): seq<int> {
    if times == [] then []
    else
      var n := |times| - 1;
      Distinct(times[..n]) + if n > 0 && times[n - 1] == times[n] then [] else [times[n]]
  }

  ghost predicate Ascending(times: seq<int>) {
    forall i, j :: 0 <= i < j < |times| ==> times[i] <= times[j]
  }

  lemma {:induction false} DistinctShape(times: seq<int>, lo: int)
    requires forall i :: 0 <= i < |times| ==> times[i] >= lo
    ensures |Distinct(times)| <= |times| && (times != [] ==> Distinct(times) != [])
    ensures times != [] ==> Distinct(times)[|Distinct(times)| - 1] == times[|times| - 1]
    ensures forall i :: 0 <= i < |Distinct(times)| ==> Distinct(times)[i] >= lo
  {
    if times != [] {
      DistinctShape(times[..|times| - 1], lo);
    }
  }

  lemma {:induction false} DistinctDrops(times: seq<int>, i: nat, j: nat, lo: int)
    requires Ascending(times) && i < j < |times| && times[i] == times[j]
    requires forall k :: 0 <= k < |times| ==> times[k] >= lo
    ensures |Distinct(times)| < |times|
  {
    var n := |times| - 1;
    DistinctShape(times[..n], lo);
    if j < n {
      DistinctDrops(times[..n], i, j, lo);
    } else {
      assert times[i] <= times[n - 1] <= times[n];
    }
  }

  lemma {:induction false} DistinctAppend(times: seq<int>, t: int, lo: int)
    requires forall i :: 0 <= i < |times| ==> lo <= times[i] <= t
    ensures ZAdd(Distinct(times), t) == Distinct(times + [t])
  {
    assert (times + [t])[..|times|] == times;
    DistinctShape(times, lo);
  }

  /** One limit that nobody passes, and one window that holds every reading from `lo` on. */
  ghost predicate Wide(calls: seq<Call>, limit: int, window: int, lo: nat) {
    && |calls| <= limit
    && forall i :: 0 <= i < |calls| ==>
         calls[i].limit == limit && calls[i].window == window && lo <= calls[i].now < lo + window * SECOND
  }

  ghost predicate ClockOrder(calls: seq<Call>) {
    forall i, j :: 0 <= i < j < |calls| ==> calls[i].now <= calls[j].now
  }

  lemma {:induction false} AppendStaysAscending(times: seq<int>, t: int)
    requires Ascending(times) && forall i :: 0 <= i < |times| ==> times[i] <= t
    ensures Ascending(times + [t])
  {
  }

  lemma {:induction false} TimesBetween(calls: seq<Call>, id: string, lo: int, hi: int)
    requires forall i :: 0 <= i < |calls| ==> lo <= calls[i].now <= hi
    ensures |Times(calls, id)| <= |calls|
    ensures forall i :: 0 <= i < |Times(calls, id)| ==> lo <= Times(calls, id)[i] <= hi
  {
    if calls != [] {
      TimesBetween(calls[..|calls| - 1], id, lo, hi);
    }
  }

  lemma {:induction false} TimesAscend(calls: seq<Call>, id: string)
    requires ClockOrder(calls)
    ensures Ascending(Times(calls, id))
  {
    if calls != [] {
      var init, c := calls[..|calls| - 1], calls[|calls| - 1];
      TimesAscend(init, id);
      if init != [] {
        TimesBetween(init, id, init[0].now, c.now);
      }
      AppendStaysAscending(Times(init, id), c.now);
    }
  }

  lemma {:induction false} TimesShape(calls: seq<Call>, id: string, lo: nat)
    requires ClockOrder(calls) && forall i :: 0 <= i < |calls| ==> calls[i].now >= lo
    ensures Ascending(Times(calls, id)) && |Times(calls, id)| <= |calls|
    ensures forall i :: 0 <= i < |Times(calls, id)| ==> Times(calls, id)[i] >= lo
    ensures forall i :: 0 <= i < |Times(calls, id)| ==> calls != [] && Times(calls, id)[i] <= calls[|calls| - 1].now
  {
    TimesAscend(calls, id);
    if calls != [] {
      TimesBetween(calls, id, lo, calls[|calls| - 1].now);
    }
  }

  /** In a wide window the list holds every reading, and the sorted set each reading once. */
  ghost predicate Holds(logs: Logs, redis: Redis, id: string, times: seq<int>, until: int) {
    && LogOf(logs, id) == times
    && (times == [] ==> id !in redis)
    && (times != [] ==> id in redis && redis[id].scores == Distinct(times) && redis[id].expires >= until)
  }

  /** A call of a wide window, and the readings of its identifier before it. */
  ghost predicate WideCall(c: Call, times: seq<int>, lo: nat) {
    && |times| < c.limit && lo <= c.now < lo + c.window * SECOND
    && Ascending(times) && forall i :: 0 <= i < |times| ==> lo <= times[i] <= c.now
  }

  lemma {:induction false} WideRedis(redis: Redis, c: Call, scores: seq<int>, lo: nat)
    requires lo <= c.now < lo + c.window * SECOND && |scores| < c.limit
    requires forall i :: 0 <= i < |scores| ==> lo <= scores[i]
    requires scores == [] ==> c.id !in redis
    requires scores != [] ==> c.id in redis && redis[c.id].scores == scores && redis[c.id].expires >= lo + c.window * SECOND
    ensures RedisStep(redis, c) == (redis[c.id := Key(ZAdd(scores, c.now), c.now + c.window * SECOND)], Granted(c, |scores|))
  {
    assert Live(redis, c.id, c.now) == scores;
    RemRangeIsPrune(scores, Start(c));
    PruneFresh(scores, Start(c));
  }

  /** What both forms answer in a wide window. */
  lemma {:induction false} WideAnswers(logs: Logs, redis: Redis, c: Call, times: seq<int>, lo: nat)
    requires Holds(logs, redis, c.id, times, lo + c.window * SECOND) && WideCall(c, times, lo)
    ensures Prune(times, Start(c)) == times
    ensures LocalStep(logs, c).1 == Granted(c, |times|)
    ensures RedisStep(redis, c) == (redis[c.id := Key(ZAdd(Distinct(times), c.now), c.now + c.window * SECOND)],
                                    Granted(c, |Distinct(times)|))
  {
    PruneFresh(times, Start(c));
    DistinctShape(times, lo);
    WideRedis(redis, c, Distinct(times), lo);
  }

  lemma {:induction false} WideStep(logs: Logs, redis: Redis, c: Call, times: seq<int>, lo: nat)
    requires Holds(logs, redis, c.id, times, lo + c.window * SECOND) && WideCall(c, times, lo)
    ensures Holds(LocalStep(logs, c).0, RedisStep(redis, c).0, c.id, times + [c.now], lo + c.window * SECOND)
  {
    WideAnswers(logs, redis, c, times, lo);
    StepLog(logs, c, c.id);
    DistinctAppend(times, c.now, lo);
  }

  lemma {:induction false} WideRun(calls: seq<Call>, id: string, limit: int, window: int, lo: nat)
    requires Wide(calls, limit, window, lo) && ClockOrder(calls)
    ensures Holds(LocalRun(calls).0, RedisRun(calls).0, id, Times(calls, id), lo + window * SECOND)
  {
    if calls != [] {
      var init, c := calls[..|calls| - 1], calls[|calls| - 1];
      WideRun(init, id, limit, window, lo);
      var (logs, redis) := (LocalRun(init).0, RedisRun(init).0);
      assert LocalRun(calls).0 == LocalStep(logs, c).0 && RedisRun(calls).0 == RedisStep(redis, c).0;
      if c.id == id {
        TimesShape(init, id, lo);
        WideStep(logs, redis, c, Times(init, id), lo);
      } else {
        assert Times(init, id) + [] == Times(init, id);
      }
    }
  }

  lemma {:induction false} TimesRepeat(calls: seq<Call>, id: string, i: nat, j: nat) returns (a: nat, b: nat)
    requires i < j < |calls| && calls[i].id == calls[j].id == id && calls[i].now == calls[j].now
    ensures a < b < |Times(calls, id)| && Times(calls, id)[a] == Times(calls, id)[b]
  {
    var n := |calls| - 1;
    if j < n {
      a, b := TimesRepeat(calls[..n], id, i, j);
    } else {
      a := TimeOf(calls[..n], id, i);
      b := |Times(calls[..n], id)|;
    }
  }

  lemma {:induction false} TimeOf(calls: seq<Call>, id: string, i: nat) returns (a: nat)
    requires i < |calls| && calls[i].id == id
    ensures a < |Times(calls, id)| && Times(calls, id)[a] == calls[i].now
  {
    var n := |calls| - 1;
    if i < n {
      a := TimeOf(calls[..n], id, i);
    } else {
      a := |Times(calls[..n], id)|;
    }
  }

  /** A call behind a repeated reading of its identifier is told different numbers. */
  lemma {:induction false} RepeatParts(calls: seq<Call>, c: Call, i: nat, j: nat, lo: nat)
    requires Wide(calls, c.limit, c.window, lo) && |calls| < c.limit && ClockOrder(calls + [c])
    requires lo <= c.now < lo + c.window * SECOND
    requires i < j < |calls| && calls[i].id == calls[j].id == c.id && calls[i].now == calls[j].now
    ensures LocalStep(LocalRun(calls).0, c).1 != RedisStep(RedisRun(calls).0, c).1
  {
    var times := Times(calls, c.id);
    assert ClockOrder(calls) && calls[|calls| - 1].now <= c.now by {
      var all := calls + [c];
      assert forall k :: 0 <= k < |calls| ==> all[k] == calls[k];
      assert all[|calls|] == c;
    }
    WideRun(calls, c.id, c.limit, c.window, lo);
    TimesShape(calls, c.id, lo);
    WideAnswers(LocalRun(calls).0, RedisRun(calls).0, c, times, lo);
    var a, b := TimesRepeat(calls, c.id, i, j);
    DistinctDrops(times, a, b, lo);
  }

  // ----- exactly when the two forms answer alike -----

  datatype Reading = Reading(id: string, now: int)

  /** Readings of one clock that never goes back. */
  ghost predicate Clock(readings: seq<Reading>) {
    && (forall i :: 0 <= i < |readings| ==> readings[i].now >= 0)
    && (forall i, j :: 0 <= i < j < |readings| ==> readings[i].now <= readings[j].now)
  }

  /** A limit and a positive window for every identifier. */
  ghost predicate Covers(policy: map<string, (int, int)>, readings: seq<Reading>) {
    forall i :: 0 <= i < |readings| ==> readings[i].id in policy && policy[readings[i].id].1 > 0
  }

  function Impose(readings: seq<Reading>, policy: map<string, (int, int)>): seq<Call>
    requires forall i :: 0 <= i < |readings| ==> readings[i].id in policy
  {
    seq(|readings|, i requires 0 <= i < |readings| =>
      Call(readings[i].id, policy[readings[i].id].0, policy[readings[i].id].1, readings[i].now))
  }

  ghost predicate Repeats(readings: seq<Reading>, id: string) {
    exists i, j :: 0 <= i < j < |readings| && readings[i].id == readings[j].id == id && readings[i].now == readings[j].now
  }

  ghost predicate AlikeUnder(readings: seq<Reading>, policy: map<string, (int, int)>)
    requires Covers(policy, readings)
  {
    RedisRun(Impose(readings, policy)).1 == LocalRun(Impose(readings, policy)).1
  }

  ghost predicate AlikeUnderEveryPolicy(readings: seq<Reading>) {
    forall policy :: Covers(policy, readings) ==> AlikeUnder(readings, policy)
  }

  /** No identifier repeats a reading before its last call. */
  ghost predicate RepeatsOnlyLast(readings: seq<Reading>) {
    forall k :: 0 <= k < |readings| ==> !Repeats(readings[..k], readings[k].id)
  }

  lemma {:induction false} NoRepeatIsAlike(readings: seq<Reading>, policy: map<string, (int, int)>)
    requires Clock(readings) && RepeatsOnlyLast(readings) && Covers(policy, readings)
    ensures AlikeUnder(readings, policy)
  {
    var calls := Impose(readings, policy);
    forall k | 0 <= k < |calls| ensures OwnAscend(calls[..k], calls[k].id) {
      forall i, j | 0 <= i < j < k && calls[i].id == calls[j].id == calls[k].id ensures calls[i].now < calls[j].now {
        assert !Repeats(readings[..k], readings[k].id);
        assert readings[..k][i] == readings[i] && readings[..k][j] == readings[j];
      }
    }
    RedisEqualsLocal(calls, policy);
  }

  /** The policy that tells them apart: nobody reaches the limit and nothing leaves the window. */
  function WidePolicy(readings: seq<Reading>): map<string, (int, int)>
    requires readings != []
  {
    map r | r in readings :: r.id := (|readings|, readings[|readings| - 1].now + 1)
  }

  lemma {:induction false} LocalAnswerAt(calls: seq<Call>, k: nat)
    requires k < |calls|
    ensures |LocalRun(calls).1| == |calls| && LocalRun(calls).1[k] == LocalStep(LocalRun(calls[..k]).0, calls[k]).1
  {
    var init, c := calls[..|calls| - 1], calls[|calls| - 1];
    assert calls == init + [c];
    RunExtends(init, c);
    RunAnswersEveryCall(init);
    if k < |init| {
      LocalAnswerAt(init, k);
      assert init[..k] == calls[..k];
    }
  }

  lemma {:induction false} RedisAnswersEveryCall(calls: seq<Call>)
    ensures |RedisRun(calls).1| == |calls|
  {
    if calls != [] {
      RedisAnswersEveryCall(calls[..|calls| - 1]);
    }
  }

  lemma {:induction false} RedisAnswerAt(calls: seq<Call>, k: nat)
    requires k < |calls|
    ensures |RedisRun(calls).1| == |calls| && RedisRun(calls).1[k] == RedisStep(RedisRun(calls[..k]).0, calls[k]).1
  {
    var init, c := calls[..|calls| - 1], calls[|calls| - 1];
    assert calls == init + [c];
    RedisExtends(init, c);
    RedisAnswersEveryCall(init);
    if k < |init| {
      RedisAnswerAt(init, k);
      assert init[..k] == calls[..k];
    }
  }

  lemma {:induction false} WidePolicyCovers(readings: seq<Reading>)
    requires Clock(readings) && readings != []
    ensures Covers(WidePolicy(readings), readings)
    ensures var calls, last := Impose(readings, WidePolicy(readings)), readings[|readings| - 1].now;
            Wide(calls, |readings|, last + 1, 0) && ClockOrder(calls)
  {
    assert forall i :: 0 <= i < |readings| ==> readings[i] in readings;
  }

  lemma {:induction false} RepeatIsNotAlike(readings: seq<Reading>, k: nat, i: nat, j: nat)
    requires Clock(readings) && i < j < k < |readings|
    requires readings[i].id == readings[j].id == readings[k].id && readings[i].now == readings[j].now
    ensures Covers(WidePolicy(readings), readings) && !AlikeUnder(readings, WidePolicy(readings))
  {
    WidePolicyCovers(readings);
    var calls := Impose(readings, WidePolicy(readings));
    assert calls[..k] + [calls[k]] == calls[..k + 1];
    RepeatParts(calls[..k], calls[k], i, j, 0);
    LocalAnswerAt(calls, k);
    RedisAnswerAt(calls, k);
  }

  /** Over all limits and windows, the sorted set and the list answer a sequence of calls
      alike exactly when no identifier repeats a reading before its last call. */
  lemma {:induction false} AlikeIffNoEarlyRepeat(readings: seq<Reading>)
    requires Clock(readings)
    ensures AlikeUnderEveryPolicy(readings) <==> RepeatsOnlyLast(readings)
  {
    if RepeatsOnlyLast(readings) {
      forall policy | Covers(policy, readings) ensures AlikeUnder(readings, policy) {
        NoRepeatIsAlike(readings, policy);
      }
    } else {
      var k :| 0 <= k < |readings| && Repeats(readings[..k], readings[k].id);
      var early := readings[..k];
      var i, j :| 0 <= i < j < |early| && early[i].id == early[j].id == readings[k].id && early[i].now == early[j].now;
      RepeatIsNotAlike(readings, k, i, j);
    }
  }

  /** With any further call to look at the stores: exactly when no identifier repeats a reading. */
  lemma {:induction false} ProbedAlikeIffNoRepeat(readings: seq<Reading>)
    requires Clock(readings)
    ensures (forall probe :: Clock(readings + [probe]) ==> AlikeUnderEveryPolicy(readings + [probe]))
            <==> forall id :: !Repeats(readings, id)
  {
    if forall id :: !Repeats(readings, id) {
      forall probe | Clock(readings + [probe]) ensures AlikeUnderEveryPolicy(readings + [probe]) {
        NoRepeatNoEarlyRepeat(readings, probe);
        AlikeIffNoEarlyRepeat(readings + [probe]);
      }
    } else {
      var id :| Repeats(readings, id);
      var probe := Reading(id, readings[|readings| - 1].now);
      var all := readings + [probe];
      assert all[..|readings|] == readings;
      assert Clock(all) && !RepeatsOnlyLast(all) by {
        assert all[|readings|] == probe;
      }
      AlikeIffNoEarlyRepeat(all);
    }
  }

  lemma {:induction false} NoRepeatNoEarlyRepeat(readings: seq<Reading>, probe: Reading)
    requires forall id :: !Repeats(readings, id)
    ensures RepeatsOnlyLast(readings + [probe])
  {
    var all := readings + [probe];
    forall k | 0 <= k < |all| ensures !Repeats(all[..k], all[k].id) {
      assert forall i :: 0 <= i < k ==> all[..k][i] == readings[i];
      assert !Repeats(readings, all[k].id);
    }
  }

  /** From empty stores: three calls at one instant, with room for all of them, get
      different answers at the third. */
  lemma {:induction false} EqualReadingsDiffer(c: Call)
    requires c.limit >= 3 && c.window > 0 && c.now >= 0
    ensures LocalRun([c, c, c]).1 != RedisRun([c, c, c]).1
  {
    assert [c, c, c][..2] == [c, c];
    RepeatParts([c, c], c, 0, 1, c.now);
    LocalAnswerAt([c, c, c], 2);
    RedisAnswerAt([c, c, c], 2);
  }

  // ----- the lists in place -----

  class LocalLimiter {
    var logs: Logs

    constructor ()
      ensures logs == map[]
    {
      logs := map[];
    }

    method SlidingWindowAllowed(c: Call) returns (answer: Answer)
      modifies this
      ensures (logs, answer) == LocalStep(old(logs), c)
      ensures forall id :: id != c.id ==> LogOf(logs, id) == LogOf(old(logs), id)
    {
      if c.id !in logs {
        logs := logs[c.id := []];
      }
      var recent := KeepRecent(logs[c.id], Start(c));
      logs := logs[c.id := recent];
      var requestCount := |logs[c.id]|;
      if requestCount < c.limit {
        logs := logs[c.id := logs[c.id] + [c.now]];
        assert logs == LocalStep(old(logs), c).0;
        return Answer(true, c.limit, c.limit - requestCount - 1, Trunc(c.now + c.window * SECOND), None);
      }
      assert logs == LocalStep(old(logs), c).0;
      var oldest := c.now;
      if logs[c.id] != [] {
        oldest := FindOldest(logs[c.id]);
      }
      var retryAfter := Trunc(oldest + c.window * SECOND - c.now);
      return Answer(false, c.limit, 0, Trunc(c.now + c.window * SECOND), Some(if retryAfter < 1 then 1 else retryAfter));
    }

    static method KeepRecent(log: seq<int>, start: int) returns (recent: seq<int>)
      ensures recent == Prune(log, start)
    {
      recent := [];
      for i := 0 to |log|
        invariant recent == Prune(log[..i], start)
      {
        assert log[..i + 1][..i] == log[..i];
        if log[i] > start {
          recent := recent + [log[i]];
        }
      }
      assert log[..|log|] == log;
    }

    static method FindOldest(log: seq<int>) returns (oldest: int)
      requires log != []
      ensures oldest == Oldest(log)
    {
      oldest := log[0];
      for i := 1 to |log|
        invariant oldest == Oldest(log[..i])
      {
        assert log[..i + 1][..i] == log[..i];
        if log[i] < oldest {
          oldest := log[i];
        }
      }
      assert log[..|log|] == log;
    }
  }

  /** The same decision through the commands on the sorted set. */
  class RedisLimiter {
    var keys: Redis

    constructor ()
      ensures keys == map[]
    {
      keys := map[];
    }

    method SlidingWindowAllowed(c: Call) returns (answer: Answer)
      modifies this
      ensures (keys, answer) == RedisStep(old(keys), c)
    {
      var scores := ZRemRange(Live(keys, c.id, c.now), Start(c));
      var requestCount := |scores|;
      if requestCount < c.limit {
        keys := keys[c.id := Key(ZAdd(scores, c.now), c.now + c.window * SECOND)];
        return Answer(true, c.limit, c.limit - requestCount - 1, Trunc(c.now + c.window * SECOND), None);
      }
      var retryAfter := c.window;
      if scores == [] {
        keys := keys - {c.id};
      } else {
        keys := keys[c.id := Key(scores, keys[c.id].expires)];
        retryAfter := Trunc(scores[0] + c.window * SECOND - c.now);
      }
      return Answer(false, c.limit, 0, Trunc(c.now + c.window * SECOND), Some(if retryAfter < 1 then 1 else retryAfter));
    }
  }
}
