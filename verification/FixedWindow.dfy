/**
 The local fixed window of backend/app/core/rate_limiter.py, lines 197-217: one
 counter for each identifier and each window aligned to a multiple of its length.
 */
module FixedWindow {
  import opened Wrappers

  datatype Answer = Answer(allowed: bool, limit: int, remaining: int, reset: int, retryAfter: Option<int>)

  datatype Call = Call(id: string, now: int)

  /** Identifier and number of the aligned window. */
  type Slot = (string, int)

  function SlotOf(c: Call, window: int): Slot
    requires window > 0
  {
    (c.id, c.now / window)
  }

  function Used(counts: map<Slot, nat>, slot: Slot): nat {
    if slot in counts then counts[slot] else 0
  }

  function Step(counts: map<Slot, nat>, limit: int, window: int, c: Call): (map<Slot, nat>, Answer)
    requires window > 0
  {
    var slot := SlotOf(c, window);
    var count := Used(counts, slot) + 1;
    var reset := (c.now / window + 1) * window;
    (counts[slot := count],
     Answer(count <= limit, limit, if limit - count < 0 then 0 else limit - count, reset,
            if count <= limit then None else Some(reset - c.now)))
  }

  function Run(calls: seq<Call>, limit: int, window: int): (map<Slot, nat>, seq<Answer>)
    requires window > 0
  {
    if calls == [] then (map[], [])
    else
      var (counts, answers) := Run(calls[..|calls| - 1], limit, window);
      var (counts', answer) := Step(counts, limit, window, calls[|calls| - 1]);
      (counts', answers + [answer])
  }

  lemma {:induction false} RunAnswersEveryCall(calls: seq<Call>, limit: int, window: int)
    requires window > 0
    ensures |Run(calls, limit, window).1| == |calls|
  {
    if calls != [] {
      RunAnswersEveryCall(calls[..|calls| - 1], limit, window);
    }
  }

  /** Calls of an identifier in an aligned window, and how many of them were admitted. */
  function CallsIn(calls: seq<Call>, window: int, slot: Slot): nat
    requires window > 0
  {
    if calls == [] then 0
    else
      var n := |calls| - 1;
      CallsIn(calls[..n], window, slot) + if SlotOf(calls[n], window) == slot then 1 else 0
  }

  function AdmittedIn(calls: seq<Call>, answers: seq<Answer>, window: int, slot: Slot): nat
    requires window > 0 && |calls| == |answers|
  {
    if calls == [] then 0
    else
      var n := |calls| - 1;
      AdmittedIn(calls[..n], answers[..n], window, slot)
      + if SlotOf(calls[n], window) == slot && answers[n].allowed then 1 else 0
  }

  function Min(a: int, b: int): int {
    if a < b then a else b
  }

  /** Whatever the clock does, each aligned window admits the smaller of its calls and the limit. */
  lemma {:induction false} WindowAdmitsUpToLimit(calls: seq<Call>, limit: nat, window: int, slot: Slot)
    requires window > 0
    ensures |Run(calls, limit, window).1| == |calls|
    ensures Used(Run(calls, limit, window).0, slot) == CallsIn(calls, window, slot)
    ensures AdmittedIn(calls, Run(calls, limit, window).1, window, slot) == Min(CallsIn(calls, window, slot), limit)
  {
    RunAnswersEveryCall(calls, limit, window);
    if calls != [] {
      var n := |calls| - 1;
      WindowAdmitsUpToLimit(calls[..n], limit, window, slot);
      WindowAdmitsUpToLimit(calls[..n], limit, window, SlotOf(calls[n], window));
      assert Run(calls, limit, window).1[..n] == Run(calls[..n], limit, window).1;
    }
  }

  /** The last answer of a run, from the calls of its identifier in its aligned window: it
      is admitted exactly while they are not more than the limit, is told how many are
      left and when the window ends, and a denied one how long that is. */
  lemma {:induction false} AnswerMeaning(calls: seq<Call>, limit: nat, window: int)
    requires window > 0 && calls != []
    ensures |Run(calls, limit, window).1| == |calls|
    ensures var c, answer := calls[|calls| - 1], Run(calls, limit, window).1[|calls| - 1];
            var used := |Within(calls, c.id, answer.reset - window, answer.reset)|;
            && answer.limit == limit && answer.reset - window <= c.now < answer.reset && answer.reset % window == 0
            && (answer.allowed <==> used <= limit)
            && answer.remaining == (if used <= limit then limit - used else 0)
            && answer.retryAfter == (if used <= limit then None else Some(answer.reset - c.now))
  {
    var n, c := |calls| - 1, calls[|calls| - 1];
    RunAnswersEveryCall(calls, limit, window);
    RunAnswersEveryCall(calls[..n], limit, window);
    WindowAdmitsUpToLimit(calls[..n], limit, window, SlotOf(c, window));
    var d := c.now / window;
    assert c.now == window * d + c.now % window;
    assert (d + 1) * window == window * d + window;
    Exact(d + 1, window);
    WithinIsSlot(calls, c.id, d, window, d * window, (d + 1) * window);
    assert CallsIn(calls, window, (c.id, d)) == CallsIn(calls[..n], window, (c.id, d)) + 1;
  }

  /** The calls of an identifier from one time on and before another. */
  function Within(calls: seq<Call>, id: string, from: int, until: int): set<nat> {
    set i: nat | i < |calls| && calls[i].id == id && from <= calls[i].now < until
  }

  lemma {:induction false} WithinIsSlot(calls: seq<Call>, id: string, d: int, window: int, from: int, until: int)
    requires window > 0 && from == d * window && until == (d + 1) * window
    ensures |Within(calls, id, from, until)| == CallsIn(calls, window, (id, d))
  {
    if calls == [] {
      assert Within(calls, id, from, until) == {};
    } else {
      var n := |calls| - 1;
      var before := Within(calls[..n], id, from, until);
      WithinIsSlot(calls[..n], id, d, window, from, until);
      InWindow(calls[n].now, d, window);
      assert Within(calls, id, from, until)
             == if calls[n].id == id && from <= calls[n].now < until then before + {n} else before;
    }
  }

  lemma {:induction false} InWindow(now: int, d: int, window: int)
    requires window > 0
    ensures now / window == d <==> d * window <= now < (d + 1) * window
  {
    var q := now / window;
    assert now == window * q + now % window;
    assert d * window == window * d && (d + 1) * window == window * d + window;
    if q < d {
      Scale(window, q + 1, d);
    } else if d < q {
      Scale(window, d + 1, q);
    }
  }

  /** Admissions of an identifier from `from` on and before `from + window`. */
  function AdmittedFrom(calls: seq<Call>, answers: seq<Answer>, id: string, from: int, window: int): nat
    requires |calls| == |answers|
  {
    if calls == [] then 0
    else
      var n := |calls| - 1;
      AdmittedFrom(calls[..n], answers[..n], id, from, window)
      + if calls[n].id == id && from <= calls[n].now < from + window && answers[n].allowed then 1 else 0
  }

  lemma {:induction false} SpanMeetsTwoWindows(calls: seq<Call>, answers: seq<Answer>, id: string, from: int,
                                               window: int)
    requires window > 0 && |calls| == |answers|
    ensures AdmittedFrom(calls, answers, id, from, window) <=
            AdmittedIn(calls, answers, window, (id, from / window)) + AdmittedIn(calls, answers, window, (id, from / window + 1))
  {
    if calls != [] {
      var n := |calls| - 1;
      SpanMeetsTwoWindows(calls[..n], answers[..n], id, from, window);
      if from <= calls[n].now < from + window {
        NextWindow(from, calls[n].now, window);
      }
    }
  }

  lemma {:induction false} NextWindow(from: int, now: int, window: int)
    requires window > 0 && from <= now < from + window
    ensures now / window == from / window || now / window == from / window + 1
  {
    var (a, b) := (from / window, now / window);
    assert window * a <= from < window * a + window;
    assert window * b <= now < window * b + window;
    if b < a {
      Scale(window, b + 1, a);
    } else if b > a + 1 {
      Scale(window, a + 2, b);
    }
  }

  lemma {:induction false} Scale(w: int, x: int, y: int)
    requires w > 0 && x <= y
    ensures w * x <= w * y
  {
  }

  /** Any span of `window` consecutive seconds admits at most twice the limit. */
  lemma {:induction false} SpanAdmitsTwiceTheLimit(calls: seq<Call>, limit: nat, window: int, id: string, from: int)
    requires window > 0
    ensures |Run(calls, limit, window).1| == |calls|
    ensures AdmittedFrom(calls, Run(calls, limit, window).1, id, from, window) <= 2 * limit
  {
    var answers := Run(calls, limit, window).1;
    WindowAdmitsUpToLimit(calls, limit, window, (id, from / window));
    WindowAdmitsUpToLimit(calls, limit, window, (id, from / window + 1));
    SpanMeetsTwoWindows(calls, answers, id, from, window);
  }

  /** A denied call is told a wait of 1 to `window` seconds, after which its window is over. */
  lemma {:induction false} RetryReachesTheNextWindow(counts: map<Slot, nat>, limit: int, window: int, c: Call)
    requires window > 0 && !Step(counts, limit, window, c).1.allowed
    ensures var retry := Step(counts, limit, window, c).1.retryAfter.value;
            1 <= retry <= window && (c.now + retry) / window == c.now / window + 1
  {
    var a := c.now / window;
    assert c.now == window * a + c.now % window;
    var retry := window - c.now % window;
    assert (a + 1) * window == window * a + window;
    assert (c.now + retry) == (a + 1) * window;
    Exact(a + 1, window);
  }

  lemma {:induction false} Exact(q: int, w: int)
    requires w > 0
    ensures q * w / w == q
  {
    var d := q * w / w;
    assert w * d <= q * w < w * d + w;
    if d < q {
      Scale(w, d + 1, q);
    } else if d > q {
      Scale(w, q + 1, d);
    }
  }

  class LocalCounters {
    var counts: map<Slot, nat>

    constructor ()
      ensures counts == map[]
    {
      counts := map[];
    }

    method FixedWindowAllowed(limit: int, window: int, c: Call) returns (answer: Answer)
      requires window > 0
      modifies this
      ensures (counts, answer) == Step(old(counts), limit, window, c)
    {
      var slot := (c.id, c.now / window);
      if slot !in counts {
        counts := counts[slot := 0];
      }
      counts := counts[slot := counts[slot] + 1];
      var count := counts[slot];
      assert counts == Step(old(counts), limit, window, c).0;
      var remaining := if limit - count > 0 then limit - count else 0;
      var reset := (c.now / window + 1) * window;
      answer := Answer(count <= limit, limit, remaining, reset, if count <= limit then None else Some(reset - c.now));
    }
  }
}
