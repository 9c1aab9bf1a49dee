/**
 The body filter of document uploads
 (backend/app/middleware/document_upload_limit.py): spool a request body while
 counting its bytes, and replay it in chunks once it is known to be whole.
 */
module UploadBody {
  import opened Wrappers
  import FiscalIntegrity

  const MAX_DOCUMENT_BYTES := 10 * 1024 * 1024
  const OVERHEAD := 1024 * 1024
  const CHUNK := 64 * 1024

  type Bytes = seq<bv8>

  datatype Message = Disconnect | OtherMessage | Part(body: Bytes, more: bool)

  /** Answers 413 and 400, a client that left, a body still incomplete, or a whole body. */
  datatype Intake = TooLarge | BadLength | Gone | Pending | Whole(body: Bytes)

  /** A registration carries four documents, any other upload one. */
  function Limit(registration: bool): nat {
    MAX_DOCUMENT_BYTES * (if registration then 4 else 1) + OVERHEAD
  }

  // ----- the declared length -----

  datatype Declared = NotDeclared | Malformed | Length(value: nat)

  predicate AllDigits(s: string) {
    s != "" && forall i :: 0 <= i < |s| ==> FiscalIntegrity.IsDigit(s[i])
  }

  lemma {:induction false} DigitsHaveAValue(s: string)
    requires forall i :: 0 <= i < |s| ==> FiscalIntegrity.IsDigit(s[i])
    ensures FiscalIntegrity.ParseDigits(s).Some?
  {
    if s != "" {
      DigitsHaveAValue(s[..|s| - 1]);
    }
  }

  /** A decimal numeral of at most twenty digits. */
  predicate Numeral(s: string) {
    1 <= |s| <= 20 && forall i :: 0 <= i < |s| ==> '0' <= s[i] <= '9'
  }

  /** From the values of the Content-Length headers. */
  function DeclaredLength(values: seq<string>): Declared {
    if values == [] then NotDeclared
    else if |values| != 1 || !AllDigits(values[0]) || |values[0]| > 20 then Malformed
    else
      DigitsHaveAValue(values[0]);
      Length(FiscalIntegrity.ParseDigits(values[0]).value)
  }

  // ----- receiving -----

  function BodyOf(message: Message): Bytes {
    if message.Part? then message.body else []
  }

  /** All bytes of the parts, in order. */
  function Received(messages: seq<Message>): Bytes {
    if messages == [] then []
    else
      Received(messages[..|messages| - 1]) + BodyOf(messages[|messages| - 1])
  }

  /** What the loop decides from the bytes so far and the messages to come. */
  function Receive(spool: Bytes, messages: seq<Message>, limit: nat): Intake
    decreases |messages|
  {
    if messages == [] then Pending
    else
      match messages[0]
      case Disconnect => Gone
      case OtherMessage => Receive(spool, messages[1..], limit)
      case Part(body, more) =>
        if |spool + body| > limit then TooLarge
        else if more then Receive(spool + body, messages[1..], limit)
        else Whole(spool + body)
  }

  function Filter(values: seq<string>, messages: seq<Message>, limit: nat): Intake {
    match DeclaredLength(values)
    case Malformed => BadLength
    case NotDeclared => Receive([], messages, limit)
    case Length(declared) =>
      if declared > limit then TooLarge
      else
        var got := Receive([], messages, limit);
        if got.Whole? && declared != |got.body| then BadLength else got
  }

  predicate GoesOn(message: Message) {
    message.OtherMessage? || (message.Part? && message.more)
  }

  /** The body ends with message `k`: nobody has left and no part before it was the last. */
  ghost predicate Ends(messages: seq<Message>, k: nat) {
    && k < |messages| && messages[k].Part? && !messages[k].more
    && forall i :: 0 <= i < k ==> GoesOn(messages[i])
  }

  lemma {:induction false} ReceivedLast(messages: seq<Message>, last: Message)
    ensures Received(messages + [last]) == Received(messages) + BodyOf(last)
  {
  }

  lemma {:induction false} Regroup<T>(a: seq<T>, b: seq<T>, c: seq<T>)
    ensures (a + b) + c == a + (b + c)
  {
  }

  lemma {:induction false} ReceivedFirst(first: Message, rest: seq<Message>)
    ensures Received([first] + rest) == BodyOf(first) + Received(rest)
  {
    if rest == [] {
      ReceivedLast([], first);
      assert [] + [first] == [first] + rest;
    } else {
      var init, last := rest[..|rest| - 1], rest[|rest| - 1];
      assert rest == init + [last];
      Regroup([first], init, [last]);
      ReceivedFirst(first, init);
      ReceivedLast([first] + init, last);
      ReceivedLast(init, last);
      Regroup(BodyOf(first), Received(init), BodyOf(last));
    }
  }

  lemma {:induction false} EndsLater(messages: seq<Message>, k: nat)
    requires messages != [] && GoesOn(messages[0]) && 0 < k < |messages|
    ensures Ends(messages, k) <==> Ends(messages[1..], k - 1)
    ensures Received(messages[..k + 1]) == BodyOf(messages[0]) + Received(messages[1..][..k])
  {
    var rest := messages[1..];
    assert messages[..k + 1] == [messages[0]] + rest[..k];
    ReceivedFirst(messages[0], rest[..k]);
    assert forall i :: 0 <= i < |rest| ==> rest[i] == messages[i + 1];
    if Ends(rest, k - 1) {
      forall i | 0 <= i < k ensures GoesOn(messages[i]) {
        if i > 0 {
          assert GoesOn(rest[i - 1]);
        }
      }
    }
  }

  lemma {:induction false} FirstAlone(messages: seq<Message>)
    requires messages != []
    ensures Received(messages[..1]) == BodyOf(messages[0])
  {
  }

  /** One message that goes on. */
  lemma {:induction false} ReceiveStep(spool: Bytes, messages: seq<Message>, limit: nat)
    requires messages != [] && GoesOn(messages[0]) && |spool| <= limit
    ensures Receive(spool, messages, limit) ==
            if |spool + BodyOf(messages[0])| > limit then TooLarge
            else Receive(spool + BodyOf(messages[0]), messages[1..], limit)
  {
    if messages[0].OtherMessage? {
      assert spool + [] == spool;
    }
  }

  /** A body that ends within the limit is accepted, byte for byte. */
  lemma {:induction false} EndingBodyIsAccepted(spool: Bytes, messages: seq<Message>, limit: nat, k: nat)
    requires Ends(messages, k) && |spool| + |Received(messages[..k + 1])| <= limit
    ensures Receive(spool, messages, limit) == Whole(spool + Received(messages[..k + 1]))
    decreases |messages|
  {
    if k == 0 {
      FirstAlone(messages);
    } else {
      var rest, body := messages[1..], BodyOf(messages[0]);
      EndsLater(messages, k);
      Regroup(spool, body, Received(rest[..k]));
      ReceiveStep(spool, messages, limit);
      EndingBodyIsAccepted(spool + body, rest, limit, k - 1);
    }
  }

  /** And what is accepted is a body that ended within the limit. */
  lemma {:induction false} AcceptedBodyEnded(spool: Bytes, messages: seq<Message>, limit: nat) returns (k: nat)
    requires |spool| <= limit && Receive(spool, messages, limit).Whole?
    ensures Ends(messages, k) && |spool| + |Received(messages[..k + 1])| <= limit
    ensures Receive(spool, messages, limit) == Whole(spool + Received(messages[..k + 1]))
    decreases |messages|
  {
    if GoesOn(messages[0]) {
      var rest, body := messages[1..], BodyOf(messages[0]);
      ReceiveStep(spool, messages, limit);
      var j := AcceptedBodyEnded(spool + body, rest, limit);
      k := j + 1;
      EndsLater(messages, k);
      Regroup(spool, body, Received(rest[..k]));
    } else {
      k := 0;
      FirstAlone(messages);
    }
  }

  /** A body goes on to the application exactly when it ends within the limit before
      the client leaves, is byte for byte what was received, and has the declared
      length if there is one. */
  lemma {:induction false} FilterMeaning(values: seq<string>, messages: seq<Message>, limit: nat, body: Bytes)
    ensures Filter(values, messages, limit) == Whole(body) <==>
            && !DeclaredLength(values).Malformed? && |body| <= limit
            && (DeclaredLength(values).Length? ==> DeclaredLength(values).value == |body|)
            && exists k :: Ends(messages, k) && body == Received(messages[..k + 1])
  {
    var got := Receive([], messages, limit);
    if got == Whole(body) {
      var k := AcceptedBodyEnded([], messages, limit);
      assert [] + Received(messages[..k + 1]) == Received(messages[..k + 1]);
    }
    forall k | Ends(messages, k) && body == Received(messages[..k + 1]) && |body| <= limit ensures got == Whole(body) {
      EndingBodyIsAccepted([], messages, limit, k);
      assert [] + body == body;
    }
  }

  /** One header at most, and it holds a numeral. */
  lemma {:induction false} DeclaredMeaning(values: seq<string>)
    ensures DeclaredLength(values).NotDeclared? <==> values == []
    ensures DeclaredLength(values).Length? <==> |values| == 1 && Numeral(values[0])
    ensures DeclaredLength(values).Length? ==> Some(DeclaredLength(values).value) == FiscalIntegrity.ParseDigits(values[0])
  {
    if |values| == 1 && Numeral(values[0]) {
      DigitsHaveAValue(values[0]);
    }
  }

  /** Up to message `k` nobody has left, no part was the last, and the parts fit. */
  ghost predicate Flows(messages: seq<Message>, k: nat, limit: nat) {
    && k <= |messages| && |Received(messages[..k])| <= limit
    && forall i :: 0 <= i < k ==> GoesOn(messages[i])
  }

  lemma {:induction false} FlowsLater(messages: seq<Message>, k: nat, limit: nat)
    requires messages != [] && Flows(messages, k, limit) && k > 0
    ensures Received(messages[..k]) == BodyOf(messages[0]) + Received(messages[1..][..k - 1])
    ensures GoesOn(messages[0]) && forall i :: 0 <= i < k - 1 ==> GoesOn(messages[1..][i])
  {
    assert messages[..k] == [messages[0]] + messages[1..][..k - 1];
    ReceivedFirst(messages[0], messages[1..][..k - 1]);
  }

  /** What happens at the message after those that flow. */
  lemma {:induction false} ReceiveAt(spool: Bytes, messages: seq<Message>, limit: nat, k: nat)
    requires k <= |messages| && |spool| + |Received(messages[..k])| <= limit && forall i :: 0 <= i < k ==> GoesOn(messages[i])
    ensures Receive(spool, messages, limit) == Receive(spool + Received(messages[..k]), messages[k..], limit)
    decreases k
  {
    if k == 0 {
      assert spool + Received(messages[..0]) == spool && messages[0..] == messages;
    } else {
      var rest, body := messages[1..], BodyOf(messages[0]);
      FlowsLater(messages, k, limit);
      Regroup(spool, body, Received(rest[..k - 1]));
      ReceiveStep(spool, messages, limit);
      ReceiveAt(spool + body, rest, limit, k - 1);
      assert rest[k - 1..] == messages[k..];
    }
  }

  /** A body that does not go on: it is too large exactly if its length is declared to be,
      or, with a length that can be read, at the first part that passes the limit; its
      length is bad exactly if it cannot be read or the whole body has another one; the
      client is gone exactly if it leaves first; and it is pending while it still flows.
      A registration may carry forty megabytes, a single document ten, and each one more. */
  lemma {:induction false} RefusalMeaning(registration: bool, values: seq<string>, messages: seq<Message>, k: nat)
    requires Flows(messages, k, Limit(registration))
    ensures Limit(registration) == if registration then 41 * 1_048_576 else 11 * 1_048_576
    ensures var limit, declared := Limit(registration), DeclaredLength(values);
            var r := Filter(values, messages, limit);
            && (declared.Malformed? ==> r == BadLength)
            && (declared.Length? && declared.value > limit ==> r == TooLarge)
            && (!declared.Malformed? && (declared.Length? ==> declared.value <= limit) ==>
                  && (k == |messages| ==> r == Pending)
                  && (k < |messages| && messages[k].Disconnect? ==> r == Gone)
                  && (k < |messages| && messages[k].Part? ==>
                        var total := |Received(messages[..k])| + |messages[k].body|;
                        var wrong := !messages[k].more && declared.Length? && declared.value != total;
                        && (total > limit ==> r == TooLarge)
                        && (total <= limit && wrong ==> r == BadLength)))
  {
    var limit := Limit(registration);
    ReceiveAt([], messages, limit, k);
    assert [] + Received(messages[..k]) == Received(messages[..k]);
  }

  /** The receive loop. */
  method SpoolBody(registration: bool, values: seq<string>, messages: seq<Message>) returns (r: Intake)
    ensures r == Filter(values, messages, Limit(registration))
  {
    var limit := Limit(registration);
    var declared := DeclaredLength(values);
    if declared.Malformed? {
      return BadLength;
    }
    if declared.Length? && declared.value > limit {
      return TooLarge;
    }
    var spool: Bytes, total, i := [], 0, 0;
    while true
      invariant i <= |messages| && total == |spool|
      invariant Receive([], messages, limit) == Receive(spool, messages[i..], limit)
      decreases |messages| - i
    {
      if i == |messages| {
        return Pending;
      }
      var message := messages[i];
      assert messages[i..][1..] == messages[i + 1..];
      i := i + 1;
      if message.Disconnect? {
        return Gone;
      }
      if message.OtherMessage? {
        continue;
      }
      total := total + |message.body|;
      if total > limit {
        return TooLarge;
      }
      spool := spool + message.body;
      if !message.more {
        break;
      }
    }
    if declared.Length? && declared.value != total {
      return BadLength;
    }
    r := Whole(spool);
  }

  // ----- replaying -----

  function Least(a: nat, b: nat): nat {
    if a < b then a else b
  }

  /** The messages the application receives from a position on. */
  function ReplayFrom(body: Bytes, position: nat): (chunks: seq<Message>)
    requires position <= |body|
    ensures |chunks| > 0
    decreases |body| - position
  {
    var next := Least(position + CHUNK, |body|);
    var chunk := Part(body[position..next], next < |body|);
    if next < |body| then [chunk] + ReplayFrom(body, next) else [chunk]
  }

  /** Chunks of at most 64 KiB; every one but the last is full and announces more. */
  ghost predicate WellChunked(chunks: seq<Message>) {
    forall i :: 0 <= i < |chunks| ==>
      && chunks[i].Part? && |chunks[i].body| <= 65_536
      && chunks[i].more == (i < |chunks| - 1) && (i < |chunks| - 1 ==> |chunks[i].body| == 65_536)
  }

  lemma {:induction false} Rejoin<T>(s: seq<T>, i: nat, j: nat)
    requires i <= j <= |s|
    ensures s[i..j] + s[j..] == s[i..]
  {
  }

  lemma {:induction false} ReceivedOne(chunk: Message)
    ensures Received([chunk]) == BodyOf(chunk)
  {
    ReceivedLast([], chunk);
    assert [] + [chunk] == [chunk];
  }

  lemma {:induction false} ReplayBytes(body: Bytes, position: nat)
    requires position <= |body|
    ensures Received(ReplayFrom(body, position)) == body[position..]
    decreases |body| - position
  {
    var next := Least(position + CHUNK, |body|);
    var chunk := Part(body[position..next], next < |body|);
    if next < |body| {
      ReplayBytes(body, next);
      assert Received([chunk] + ReplayFrom(body, next)) == body[position..] by {
        ReceivedFirst(chunk, ReplayFrom(body, next));
        Rejoin(body, position, next);
      }
    } else {
      ReceivedOne(chunk);
    }
  }

  lemma {:induction false} WellChunkedFirst(chunk: Message, rest: seq<Message>)
    requires chunk.Part? && chunk.more && |chunk.body| == CHUNK && rest != [] && WellChunked(rest)
    ensures WellChunked([chunk] + rest)
  {
  }

  lemma {:induction false} ReplayChunks(body: Bytes, position: nat)
    requires position <= |body|
    ensures WellChunked(ReplayFrom(body, position))
    decreases |body| - position
  {
    var next := Least(position + CHUNK, |body|);
    if next < |body| {
      ReplayChunks(body, next);
      WellChunkedFirst(Part(body[position..next], true), ReplayFrom(body, next));
    }
  }

  /** The replay is the body: the same bytes, in chunks of which only the last is not
      full and says that it is the last. */
  lemma {:induction false} ReplayIsTheBody(body: Bytes)
    ensures Received(ReplayFrom(body, 0)) == body && WellChunked(ReplayFrom(body, 0))
  {
    ReplayBytes(body, 0);
    ReplayChunks(body, 0);
    assert body[0..] == body;
  }

  /** So the filter is transparent: an application that receives the replay through
      the same loop gets the body that was accepted. */
  lemma {:induction false} ReplayIsReceivedAgain(body: Bytes, limit: nat)
    requires |body| <= limit
    ensures Receive([], ReplayFrom(body, 0), limit) == Whole(body)
  {
    var chunks := ReplayFrom(body, 0);
    ReplayIsTheBody(body);
    var k := |chunks| - 1;
    assert chunks[..k + 1] == chunks;
    assert Ends(chunks, k);
    EndingBodyIsAccepted([], chunks, limit, k);
    assert [] + body == body;
  }

  class Replay {
    const body: Bytes
    var position: nat
    var finished: bool

    constructor (body: Bytes)
      ensures this.body == body && position == 0 && !finished
    {
      this.body, position, finished := body, 0, false;
    }

    ghost predicate Valid()
      reads this
    {
      position <= |body| && (finished ==> position == |body|)
    }

    /** The messages still to come. */
    ghost function Rest(): seq<Message>
      requires Valid()
      reads this
    {
      if finished then [] else ReplayFrom(body, position)
    }

    method Next() returns (message: Message)
      requires Valid() && !finished
      modifies this
      ensures Valid() && [message] + Rest() == old(Rest())
      ensures message.Part? && finished == !message.more && (finished || position > old(position))
    {
      var next := Least(position + CHUNK, |body|);
      var chunk := body[position..next];
      position := position + |chunk|;
      finished := position >= |body|;
      message := Part(chunk, !finished);
    }
  }

  /** Drain a replay, as an application does that reads until no more is announced. */
  method Drain(replay: Replay) returns (chunks: seq<Message>)
    requires replay.Valid() && !replay.finished
    modifies replay
    ensures replay.Valid() && replay.finished && chunks == old(replay.Rest())
  {
    chunks := [];
    while !replay.finished
      invariant replay.Valid() && chunks + replay.Rest() == old(replay.Rest())
      decreases |replay.body| - replay.position + if replay.finished then 0 else 1
    {
      var message := replay.Next();
      Regroup(chunks, [message], replay.Rest());
      chunks := chunks + [message];
    }
  }
}
