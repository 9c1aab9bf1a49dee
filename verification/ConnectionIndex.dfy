/**
 The connection manager (backend/app/core/websocket.py): three dictionaries that
 are changed in place. The user and topic dictionaries of lists denote relations
 between keys and connections.
 */
module ConnectionIndex {
  import opened Wrappers

  type Id = nat
  type Name = string
  type Index = map<Name, seq<Id>>

  /** Whether the socket of a connection is still connected. */
  datatype State = State(active: map<Id, bool>, users: Index, topics: Index, guarded: set<Id>)

  const EMPTY := State(map[], map[], map[], {})

  // ----- lists -----

  /** The list without the first occurrence of an identifier. */
  function RemoveFirst(ids: seq<Id>, id: Id): seq<Id> {
    if ids == [] then []
    else if ids[0] == id then ids[1..]
    else [ids[0]] + RemoveFirst(ids[1..], id)
  }

  function Append(index: Index, name: Name, id: Id): Index {
    index[name := (if name in index then index[name] else []) + [id]]
  }

  /** Forget an identifier in one list; an emptied list goes. */
  function Forget(index: Index, name: Name, id: Id): Index
    requires name in index
  {
    if id !in index[name] then index
    else if RemoveFirst(index[name], id) == [] then index - {name}
    else index[name := RemoveFirst(index[name], id)]
  }

  /** Forget an identifier in every list. */
  function Purge(index: Index, id: Id): Index {
    map name | name in index && (id in index[name] ==> RemoveFirst(index[name], id) != []) ::
      if id in index[name] then RemoveFirst(index[name], id) else index[name]
  }

  // ----- the operations -----

  function AfterConnect(s: State, id: Id, user: Option<Name>, guarded: bool): State {
    s.(active := s.active[id := true],
       users := if user.Some? && user.value != "" then Append(s.users, user.value, id) else s.users,
       guarded := if guarded then s.guarded + {id} else s.guarded)
  }

  function AfterDisconnect(s: State, id: Id): State {
    State(s.active - {id}, Purge(s.users, id), Purge(s.topics, id), s.guarded - {id})
  }

  function AfterSubscribe(s: State, id: Id, topic: Name): State {
    if topic in s.topics && id in s.topics[topic] then s else s.(topics := Append(s.topics, topic, id))
  }

  /** Unlike a purge, this also drops a list that was empty already. */
  function AfterUnsubscribe(s: State, id: Id, topic: Name): State {
    if topic !in s.topics then s
    else if s.topics[topic] == [] then s.(topics := s.topics - {topic})
    else s.(topics := Forget(s.topics, topic, id))
  }

  // ----- relations -----

  ghost predicate Related(index: Index, name: Name, id: Id) {
    name in index && id in index[name]
  }

  ghost predicate Distinct(ids: seq<Id>) {
    forall i, j :: 0 <= i < j < |ids| ==> ids[i] != ids[j]
  }

  /** No duplicate entry and no empty list. */
  ghost predicate WellFormed(index: Index) {
    forall name :: name in index ==> index[name] != [] && Distinct(index[name])
  }

  lemma {:induction false} RemoveFirstMembers(ids: seq<Id>, id: Id)
    requires Distinct(ids)
    ensures Distinct(RemoveFirst(ids, id))
    ensures forall x :: x in RemoveFirst(ids, id) <==> x in ids && x != id
  {
    if ids != [] {
      RemoveFirstMembers(ids[1..], id);
      var rest := RemoveFirst(ids[1..], id);
      assert ids == [ids[0]] + ids[1..];
      assert ids[0] !in ids[1..];
      if ids[0] != id {
        assert forall x :: x in [ids[0]] + rest <==> x == ids[0] || x in rest;
      }
    }
  }

  /** Purging removes exactly the pairs of one connection and leaves all others. */
  lemma {:induction false} PurgeRemovesExactly(index: Index, id: Id)
    requires WellFormed(index)
    ensures WellFormed(Purge(index, id))
    ensures forall name, x :: Related(Purge(index, id), name, x) <==> Related(index, name, x) && x != id
  {
    var after := Purge(index, id);
    forall name | name in index ensures Distinct(RemoveFirst(index[name], id))
      ensures forall x :: x in RemoveFirst(index[name], id) <==> x in index[name] && x != id
    {
      RemoveFirstMembers(index[name], id);
    }
    forall name, x | Related(index, name, x) && x != id ensures Related(after, name, x) {
      assert x in RemoveFirst(index[name], id);
    }
  }

  /** Appending adds exactly one pair; the list stays without duplicates exactly when
      the pair was not there. */
  lemma {:induction false} AppendAddsExactly(index: Index, name: Name, id: Id)
    requires WellFormed(index)
    ensures WellFormed(Append(index, name, id)) <==> !Related(index, name, id)
    ensures forall n, x :: Related(Append(index, name, id), n, x) <==> Related(index, n, x) || (n == name && x == id)
  {
    var before := if name in index then index[name] else [];
    var after := Append(index, name, id);
    assert after[name] == before + [id];
    if id in before {
      var i :| 0 <= i < |before| && before[i] == id;
      assert (before + [id])[i] == (before + [id])[|before|];
    }
  }

  lemma {:induction false} ForgetRemovesExactly(index: Index, name: Name, id: Id)
    requires WellFormed(index) && name in index
    ensures WellFormed(Forget(index, name, id))
    ensures forall n, x :: Related(Forget(index, name, id), n, x) <==> Related(index, n, x) && !(n == name && x == id)
  {
    RemoveFirstMembers(index[name], id);
    var after := Forget(index, name, id);
    forall n, x | Related(index, n, x) && !(n == name && x == id) ensures Related(after, n, x) {
      if n == name {
        assert x in RemoveFirst(index[name], id);
      }
    }
  }

  // ----- runs -----

  datatype Step =
    | Connected(id: Id, user: Option<Name>, guarded: bool)
    | Disconnected(id: Id)
    | Subscribed(id: Id, topic: Name)
    | Unsubscribed(id: Id, topic: Name)

  function Do(s: State, step: Step): State {
    match step
    case Connected(id, user, guarded) => AfterConnect(s, id, user, guarded)
    case Disconnected(id) => AfterDisconnect(s, id)
    case Subscribed(id, topic) => AfterSubscribe(s, id, topic)
    case Unsubscribed(id, topic) => AfterUnsubscribe(s, id, topic)
  }

  function Run(steps: seq<Step>): State {
    if steps == [] then EMPTY else Do(Run(steps[..|steps| - 1]), steps[|steps| - 1])
  }

  /** A connection does not come again for a user who has it, and only a live connection subscribes. */
  predicate Proper(s: State, step: Step) {
    match step
    case Connected(id, user, _) => NewPair(s, id, user)
    case Subscribed(id, _) => id in s.active
    case _ => true
  }

  predicate NewPair(s: State, id: Id, user: Option<Name>) {
    user.Some? && user.value != "" && user.value in s.users ==> id !in s.users[user.value]
  }

  predicate AllProper(steps: seq<Step>) {
    if steps == [] then true
    else AllProper(steps[..|steps| - 1]) && Proper(Run(steps[..|steps| - 1]), steps[|steps| - 1])
  }

  /** Both indexes are relations over live connections. */
  ghost predicate Indexed(s: State) {
    && WellFormed(s.users) && WellFormed(s.topics)
    && (forall name, id :: Related(s.users, name, id) ==> id in s.active)
    && (forall name, id :: Related(s.topics, name, id) ==> id in s.active)
    && s.guarded <= s.active.Keys
  }

  lemma {:induction false} StepKeepsIndexed(s: State, step: Step)
    requires Indexed(s) && Proper(s, step)
    ensures Indexed(Do(s, step))
  {
    match step
    case Connected(id, user, guarded) =>
      if user.Some? && user.value != "" {
        AppendAddsExactly(s.users, user.value, id);
      }
    case Disconnected(id) =>
      PurgeRemovesExactly(s.users, id);
      PurgeRemovesExactly(s.topics, id);
    case Subscribed(id, topic) =>
      AppendAddsExactly(s.topics, topic, id);
    case Unsubscribed(id, topic) =>
      if topic in s.topics {
        ForgetRemovesExactly(s.topics, topic, id);
      }
  }

  /** Over every run both indexes denote relations, without duplicates or empty lists,
      between names and live connections. */
  lemma {:induction false} RunKeepsIndexed(steps: seq<Step>)
    requires AllProper(steps)
    ensures Indexed(Run(steps))
  {
    if steps != [] {
      RunKeepsIndexed(steps[..|steps| - 1]);
      StepKeepsIndexed(Run(steps[..|steps| - 1]), steps[|steps| - 1]);
    }
  }

  /** Each step changes exactly its own pairs, in both relations. */
  lemma {:induction false} StepChangesExactly(s: State, step: Step)
    requires Indexed(s) && Proper(s, step)
    ensures forall name, x :: Related(Do(s, step).users, name, x) <==>
              match step
              case Connected(id, user, _) => Related(s.users, name, x) || (x == id && user == Some(name) && name != "")
              case Disconnected(id) => Related(s.users, name, x) && x != id
              case _ => Related(s.users, name, x)
    ensures forall name, x :: Related(Do(s, step).topics, name, x) <==>
              match step
              case Subscribed(id, topic) => Related(s.topics, name, x) || (x == id && name == topic)
              case Unsubscribed(id, topic) => Related(s.topics, name, x) && !(x == id && name == topic)
              case Disconnected(id) => Related(s.topics, name, x) && x != id
              case _ => Related(s.topics, name, x)
    ensures Do(s, step).active == (match step
              case Connected(id, _, _) => s.active[id := true]
              case Disconnected(id) => s.active - {id}
              case _ => s.active)
    ensures Do(s, step).guarded == (match step
              case Connected(id, _, guarded) => if guarded then s.guarded + {id} else s.guarded
              case Disconnected(id) => s.guarded - {id}
              case _ => s.guarded)
  {
    match step
    case Connected(id, user, guarded) =>
      if user.Some? && user.value != "" {
        AppendAddsExactly(s.users, user.value, id);
      }
    case Disconnected(id) =>
      PurgeRemovesExactly(s.users, id);
      PurgeRemovesExactly(s.topics, id);
    case Subscribed(id, topic) =>
      AppendAddsExactly(s.topics, topic, id);
    case Unsubscribed(id, topic) =>
      if topic in s.topics {
        ForgetRemovesExactly(s.topics, topic, id);
      }
  }

  // ----- entries that outlive their connection -----

  lemma {:induction false} RemoveFirstTakesOne(ids: seq<Id>, id: Id)
    ensures id in RemoveFirst(ids, id) <==> multiset(ids)[id] > 1
    ensures id in ids ==> multiset(ids)[id] == multiset(RemoveFirst(ids, id))[id] + 1
  {
    if ids != [] {
      assert ids == [ids[0]] + ids[1..];
      RemoveFirstTakesOne(ids[1..], id);
    }
  }

  ghost predicate Gone(index: Index, id: Id) {
    forall name :: !Related(index, name, id)
  }

  ghost predicate AtMostOnce(index: Index, id: Id) {
    forall name :: name in index ==> multiset(index[name])[id] <= 1
  }

  /** A purge leaves no entry of a connection exactly when no list held it more than
      once, whatever the index. */
  lemma {:induction false} PurgeLeavesNoneIff(index: Index, id: Id)
    ensures Gone(Purge(index, id), id) <==> AtMostOnce(index, id)
  {
    forall name | name in index ensures Related(Purge(index, id), name, id) <==> multiset(index[name])[id] > 1 {
      RemoveFirstTakesOne(index[name], id);
    }
  }

  lemma {:induction false} DistinctIsOnce(ids: seq<Id>, id: Id)
    requires Distinct(ids)
    ensures multiset(ids)[id] <= 1
  {
    RemoveFirstMembers(ids, id);
    RemoveFirstTakesOne(ids, id);
  }

  /** After any run, a disconnection leaves no entry behind in either index exactly when
      no user has the identifier twice. */
  lemma {:induction false} DisconnectLeavesNoneIff(steps: seq<Step>, id: Id)
    ensures var after := AfterDisconnect(Run(steps), id);
            Gone(after.users, id) && Gone(after.topics, id) <==> AtMostOnce(Run(steps).users, id)
  {
    var s := Run(steps);
    PurgeLeavesNoneIff(s.users, id);
    PurgeLeavesNoneIff(s.topics, id);
    TopicsStayARelation(steps);
    forall name | name in s.topics ensures multiset(s.topics[name])[id] <= 1 {
      DistinctIsOnce(s.topics[name], id);
    }
  }

  /** A connection keeps the user index a relation exactly when its pair is not there yet. */
  lemma {:induction false} ConnectKeepsWellFormedIff(s: State, id: Id, user: Option<Name>, guarded: bool)
    requires WellFormed(s.users)
    ensures WellFormed(AfterConnect(s, id, user, guarded).users) <==> NewPair(s, id, user)
  {
    if user.Some? && user.value != "" {
      AppendAddsExactly(s.users, user.value, id);
    }
  }

  /** No connection of the run came for a user who had its identifier already. */
  ghost predicate NewPairs(steps: seq<Step>) {
    forall k :: 0 <= k < |steps| && steps[k].Connected? ==> NewPair(Run(steps[..k]), steps[k].id, steps[k].user)
  }

  ghost predicate AlwaysWellFormed(steps: seq<Step>) {
    forall k :: 0 <= k <= |steps| ==> WellFormed(Run(steps[..k]).users)
  }

  lemma {:induction false} StepKeepsUsers(s: State, step: Step)
    requires WellFormed(s.users)
    ensures WellFormed(Do(s, step).users) <==> (step.Connected? ==> NewPair(s, step.id, step.user))
  {
    match step
    case Connected(id, user, guarded) => ConnectKeepsWellFormedIff(s, id, user, guarded);
    case Disconnected(id) => PurgeRemovesExactly(s.users, id);
    case Subscribed(id, topic) =>
    case Unsubscribed(id, topic) =>
  }

  lemma {:induction false} RunFollows(steps: seq<Step>, k: nat)
    requires k < |steps|
    ensures Run(steps[..k + 1]) == Do(Run(steps[..k]), steps[k])
  {
    assert steps[..k + 1][..k] == steps[..k];
  }

  lemma {:induction false} NewPairsKeepUsers(steps: seq<Step>, k: nat)
    requires NewPairs(steps) && k <= |steps|
    ensures WellFormed(Run(steps[..k]).users)
  {
    if k > 0 {
      NewPairsKeepUsers(steps, k - 1);
      RunFollows(steps, k - 1);
      StepKeepsUsers(Run(steps[..k - 1]), steps[k - 1]);
    }
  }

  /** Over a run, the user index is a relation all along exactly when no connection comes
      again for a user who has it. */
  lemma {:induction false} UsersStayARelationIff(steps: seq<Step>)
    ensures AlwaysWellFormed(steps) <==> NewPairs(steps)
  {
    if NewPairs(steps) {
      forall k | 0 <= k <= |steps| ensures WellFormed(Run(steps[..k]).users) {
        NewPairsKeepUsers(steps, k);
      }
    }
    if AlwaysWellFormed(steps) {
      forall k | 0 <= k < |steps| && steps[k].Connected? ensures NewPair(Run(steps[..k]), steps[k].id, steps[k].user) {
        assert WellFormed(Run(steps[..k]).users) && WellFormed(Run(steps[..k + 1]).users);
        RunFollows(steps, k);
        StepKeepsUsers(Run(steps[..k]), steps[k]);
      }
    }
  }

  /** The topic index is a relation in every run, whoever subscribes. */
  lemma {:induction false} TopicsStayARelation(steps: seq<Step>)
    ensures WellFormed(Run(steps).topics)
  {
    if steps != [] {
      var s, step := Run(steps[..|steps| - 1]), steps[|steps| - 1];
      TopicsStayARelation(steps[..|steps| - 1]);
      match step {
        case Connected(id, user, guarded) =>
        case Disconnected(id) => PurgeRemovesExactly(s.topics, id);
        case Subscribed(id, topic) => AppendAddsExactly(s.topics, topic, id);
        case Unsubscribed(id, topic) =>
          if topic in s.topics {
            ForgetRemovesExactly(s.topics, topic, id);
          }
      }
    }
  }

  /** An identifier used again for the same user is listed twice, and its disconnection then
      leaves an entry of a connection that is gone. */
  lemma {:induction false} ReusedIdLeavesAnEntry(id: Id, user: Name)
    requires user != ""
    ensures var s := AfterDisconnect(AfterConnect(AfterConnect(EMPTY, id, Some(user), false), id, Some(user), false), id);
            Related(s.users, user, id) && id !in s.active
  {
  }

  // ----- sending -----

  datatype Verdict = Raised | Denied | Allowed

  datatype Sent = Delivered | Dropped | ClosedWith(code: int)

  predicate Addressed(s: State, id: Id, topic: Option<Name>) {
    topic.Some? ==> topic.value in s.topics && id in s.topics[topic.value]
  }

  function Hand(s: State, id: Id): Sent {
    if id in s.active && s.active[id] then Delivered else Dropped
  }

  /** One message. The lock of a guarded connection is waited for and its guard
      awaited, and the index may be different each time: `locked` is the state once
      the lock is held, `later` the one after the guard answered. */
  function Send(s: State, id: Id, topic: Option<Name>, locked: State, verdict: Verdict, later: State): (Sent, State) {
    if !Addressed(s, id, topic) then (Dropped, s)
    else if id !in s.guarded then (Hand(s, id), s)
    else if id !in locked.active then (Dropped, locked)
    else if verdict == Raised then (ClosedWith(1011), AfterDisconnect(later, id))
    else if verdict == Denied then (ClosedWith(1008), AfterDisconnect(later, id))
    else if !Addressed(later, id, topic) then (Dropped, later)
    else (Hand(later, id), later)
  }

  /** No topic is left with an empty list, not even one that was there before. */
  lemma {:induction false} UnsubscribedIsDropped(s: State, id: Id, topic: Name)
    ensures var after := AfterUnsubscribe(s, id, topic);
            && (topic in after.topics ==> after.topics[topic] != [])
            && after.topics.Keys - {topic} == s.topics.Keys - {topic}
            && after == s.(topics := after.topics)
  {
  }

  /** A message goes out only to a connection that is connected at that moment and
      subscribed at that moment, and never past a guard that did not allow it; a
      guard that refuses leaves no trace of the connection. */
  lemma {:induction false} DeliveredOnlyIfEntitled(s: State, id: Id, topic: Option<Name>, locked: State,
                                                   verdict: Verdict, later: State)
    requires Indexed(s) && Indexed(later)
    ensures var (sent, after) := Send(s, id, topic, locked, verdict, later);
            && (sent == Delivered ==>
                  && id in after.active && after.active[id] && (topic.Some? ==> Related(after.topics, topic.value, id))
                  && (id in s.guarded ==> verdict == Allowed))
            && (sent.ClosedWith? ==>
                  && id !in after.active && id !in after.guarded
                  && forall name :: !Related(after.users, name, id) && !Related(after.topics, name, id))
  {
    PurgeRemovesExactly(later.users, id);
    PurgeRemovesExactly(later.topics, id);
  }

  /** Listed under the topic, if there is one. */
  ghost predicate Entitled(s: State, id: Id, topic: Option<Name>) {
    topic.Some? ==> Related(s.topics, topic.value, id)
  }

  ghost predicate IsConnected(s: State, id: Id) {
    id in s.active && s.active[id]
  }

  /** And every entitled message does go out: it is delivered exactly to a connection that
      is listed when it is sent and, without a guard, connected; with one, still known
      once its lock is held, let through, and listed and connected after that. A guard
      that fails or refuses ends the connection with its own code, whatever else. */
  lemma {:induction false} DeliveredIffEntitled(s: State, id: Id, topic: Option<Name>, locked: State,
                                                verdict: Verdict, later: State)
    ensures var (sent, after) := Send(s, id, topic, locked, verdict, later);
            var asked := Entitled(s, id, topic) && id in s.guarded && id in locked.active;
            && (sent == Delivered <==>
                  && Entitled(s, id, topic)
                  && if id !in s.guarded then IsConnected(s, id)
                     else asked && verdict == Allowed && Entitled(later, id, topic) && IsConnected(later, id))
            && (sent == ClosedWith(1011) <==> asked && verdict == Raised)
            && (sent == ClosedWith(1008) <==> asked && verdict == Denied)
            && (sent.ClosedWith? ==> (sent.code == 1011 || sent.code == 1008) && after == AfterDisconnect(later, id))
            && (!sent.ClosedWith? ==> after == if asked then later else if id in s.guarded && Entitled(s, id, topic) then locked else s)
  {
  }

  // ----- the manager -----

  class ConnectionManager {
    var activeConnections: map<Id, bool>
    var userConnections: Index
    var topicSubscriptions: Index
    var sendGuards: set<Id>

    constructor ()
      ensures View() == EMPTY
    {
      activeConnections, userConnections, topicSubscriptions, sendGuards := map[], map[], map[], {};
    }

    ghost function View(): State
      reads this
    {
      State(activeConnections, userConnections, topicSubscriptions, sendGuards)
    }

    method Connect(id: Id, user: Option<Name>, authorizes: bool)
      modifies this
      ensures View() == AfterConnect(old(View()), id, user, authorizes)
    {
      activeConnections := activeConnections[id := true];
      if authorizes {
        sendGuards := sendGuards + {id};
      }
      if user.Some? && user.value != "" {
        if user.value !in userConnections {
          userConnections := userConnections[user.value := []];
        }
        userConnections := userConnections[user.value := userConnections[user.value] + [id]];
      }
    }

    /** The loop over one dictionary: a snapshot of its keys, each list visited once. */
    method PurgeIndex(index: Index, id: Id) returns (after: Index)
      ensures after == Purge(index, id)
    {
      after := index;
      var todo := index.Keys;
      while todo != {}
        invariant todo <= index.Keys
        invariant forall name :: name in after ==> name in index
        invariant forall name :: name in todo ==> name in after && after[name] == index[name]
        invariant forall name :: name in index && name !in todo ==> (name in after <==> name in Purge(index, id))
        invariant forall name :: name in after && name !in todo ==> after[name] == Purge(index, id)[name]
        decreases todo
      {
        var name :| name in todo;
        todo := todo - {name};
        if id in after[name] {
          var rest := RemoveFirst(after[name], id);
          if rest == [] {
            after := after - {name};
          } else {
            after := after[name := rest];
          }
        }
      }
    }

    method Disconnect(id: Id)
      modifies this
      ensures View() == AfterDisconnect(old(View()), id)
    {
      activeConnections := activeConnections - {id};
      sendGuards := sendGuards - {id};
      userConnections := PurgeIndex(userConnections, id);
      topicSubscriptions := PurgeIndex(topicSubscriptions, id);
    }

    method Subscribe(id: Id, topic: Name)
      modifies this`topicSubscriptions
      ensures View() == AfterSubscribe(old(View()), id, topic)
    {
      var was := topicSubscriptions;
      if topic !in topicSubscriptions {
        topicSubscriptions := topicSubscriptions[topic := []];
      }
      if id !in topicSubscriptions[topic] {
        topicSubscriptions := topicSubscriptions[topic := topicSubscriptions[topic] + [id]];
      }
      assert topicSubscriptions == if topic in was && id in was[topic] then was else Append(was, topic, id);
    }

    method Unsubscribe(id: Id, topic: Name)
      modifies this`topicSubscriptions
      ensures View() == AfterUnsubscribe(old(View()), id, topic)
    {
      if topic in topicSubscriptions {
        if id in topicSubscriptions[topic] {
          topicSubscriptions := topicSubscriptions[topic := RemoveFirst(topicSubscriptions[topic], id)];
        }
        if topicSubscriptions[topic] == [] {
          topicSubscriptions := topicSubscriptions - {topic};
        }
      }
    }
  }
}
