/**
 * The hub loop exactly as hub.go writes it (reading the misspelt `cleint`
 * on hub.go:30 as `client`), and what separates it from the corrected
 * loop `Hub.Step`:
 *
 *  - registration overwrites the user's entry without closing the
 *    displaced session's channel, which stays open until that session's
 *    own unregister, and for good if the username has left the registry
 *    before that unregister arrives;
 *  - unregistration matches on the username only, so a stale session's
 *    unregister deletes the newer session's entry;
 *  - when the stale session had already been evicted for a full channel,
 *    that unregister closes its channel a second time and the process panics.
 */
module HubFindings {
  import opened Wrappers
  import opened Protocol
  import opened Hub

  /** One iteration of `Hub.Run` as written (hub.go:24-42). */
  function StepAsWritten(s: HubState, e: Event): StepResult {
    match e
    case Register(c) =>
      Stepped(HubState(s.clients[c.username := c], s.queues[c := QueueOf(s.queues, c)]))
    case Unregister(c) =>
      if c.username in s.clients then
        match CloseQueue(s.queues, c)
        case Failure(why) => Panic(why)
        case Success(qs) => Stepped(HubState(s.clients - {c.username}, qs))
      else Stepped(s)
    case Forward(m) => Route(s, m)
  }

  /**
   * As written, the loop keeps `Valid` (keys match, registered channels
   * open and bounded), and it panics in exactly one situation: an
   * unregister from a session that is not the current one for its user
   * and whose channel is already closed.
   */
  lemma AsWrittenPreservesValid(s: HubState, e: Event)
    requires Valid(s) && Admissible(s, e)
    ensures StepAsWritten(s, e).Panic? <==>
      && e.Unregister? && e.client.username in s.clients && s.clients[e.client.username] != e.client
      && e.client in s.queues && s.queues[e.client].closed
    ensures StepAsWritten(s, e).Stepped? ==> Valid(StepAsWritten(s, e).hub)
  {
    match e
    case Register(c) =>
      var t := StepAsWritten(s, e).hub;
      forall k | k in t.clients
        ensures t.clients[k] in t.queues && !t.queues[t.clients[k]].closed
      {
        if k != c.username {
          assert s.clients[k] in s.queues && s.clients[k] != c;
        }
      }
    case Unregister(c) =>
      if c.username in s.clients {
        if s.clients[c.username] == c {
          assert c in s.queues && !s.queues[c].closed;
        }
        if StepAsWritten(s, e).Stepped? {
          var t := StepAsWritten(s, e).hub;
          forall k | k in t.clients
            ensures t.clients[k] in t.queues && !t.queues[t.clients[k]].closed
          {
            assert s.clients[k].username == k;
          }
        }
      }
    case Forward(m) =>
      if m.recipient in s.clients && StepAsWritten(s, e).Stepped? {
        var t := StepAsWritten(s, e).hub;
        forall k | k in t.clients
          ensures t.clients[k] in t.queues && !t.queues[t.clients[k]].closed
        {
          assert s.clients[k].username == k;
        }
      }
  }

  /**
   * As written, re-registering a user leaves the displaced session with an
   * open channel while no registry entry points at it, so `NoOrphans`
   * fails. Only that session's own unregister can close it, and only while
   * some session of the same user is still registered.
   */
  lemma AsWrittenRegisterLeaksDisplaced(s: HubState, c: Client)
    requires Valid(s) && c !in s.queues && c.username in s.clients
    ensures var d := s.clients[c.username]; var t := StepAsWritten(s, Register(c));
      && t.Stepped? && d in t.hub.queues && !t.hub.queues[d].closed
      && t.hub.clients[c.username] == c && d != c
      && !NoOrphans(t.hub)
  {
    var d := s.clients[c.username];
    assert d in s.queues;
    var t := StepAsWritten(s, Register(c)).hub;
    assert d in t.queues && !t.queues[d].closed && t.clients[d.username] != d;
  }

  /**
   * As written, an unregister from a stale session removes the current
   * session's entry (or panics, when the stale channel was already closed).
   */
  lemma AsWrittenStaleUnregisterEvictsNewer(s: HubState, c: Client)
    requires Valid(s) && c.username in s.clients && s.clients[c.username] != c
    ensures var t := StepAsWritten(s, Unregister(c));
      t.Stepped? ==> c.username !in t.hub.clients && !t.hub.queues[s.clients[c.username]].closed
  {
    assert s.clients[c.username] in s.queues;
  }

  /** `k` copies of `e`. */
  function Repeat<T>(e: T, k: nat): (r: seq<T>)
    ensures |r| == k && forall i :: 0 <= i < k ==> r[i] == e
  {
    seq(k, _ => e)
  }

  /** Running a concatenation of traces runs the first, then the second from where it stopped. */
  lemma {:induction false} RunAppend(step: (HubState, Event) -> StepResult, s: HubState, a: seq<Event>, b: seq<Event>)
    ensures Run(step, s, a + b) ==
      match Run(step, s, a)
      case Panic(why) => Panic(why)
      case Stepped(t) => Run(step, t, b)
    decreases |a|
  {
    if |a| == 0 {
      assert a + b == b;
    } else {
      assert (a + b)[0] == a[0] && (a + b)[1..] == a[1..] + b;
      match step(s, a[0])
      case Panic(why) =>
        assert Run(step, s, a) == Panic(why);
        assert Run(step, s, a + b) == Panic(why);
      case Stepped(t) =>
        assert Run(step, s, a) == Run(step, t, a[1..]);
        assert Run(step, s, a + b) == Run(step, t, a[1..] + b);
        RunAppend(step, t, a[1..], b);
    }
  }

  /**
   * `k` messages for a registered user whose channel has room for them
   * land at the back of that channel in arrival order, under either loop.
   */
  lemma {:induction false} ForwardsFill(step: (HubState, Event) -> StepResult, s: HubState, m: Message, k: nat)
    requires forall t: HubState, n: Message :: step(t, Forward(n)) == Route(t, n)
    requires m.recipient in s.clients && s.clients[m.recipient] in s.queues
    requires !s.queues[s.clients[m.recipient]].closed
    requires |s.queues[s.clients[m.recipient]].items| + k <= SendCapacity
    ensures var target := s.clients[m.recipient];
      Run(step, s, Repeat(Forward(m), k)) ==
        Stepped(s.(queues := s.queues[target := Queue(s.queues[target].items + Repeat(m, k), false)]))
    decreases k
  {
    var target := s.clients[m.recipient];
    var items := s.queues[target].items;
    if k == 0 {
      assert items + Repeat(m, 0) == items;
      assert s.queues[target := Queue(items, false)] == s.queues;
    } else {
      var s1 := s.(queues := s.queues[target := Queue(items + [m], false)]);
      assert step(s, Forward(m)) == Stepped(s1);
      assert Repeat(Forward(m), k)[1..] == Repeat(Forward(m), k - 1);
      ForwardsFill(step, s1, m, k - 1);
      assert items + [m] + Repeat(m, k - 1) == items + Repeat(m, k);
      assert s1.queues[target := Queue(items + Repeat(m, k), false)] == s.queues[target := Queue(items + Repeat(m, k), false)];
    }
  }

  const Alice1 := Client(1, "alice")
  const Alice2 := Client(2, "alice")
  const ToAlice := Message("alice", "bob", [])

  /**
   * Alice connects twice, then her first connection drops. As written she
   * is left with a live second session that no message can reach, and her
   * first session's channel was only closed by that late unregister; the
   * corrected loop closes the first session on replacement and keeps the
   * second one registered.
   */
  lemma ReplaceThenStaleUnregister()
    ensures var t := Run(StepAsWritten, Init, [Register(Alice1), Register(Alice2), Unregister(Alice1)]);
      && t.Stepped? && "alice" !in t.hub.clients && Alice2 in t.hub.queues && !t.hub.queues[Alice2].closed
      && Alice1 in t.hub.queues && t.hub.queues[Alice1].closed
    ensures var t := Run(Step, Init, [Register(Alice1), Register(Alice2), Unregister(Alice1)]);
      && t.Stepped? && t.hub.clients == map["alice" := Alice2]
      && Alice1 in t.hub.queues && t.hub.queues[Alice1].closed
      && Alice2 in t.hub.queues && !t.hub.queues[Alice2].closed
  {
    var events := [Register(Alice1), Register(Alice2), Unregister(Alice1)];
    var s1 := HubState(map["alice" := Alice1], map[Alice1 := FreshQueue]);
    assert events[1..] == [Register(Alice2), Unregister(Alice1)];
    assert events[1..][1..] == [Unregister(Alice1)];
    assert events[1..][1..][1..] == [];

    assert StepAsWritten(Init, Register(Alice1)) == Stepped(s1);
    var w2 := HubState(map["alice" := Alice2], map[Alice1 := FreshQueue, Alice2 := FreshQueue]);
    assert StepAsWritten(s1, Register(Alice2)) == Stepped(w2);
    var w3 := HubState(map[], map[Alice1 := Queue([], true), Alice2 := FreshQueue]);
    assert w2.clients - {"alice"} == map[];
    assert StepAsWritten(w2, Unregister(Alice1)) == Stepped(w3);
    assert Run(StepAsWritten, w2, [Unregister(Alice1)]) == Stepped(w3);

    assert Step(Init, Register(Alice1)) == Stepped(s1);
    var c2 := HubState(map["alice" := Alice2], map[Alice1 := Queue([], true), Alice2 := FreshQueue]);
    assert Step(s1, Register(Alice2)) == Stepped(c2);
    assert Step(c2, Unregister(Alice1)) == Stepped(c2);
    assert Run(Step, c2, [Unregister(Alice1)]) == Stepped(c2);
  }

  /**
   * Alice's first session stops reading and is evicted once 256 messages
   * are waiting; she reconnects; then the first session's read pump ends.
   * As written, that unregister closes the evicted channel a second time
   * and the hub panics; the corrected loop ignores it.
   */
  lemma EvictedThenStaleUnregisterPanics()
    ensures var events := [Register(Alice1)] + Repeat(Forward(ToAlice), SendCapacity + 1) + [Register(Alice2), Unregister(Alice1)];
      && Run(StepAsWritten, Init, events) == Panic("close of closed channel")
      && Run(Step, Init, events).Stepped?
      && Run(Step, Init, events).hub.clients == map["alice" := Alice2]
  {
    var full := Repeat(ToAlice, SendCapacity);
    var s1 := HubState(map["alice" := Alice1], map[Alice1 := FreshQueue]);
    var s2 := s1.(queues := map[Alice1 := Queue(full, false)]);
    var s3 := HubState(map[], map[Alice1 := Queue(full, true)]);
    var s4 := HubState(map["alice" := Alice2], map[Alice1 := Queue(full, true), Alice2 := FreshQueue]);
    var fill := Repeat(Forward(ToAlice), SendCapacity);
    var tail := [Forward(ToAlice), Register(Alice2), Unregister(Alice1)];
    assert Repeat(Forward(ToAlice), SendCapacity + 1) == fill + [Forward(ToAlice)];
    var events := [Register(Alice1)] + Repeat(Forward(ToAlice), SendCapacity + 1) + [Register(Alice2), Unregister(Alice1)];
    assert events == [Register(Alice1)] + (fill + tail);
    assert [] + full == full;
    assert s1.queues[Alice1 := Queue(s1.queues[Alice1].items + Repeat(ToAlice, SendCapacity), false)] == s2.queues;

    assert Run(StepAsWritten, Init, events) == Run(StepAsWritten, s1, fill + tail);
    ForwardsFill(StepAsWritten, s1, ToAlice, SendCapacity);
    RunAppend(StepAsWritten, s1, fill, tail);
    assert s2.clients - {"alice"} == map[];
    assert s2.queues[Alice1 := Queue(full, true)] == s3.queues;
    assert Route(s2, ToAlice) == Stepped(s3);
    assert StepAsWritten(s2, Forward(ToAlice)) == Stepped(s3);
    assert Run(StepAsWritten, s2, tail) == Run(StepAsWritten, s3, tail[1..]);
    assert tail[1..][1..] == [Unregister(Alice1)];
    assert StepAsWritten(s3, Register(Alice2)) == Stepped(s4);
    assert Run(StepAsWritten, s3, tail[1..]) == Run(StepAsWritten, s4, [Unregister(Alice1)]);
    assert StepAsWritten(s4, Unregister(Alice1)) == Panic("close of closed channel");

    assert Run(Step, Init, events) == Run(Step, s1, fill + tail);
    ForwardsFill(Step, s1, ToAlice, SendCapacity);
    RunAppend(Step, s1, fill, tail);
    assert Step(s2, Forward(ToAlice)) == Stepped(s3);
    assert Run(Step, s2, tail) == Run(Step, s3, tail[1..]);
    assert Step(s3, Register(Alice2)) == Stepped(s4);
    assert Run(Step, s3, tail[1..]) == Run(Step, s4, [Unregister(Alice1)]);
    assert Step(s4, Unregister(Alice1)) == Stepped(s4);
    assert Run(Step, s4, [Unregister(Alice1)]) == Stepped(s4);
  }
}
