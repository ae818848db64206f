/**
 * The hub (internal/server/hub.go): one sequential loop that owns the
 * registry of connected sessions and every session's outbound channel.
 *
 * Each loop iteration takes one event and completes it before the next, so
 * the loop is modelled as a pure step function over an immutable state.
 * Go channels become queues with a closed flag; the non-blocking send of a
 * forwarded message becomes a capacity test; the runtime panics Go raises
 * on channel misuse become an explicit `Panic` outcome.
 *
 * `Step` is the hub with the two replacement rules a session registry
 * needs: a newer session for a username closes the displaced session's
 * channel, and an unregister only removes the entry if it is that very
 * session. hub.go itself does neither; `HubFindings.StepAsWritten` models
 * the code as written and shows what goes wrong.
 */
module Hub {
  import opened Wrappers
  import opened Protocol

  /** Capacity of a session's outbound channel, `make(chan *protocol.Message, 256)`. */
  const SendCapacity: nat := 256

  /**
   * A session as the hub sees it. `id` stands for the identity of the Go
   * `*Client` pointer: two sessions of one user differ in it.
   */
  datatype Client = Client(id: nat, username: string)

  /** A buffered channel: the messages waiting in it, oldest first, and whether it was closed. */
  datatype Queue = Queue(items: seq<Message>, closed: bool)

  /** The registry (username to current session) and every session's outbound channel. */
  datatype HubState = HubState(clients: map<string, Client>, queues: map<Client, Queue>)

  /** What one loop iteration receives: from the register, unregister or forward channel. */
  datatype Event = Register(client: Client) | Unregister(client: Client) | Forward(message: Message)

  /** One loop iteration ends in the next state or in a Go runtime panic that stops the process. */
  datatype StepResult = Stepped(hub: HubState) | Panic(reason: string)

  /** What the write pump's receive `<-c.send` yields. */
  datatype Delivery = Delivered(message: Message) | ChannelClosed | WouldBlock

  /** What a run of receives got: the messages delivered, then the receive that did not deliver. */
  datatype Drained = Drained(messages: seq<Message>, last: Delivery)

  /** The hub as `NewHub` creates it: nobody registered. */
  const Init := HubState(map[], map[])

  /** A freshly made channel. */
  const FreshQueue := Queue([], false)

  /** The channel of session `c`; one not yet seen is fresh. */
  function QueueOf(queues: map<Client, Queue>, c: Client): Queue {
    if c in queues then queues[c] else FreshQueue
  }

  /**
   * Go's `close(ch)`: the channel is marked closed and keeps its buffered
   * messages for the receiver; closing a closed channel panics.
   */
  function CloseQueue(queues: map<Client, Queue>, c: Client): (r: Result<map<Client, Queue>, string>)
    ensures r.Failure? <==> c in queues && queues[c].closed
    ensures r.Success? ==> c in r.value && r.value[c].closed && r.value[c].items == QueueOf(queues, c).items
    ensures r.Success? ==> r.value.Keys == queues.Keys + {c}
    ensures r.Success? ==> forall d :: d in queues && d != c ==> r.value[d] == queues[d]
  {
    if c in queues && queues[c].closed then Failure("close of closed channel")
    else Success(queues[c := Queue(QueueOf(queues, c).items, true)])
  }

  /** Every registry key is the username of the session stored under it. */
  predicate KeysMatch(s: HubState) {
    forall k :: k in s.clients ==> s.clients[k].username == k
  }

  /** Every registered session's channel exists and is open. */
  predicate RegisteredOpen(s: HubState) {
    forall k :: k in s.clients ==> s.clients[k] in s.queues && !s.queues[s.clients[k]].closed
  }

  /** No channel holds more than its capacity. */
  predicate Bounded(s: HubState) {
    forall c :: c in s.queues ==> |s.queues[c].items| <= SendCapacity
  }

  /** The invariants the hub keeps both as written and as corrected. */
  predicate Valid(s: HubState) {
    KeysMatch(s) && RegisteredOpen(s) && Bounded(s)
  }

  /**
   * An open channel belongs to the current session of its user: a session
   * that left the registry has been told to stop (its write pump exits).
   */
  predicate NoOrphans(s: HubState) {
    forall c :: c in s.queues && !s.queues[c].closed ==> c.username in s.clients && s.clients[c.username] == c
  }

  /** The invariant of the corrected hub. */
  predicate Sound(s: HubState) {
    Valid(s) && NoOrphans(s)
  }

  /**
   * What the environment guarantees about an event: a session is registered
   * once, right after the gateway made its channel (server.go:207-208).
   */
  predicate Admissible(s: HubState, e: Event) {
    e.Register? ==> e.client !in s.queues
  }

  /**
   * The forward case (hub.go:32-41): look the recipient up; when present,
   * try a non-blocking send; a full channel evicts the recipient. Only the
   * recipient is read, never the content.
   */
  function Route(s: HubState, m: Message): (r: StepResult)
    ensures m.recipient !in s.clients ==> r == Stepped(s)
    ensures m.recipient in s.clients && !QueueOf(s.queues, s.clients[m.recipient]).closed ==> r.Stepped?
    ensures r.Stepped? ==> r.hub.clients.Keys <= s.clients.Keys
    ensures r.Stepped? ==> r.hub.queues.Keys == s.queues.Keys + (if m.recipient in s.clients then {s.clients[m.recipient]} else {})
    ensures r.Stepped? ==> forall c :: c in s.queues && (m.recipient !in s.clients || c != s.clients[m.recipient]) ==>
      r.hub.queues[c] == s.queues[c]
  {
    if m.recipient in s.clients then
      var target := s.clients[m.recipient];
      var q := QueueOf(s.queues, target);
      if q.closed then Panic("send on closed channel")
      else if |q.items| < SendCapacity then
        Stepped(s.(queues := s.queues[target := Queue(q.items + [m], false)]))
      else
        Stepped(HubState(s.clients - {target.username}, s.queues[target := Queue(q.items, true)]))
    else Stepped(s)
  }

  /**
   * Registration (hub.go:25-26, corrected): the session becomes current for
   * its username; a different session displaced from that username has its
   * channel closed in the same step.
   */
  function Install(s: HubState, c: Client): (r: StepResult)
    ensures r.Stepped? ==> r.hub.clients == s.clients[c.username := c]
    ensures r.Stepped? ==> c in r.hub.queues && r.hub.queues[c] == QueueOf(s.queues, c)
  {
    var queues := s.queues[c := QueueOf(s.queues, c)];
    if c.username in s.clients && s.clients[c.username] != c then
      match CloseQueue(queues, s.clients[c.username])
      case Failure(why) => Panic(why)
      case Success(qs) => Stepped(HubState(s.clients[c.username := c], qs))
    else
      Stepped(HubState(s.clients[c.username := c], queues))
  }

  /**
   * Unregistration (hub.go:27-31, corrected): only the current session of
   * the username is removed, and its channel is closed.
   */
  function Remove(s: HubState, c: Client): (r: StepResult)
    ensures !(c.username in s.clients && s.clients[c.username] == c) ==> r == Stepped(s)
    ensures r.Stepped? && c.username in s.clients && s.clients[c.username] == c ==>
      r.hub.clients == s.clients - {c.username} && c in r.hub.queues && r.hub.queues[c].closed
  {
    if c.username in s.clients && s.clients[c.username] == c then
      match CloseQueue(s.queues, c)
      case Failure(why) => Panic(why)
      case Success(qs) => Stepped(HubState(s.clients - {c.username}, qs))
    else Stepped(s)
  }

  /** One iteration of `Hub.Run`. */
  function Step(s: HubState, e: Event): StepResult {
    match e
    case Register(c) => Install(s, c)
    case Unregister(c) => Remove(s, c)
    case Forward(m) => Route(s, m)
  }

  /** Feeds a sequence of events to the loop, stopping at the first panic. */
  function Run(step: (HubState, Event) -> StepResult, s: HubState, events: seq<Event>): StepResult
    decreases |events|
  {
    if |events| == 0 then Stepped(s)
    else
      match step(s, events[0])
      case Panic(why) => Panic(why)
      case Stepped(next) => Run(step, next, events[1..])
  }

  /**
   * The write pump's receive from its channel: buffered messages come out
   * oldest first, even after the channel was closed; a closed, drained
   * channel reports the close; an open, drained one blocks.
   */
  function Receive(s: HubState, c: Client): (r: (Delivery, HubState))
    ensures r.0.Delivered? <==> |QueueOf(s.queues, c).items| > 0
    ensures r.0.Delivered? ==> r.0.message == QueueOf(s.queues, c).items[0]
    ensures r.0.Delivered? ==> r.1.clients == s.clients && c in r.1.queues
    ensures r.0.Delivered? ==> [r.0.message] + r.1.queues[c].items == QueueOf(s.queues, c).items
    ensures r.0.Delivered? ==> r.1.queues == s.queues[c := r.1.queues[c]] && r.1.queues[c].closed == QueueOf(s.queues, c).closed
    ensures r.0.ChannelClosed? <==> |QueueOf(s.queues, c).items| == 0 && QueueOf(s.queues, c).closed
    ensures !r.0.Delivered? ==> r.1 == s
  {
    var q := QueueOf(s.queues, c);
    if |q.items| > 0 then (Delivered(q.items[0]), s.(queues := s.queues[c := q.(items := q.items[1..])]))
    else if q.closed then (ChannelClosed, s)
    else (WouldBlock, s)
  }

  /**
   * The write pump's `for` loop over its channel, as repeated `Receive`
   * with no hub step in between: the messages delivered, in order, and
   * the receive that ended the loop.
   */
  function Drain(s: HubState, c: Client): (r: Drained)
    decreases |QueueOf(s.queues, c).items|
  {
    var (d, t) := Receive(s, c);
    if d.Delivered? then
      var rest := Drain(t, c);
      Drained([d.message] + rest.messages, rest.last)
    else Drained([], d)
  }

  /**
   * Receiving until the channel has nothing more yields exactly the
   * messages buffered in it, oldest first, and reports the close iff the
   * channel was closed; so a pump over the channel's contents is a pump
   * over repeated receives.
   */
  lemma {:induction false} DrainIsContents(s: HubState, c: Client)
    ensures Drain(s, c).messages == QueueOf(s.queues, c).items
    ensures Drain(s, c).last == (if QueueOf(s.queues, c).closed then ChannelClosed else WouldBlock)
    decreases |QueueOf(s.queues, c).items|
  {
    var (d, t) := Receive(s, c);
    if d.Delivered? {
      DrainIsContents(t, c);
    }
  }

  /**
   * Registering a new session installs it under its own username and
   * changes no other registry key; a session it displaces has its channel
   * closed (its write pump drains and exits); no other channel changes.
   */
  lemma RegisterInstalls(s: HubState, c: Client)
    requires Sound(s) && c !in s.queues
    ensures Step(s, Register(c)).Stepped?
    ensures var t := Step(s, Register(c)).hub;
      && t.clients == s.clients[c.username := c]
      && t.queues.Keys == s.queues.Keys + {c}
      && t.queues[c] == FreshQueue
      && (c.username in s.clients ==> t.queues[s.clients[c.username]].closed)
      && (forall d :: d in s.queues && !(c.username in s.clients && d == s.clients[c.username]) ==> t.queues[d] == s.queues[d])
  {
    if c.username in s.clients {
      var displaced := s.clients[c.username];
      assert displaced in s.queues && !s.queues[displaced].closed;
      assert displaced != c;
    }
  }

  /** Unregistering the current session of a user removes exactly that entry and closes its channel. */
  lemma UnregisterCurrent(s: HubState, c: Client)
    requires Valid(s) && c.username in s.clients && s.clients[c.username] == c
    ensures Step(s, Unregister(c)).Stepped?
    ensures var t := Step(s, Unregister(c)).hub;
      && t.clients == s.clients - {c.username}
      && t.queues.Keys == s.queues.Keys
      && t.queues[c] == Queue(s.queues[c].items, true)
      && (forall d :: d in s.queues && d != c ==> t.queues[d] == s.queues[d])
  {
  }

  /**
   * An unregister naming a session that is not the current one for its
   * user (a stale session, or a user not registered at all) changes nothing.
   */
  lemma UnregisterStale(s: HubState, c: Client)
    requires c.username !in s.clients || s.clients[c.username] != c
    ensures Step(s, Unregister(c)) == Stepped(s)
  {
  }

  /**
   * A message for a registered user whose channel has room is appended at
   * the back of that channel; the registry and all other channels stay as
   * they were.
   */
  lemma ForwardEnqueues(s: HubState, m: Message)
    requires Valid(s) && m.recipient in s.clients
    requires |s.queues[s.clients[m.recipient]].items| < SendCapacity
    ensures Step(s, Forward(m)).Stepped?
    ensures var t := Step(s, Forward(m)).hub; var target := s.clients[m.recipient];
      && t.clients == s.clients
      && t.queues.Keys == s.queues.Keys
      && t.queues[target] == Queue(s.queues[target].items + [m], false)
      && (forall d :: d in s.queues && d != target ==> t.queues[d] == s.queues[d])
  {
  }

  /**
   * A message for a registered user whose channel is full never blocks the
   * loop: the recipient's channel is closed, its registry entry deleted, and
   * nothing else changes. The message itself is dropped.
   */
  lemma ForwardEvicts(s: HubState, m: Message)
    requires Valid(s) && m.recipient in s.clients
    requires |s.queues[s.clients[m.recipient]].items| >= SendCapacity
    ensures Step(s, Forward(m)).Stepped?
    ensures var t := Step(s, Forward(m)).hub; var target := s.clients[m.recipient];
      && t.clients == s.clients - {m.recipient}
      && t.queues.Keys == s.queues.Keys
      && t.queues[target] == Queue(s.queues[target].items, true)
      && (forall d :: d in s.queues && d != target ==> t.queues[d] == s.queues[d])
  {
  }

  /**
   * Routing depends on the recipient alone: two messages for the same
   * recipient, whatever their sender and content, lead to the same registry
   * and to channels of the same length and closed state.
   */
  lemma ForwardIgnoresContent(s: HubState, m: Message, n: Message)
    requires m.recipient == n.recipient
    ensures Step(s, Forward(m)).Stepped? <==> Step(s, Forward(n)).Stepped?
    ensures Step(s, Forward(m)).Stepped? ==>
      var a := Step(s, Forward(m)).hub; var b := Step(s, Forward(n)).hub;
      && a.clients == b.clients
      && a.queues.Keys == b.queues.Keys
      && forall c :: c in a.queues ==> |a.queues[c].items| == |b.queues[c].items| && a.queues[c].closed == b.queues[c].closed
  {
  }

  /** Registering a session whose channel was just made keeps the hub sound. */
  lemma RegisterSound(s: HubState, c: Client)
    requires Sound(s) && c !in s.queues
    ensures Step(s, Register(c)).Stepped? && Sound(Step(s, Register(c)).hub)
  {
    RegisterInstalls(s, c);
    var t := Step(s, Register(c)).hub;
    forall k | k in t.clients
      ensures t.clients[k] in t.queues && !t.queues[t.clients[k]].closed
    {
      if k != c.username {
        assert s.clients[k].username == k;
      }
    }
    forall d | d in t.queues && !t.queues[d].closed
      ensures d.username in t.clients && t.clients[d.username] == d
    {
      if d != c {
        assert d in s.queues && !s.queues[d].closed;
      }
    }
  }

  /** Unregistering any session keeps the hub sound. */
  lemma UnregisterSound(s: HubState, c: Client)
    requires Sound(s)
    ensures Step(s, Unregister(c)).Stepped? && Sound(Step(s, Unregister(c)).hub)
  {
    if c.username in s.clients && s.clients[c.username] == c {
      UnregisterCurrent(s, c);
      var t := Step(s, Unregister(c)).hub;
      forall k | k in t.clients
        ensures t.clients[k] in t.queues && !t.queues[t.clients[k]].closed
      {
        assert s.clients[k].username == k;
      }
    }
  }

  /** Forwarding any message keeps the hub sound. */
  lemma ForwardSound(s: HubState, m: Message)
    requires Sound(s)
    ensures Step(s, Forward(m)).Stepped? && Sound(Step(s, Forward(m)).hub)
  {
    if m.recipient in s.clients {
      var target := s.clients[m.recipient];
      if |s.queues[target].items| < SendCapacity {
        ForwardEnqueues(s, m);
      } else {
        ForwardEvicts(s, m);
        var t := Step(s, Forward(m)).hub;
        forall k | k in t.clients
          ensures t.clients[k] in t.queues && !t.queues[t.clients[k]].closed
        {
          assert s.clients[k].username == k;
        }
      }
    }
  }

  /**
   * The corrected loop keeps its invariant on every admissible event and
   * never panics: every key names its own session, every registered
   * session's channel is open and within capacity, and every open channel
   * belongs to a current session.
   */
  lemma StepPreservesSound(s: HubState, e: Event)
    requires Sound(s) && Admissible(s, e)
    ensures Step(s, e).Stepped? && Sound(Step(s, e).hub)
  {
    match e
    case Register(c) => RegisterSound(s, c);
    case Unregister(c) => UnregisterSound(s, c);
    case Forward(m) => ForwardSound(s, m);
  }

  /** Each session in `events` is registered at most once and only if its channel was not yet made. */
  predicate FreshRegistrations(s: HubState, events: seq<Event>) {
    forall i :: 0 <= i < |events| && events[i].Register? ==>
      events[i].client !in s.queues &&
      forall j :: 0 <= j < i ==> events[j] != Register(events[i].client)
  }

  /** A step only makes the channel of a session it registers. */
  lemma StepQueueKeys(s: HubState, e: Event)
    requires Sound(s) && Admissible(s, e)
    ensures Step(s, e).Stepped?
    ensures Step(s, e).hub.queues.Keys == s.queues.Keys + (if e.Register? then {e.client} else {})
  {
    StepPreservesSound(s, e);
    if e.Register? {
      RegisterInstalls(s, e.client);
    }
  }

  /** Registrations still to come stay fresh after a step that made at most the channel it registered. */
  lemma FreshAfterStep(s: HubState, t: HubState, events: seq<Event>)
    requires |events| > 0 && FreshRegistrations(s, events)
    requires t.queues.Keys == s.queues.Keys + (if events[0].Register? then {events[0].client} else {})
    ensures FreshRegistrations(t, events[1..])
  {
    forall i | 0 <= i < |events[1..]| && events[1..][i].Register?
      ensures events[1..][i].client !in t.queues
    {
      assert events[i + 1] == events[1..][i];
      if events[0].Register? {
        assert events[0] != Register(events[i + 1].client);
      }
    }
  }

  /**
   * From a sound state (such as `Init`), the corrected hub never panics and
   * stays sound along any trace in which every session registers once.
   */
  lemma {:induction false} RunPreservesSound(s: HubState, events: seq<Event>)
    requires Sound(s) && FreshRegistrations(s, events)
    ensures Run(Step, s, events).Stepped? && Sound(Run(Step, s, events).hub)
    decreases |events|
  {
    if |events| > 0 {
      StepPreservesSound(s, events[0]);
      StepQueueKeys(s, events[0]);
      var t := Step(s, events[0]).hub;
      FreshAfterStep(s, t, events);
      RunPreservesSound(t, events[1..]);
      assert Run(Step, s, events) == Run(Step, t, events[1..]);
    }
  }
}
