/**
 * The relay end to end: a gateway admission registers a session with the
 * hub, a frame read by one session's read pump is stamped with that
 * session's username and routed into the recipient's channel.
 */
module Relay {
  import opened Wrappers
  import opened Bytes
  import opened Protocol
  import opened Hub
  import HubFindings
  import opened Session
  import Gateway

  /** The hub event an admission leads to: a registration, or nothing. */
  function Connect(s: HubState, a: Gateway.Admission): (r: StepResult)
    ensures !a.Admitted? ==> r == Stepped(s)
  {
    match Gateway.Registration(a)
    case None => Stepped(s)
    case Some(e) => Step(s, e)
  }

  /**
   * A rejected caller never reaches the hub; an admitted one becomes the
   * current session of the validated username, and the hub stays sound.
   */
  lemma AdmissionRegisters(s: HubState, query: string, header: string, validate: string -> Result<string, string>, upgraded: bool, id: nat)
    requires Sound(s)
    requires Client(id, validate(Gateway.SelectToken(query, header)).GetOr("")) !in s.queues
    ensures var a := Gateway.HandleConnections(query, header, validate, upgraded, id); var r := Connect(s, a);
      && r.Stepped? && Sound(r.hub)
      && (a.Admitted? ==> r.hub.clients == s.clients[a.client.username := a.client] && a.client.username == validate(Gateway.SelectToken(query, header)).value)
      && (!a.Admitted? ==> r.hub == s)
  {
    var a := Gateway.HandleConnections(query, header, validate, upgraded, id);
    if a.Admitted? {
      StepPreservesSound(s, Register(a.client));
      RegisterInstalls(s, a.client);
    }
  }

  /** What the hub does with one frame read by `sender`'s read pump. */
  function HandleFrame(s: HubState, sender: Client, f: Frame): (r: StepResult)
    ensures Normalize(sender.username, f).None? ==> r == Stepped(s)
    ensures Valid(s) ==> r.Stepped?
  {
    match Normalize(sender.username, f)
    case None => Stepped(s)
    case Some(m) => Step(s, Forward(m))
  }

  /**
   * A frame accepted from session `a` and addressed to a registered user
   * with room in their channel arrives at the back of that user's channel,
   * with the frame's recipient and content, and with `a`'s username as
   * sender whatever the frame claimed. Nothing else changes.
   */
  lemma FrameReachesRecipient(s: HubState, a: Client, f: Frame)
    requires Valid(s) && Normalize(a.username, f).Some?
    requires f.recipient in s.clients && |s.queues[s.clients[f.recipient]].items| < SendCapacity
    ensures var r := HandleFrame(s, a, f); var b := s.clients[f.recipient];
      && r.Stepped? && r.hub.clients == s.clients
      && |r.hub.queues[b].items| == |s.queues[b].items| + 1
      && r.hub.queues[b].items[..|s.queues[b].items|] == s.queues[b].items
      && var m := r.hub.queues[b].items[|s.queues[b].items|];
        m.sender == a.username && m.recipient == f.recipient && Some(m) == Normalize(a.username, f)
  {
    ForwardEnqueues(s, Normalize(a.username, f).value);
  }

  /**
   * Forwarding is the same in hub.go as written and in the corrected hub,
   * so what `FrameReachesRecipient` and `FrameToAbsentDropped` say about a
   * frame holds for the program as written too.
   */
  lemma FrameAsWritten(s: HubState, a: Client, f: Frame)
    requires Normalize(a.username, f).Some?
    ensures HandleFrame(s, a, f) == HubFindings.StepAsWritten(s, Forward(Normalize(a.username, f).value))
  {
  }

  /** A frame addressed to a user nobody is connected as changes nothing and raises nothing. */
  lemma FrameToAbsentDropped(s: HubState, a: Client, f: Frame)
    requires f.Incoming? && f.recipient !in s.clients
    ensures HandleFrame(s, a, f) == Stepped(s)
  {
  }

  const AliceToken := "token-for-alice"
  const BobToken := "token-for-bob"
  const Alice := Client(1, "alice")
  const Bob := Client(2, "bob")

  /** Alice connected alone. */
  const AliceOnline := HubState(map["alice" := Alice], map[Alice := FreshQueue])

  /** Alice and Bob connected, nothing sent yet. */
  const BothOnline := HubState(map["alice" := Alice, "bob" := Bob], map[Alice := FreshQueue, Bob := FreshQueue])

  /** Alice presents her token as a query parameter, Bob his in the header; both are admitted. */
  lemma BothAdmitted(validate: string -> Result<string, string>)
    requires validate(AliceToken) == Success("alice") && validate(BobToken) == Success("bob")
    ensures Gateway.HandleConnections(AliceToken, "", validate, true, 1) == Gateway.Admitted(Alice)
    ensures Gateway.HandleConnections("", "Bearer " + BobToken, validate, true, 2) == Gateway.Admitted(Bob)
  {
    Gateway.BearerTokenIff("Bearer " + BobToken, BobToken);
  }

  /** Alice then Bob register with an empty hub. */
  lemma BothConnect()
    ensures Connect(Init, Gateway.Admitted(Alice)) == Stepped(AliceOnline)
    ensures Connect(AliceOnline, Gateway.Admitted(Bob)) == Stepped(BothOnline)
  {
    assert Step(Init, Register(Alice)) == Stepped(AliceOnline);
    assert Step(AliceOnline, Register(Bob)) == Stepped(BothOnline);
  }

  /** The routed form of Alice's frame claiming to come from Mallory. */
  lemma AliceFrameNormalized()
    ensures Normalize("alice", Incoming("bob", "mallory", Text("hi"))) == Some(Message("bob", "alice", Utf8("hi")))
  {
  }

  /** Alice's frame lands in Bob's channel, stamped with her name. */
  lemma BobReceives()
    ensures HandleFrame(BothOnline, Alice, Incoming("bob", "mallory", Text("hi"))) ==
      Stepped(BothOnline.(queues := BothOnline.queues[Bob := Queue([Message("bob", "alice", Utf8("hi"))], false)]))
  {
    AliceFrameNormalized();
    var m := Message("bob", "alice", Utf8("hi"));
    ForwardEnqueues(BothOnline, m);
    var t := Step(BothOnline, Forward(m)).hub;
    assert BothOnline.clients[m.recipient] == Bob;
    assert FreshQueue.items + [m] == [m];
    assert t.queues == BothOnline.queues[Bob := Queue([m], false)];
  }

  /**
   * Alice and Bob connect with valid tokens; Alice's read pump decodes
   * {recipient: "bob", sender: "mallory", content: "hi"}. Bob's channel then
   * holds exactly one message, from "alice" (not "mallory"), with content
   * "hi"; Alice's channel is still empty.
   */
  lemma AliceMessagesBob(validate: string -> Result<string, string>)
    requires validate(AliceToken) == Success("alice") && validate(BobToken) == Success("bob")
    ensures var alice := Gateway.HandleConnections(AliceToken, "", validate, true, 1);
      var bob := Gateway.HandleConnections("", "Bearer " + BobToken, validate, true, 2);
      && alice == Gateway.Admitted(Client(1, "alice"))
      && bob == Gateway.Admitted(Client(2, "bob"))
      && var s1 := Connect(Init, alice);
      && s1.Stepped?
      && var s2 := Connect(s1.hub, bob);
      && s2.Stepped?
      && var s3 := HandleFrame(s2.hub, Client(1, "alice"), Incoming("bob", "mallory", Text("hi")));
      && s3.Stepped?
      && s3.hub.queues[Client(2, "bob")].items == [Message("bob", "alice", Utf8("hi"))]
      && s3.hub.queues[Client(1, "alice")].items == []
  {
    BothAdmitted(validate);
    BothConnect();
    BobReceives();
  }

  /**
   * The same scenario under hub.go as written: it only registers users
   * nobody holds yet, so registration's missing close never comes into
   * play, and Bob's channel ends up with exactly Alice's message.
   */
  lemma AliceMessagesBobAsWritten()
    ensures var m := Message("bob", "alice", Utf8("hi"));
      Run(HubFindings.StepAsWritten, Init, [Register(Alice), Register(Bob), Forward(m)]) ==
      Stepped(BothOnline.(queues := BothOnline.queues[Bob := Queue([m], false)]))
  {
    var m := Message("bob", "alice", Utf8("hi"));
    var events := [Register(Alice), Register(Bob), Forward(m)];
    assert events[1..] == [Register(Bob), Forward(m)];
    assert events[1..][1..] == [Forward(m)];
    assert events[1..][1..][1..] == [];
    assert HubFindings.StepAsWritten(Init, Register(Alice)) == Stepped(AliceOnline);
    assert HubFindings.StepAsWritten(AliceOnline, Register(Bob)) == Stepped(BothOnline);
    BobReceives();
    AliceFrameNormalized();
    FrameAsWritten(BothOnline, Alice, Incoming("bob", "mallory", Text("hi")));
    var t := BothOnline.(queues := BothOnline.queues[Bob := Queue([m], false)]);
    assert HubFindings.StepAsWritten(BothOnline, Forward(m)) == Stepped(t);
    assert Run(HubFindings.StepAsWritten, BothOnline, [Forward(m)]) == Stepped(t);
    assert Run(HubFindings.StepAsWritten, AliceOnline, events[1..]) == Stepped(t);
  }

  /** Only Alice is connected; a message for Bob is dropped without any change or error. */
  lemma MessageToOfflineUser(validate: string -> Result<string, string>)
    requires validate(AliceToken) == Success("alice")
    ensures var s1 := Connect(Init, Gateway.HandleConnections(AliceToken, "", validate, true, 1));
      && s1.Stepped?
      && HandleFrame(s1.hub, Client(1, "alice"), Incoming("bob", "alice", Text("hi"))) == s1
  {
    BothConnect();
  }
}
