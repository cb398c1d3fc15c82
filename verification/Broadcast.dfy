/** The broadcaster: three maps, one Redis connection and one listener per client. */
module Broadcast {
  import opened Domain

  type ClientId = nat
  type ChannelId = nat

  datatype Event = Event(auction: AuctionId, data: nat)

  /** A Go channel of events. */
  datatype Channel = Channel(capacity: nat, buffer: seq<Event>, closed: bool)
  {
    predicate Full() { |buffer| >= capacity }
  }

  /** A Redis connection and the listener that forwards what arrives on it to `target`. */
  datatype PubSub = PubSub(topics: set<AuctionId>, inbox: seq<Event>, target: ChannelId)

  datatype State = State(
    subscribers: map<ClientId, ChannelId>,
    pubsubs: map<ClientId, PubSub>,
    clientsToAuction: map<ClientId, map<AuctionId, bool>>,
    channels: map<ChannelId, Channel>)

  const INIT := State(map[], map[], map[], map[])

  /** `ok` is whether Redis carries out the command. */
  datatype Action =
    | MakeChannel(ch: ChannelId, capacity: nat)
    | Subscribe(c: ClientId, a: AuctionId, ch: ChannelId, ok: bool)
    | Unsubscribe(c: ClientId, a: AuctionId, ok: bool)
    | Publish(e: Event, ok: bool)
    | Listen(c: ClientId)
    | Receive(ch: ChannelId)

  /** `IsSubscribed`. */
  predicate Subscribed(s: State, c: ClientId, a: AuctionId) {
    c in s.clientsToAuction && a in s.clientsToAuction[c] && s.clientsToAuction[c][a]
  }

  /** A first subscription brings an open channel that serves nobody else. */
  predicate Usable(s: State, ch: ChannelId) {
    ch in s.channels && !s.channels[ch].closed && forall c <- s.subscribers :: s.subscribers[c] != ch
  }

  predicate Legal(s: State, act: Action) {
    match act
    case MakeChannel(ch, capacity) => ch !in s.channels && capacity > 0
    case Subscribe(c, _, ch, _) => c !in s.subscribers ==> Usable(s, ch)
    case _ => true
  }

  function DoSubscribe(s: State, c: ClientId, a: AuctionId, ch: ChannelId, ok: bool): State {
    if Subscribed(s, c, a) then s
    else
      var known := if c in s.clientsToAuction then s.clientsToAuction[c] else map[];
      var pubsub := if c in s.pubsubs then s.pubsubs[c] else PubSub({}, [], ch);
      s.(subscribers := if c in s.subscribers then s.subscribers else s.subscribers[c := ch],
         clientsToAuction := s.clientsToAuction[c := known[a := true]],
         pubsubs := s.pubsubs[c := pubsub.(topics := pubsub.topics + if ok then {a} else {})])
  }

  function CloseChannel(channels: map<ChannelId, Channel>, ch: ChannelId): map<ChannelId, Channel> {
    if ch in channels then channels[ch := channels[ch].(closed := true)] else channels
  }

  function DoUnsubscribe(s: State, c: ClientId, a: AuctionId, ok: bool): State {
    if c !in s.clientsToAuction then s
    else
      var rest := s.clientsToAuction[c] - {a};
      if |rest| == 0 then
        s.(clientsToAuction := s.clientsToAuction - {c},
           channels := if c in s.subscribers then CloseChannel(s.channels, s.subscribers[c]) else s.channels,
           subscribers := s.subscribers - {c},
           pubsubs := s.pubsubs - {c})
      else
        s.(clientsToAuction := s.clientsToAuction[c := rest],
           pubsubs :=
             if c in s.pubsubs && ok then
               s.pubsubs[c := s.pubsubs[c].(topics := s.pubsubs[c].topics - {a})]
             else s.pubsubs)
  }

  /** Redis hands an event to every connection subscribed to its auction. */
  function Forward(p: PubSub, e: Event): PubSub {
    if e.auction in p.topics then p.(inbox := p.inbox + [e]) else p
  }

  function DoListen(s: State, c: ClientId): State
    requires c in s.pubsubs && s.pubsubs[c].inbox != []
  {
    var p := s.pubsubs[c];
    var t := s.(pubsubs := s.pubsubs[c := p.(inbox := p.inbox[1..])]);
    if p.target in s.channels && !s.channels[p.target].closed && !s.channels[p.target].Full() then
      var ch := s.channels[p.target];
      t.(channels := s.channels[p.target := ch.(buffer := ch.buffer + [p.inbox[0]])])
    else t // dropped
  }

  function Apply(s: State, act: Action): State {
    match act
    case MakeChannel(ch, capacity) => s.(channels := s.channels[ch := Channel(capacity, [], false)])
    case Subscribe(c, a, ch, ok) => DoSubscribe(s, c, a, ch, ok)
    case Unsubscribe(c, a, ok) => DoUnsubscribe(s, c, a, ok)
    case Publish(e, ok) =>
      if ok then s.(pubsubs := map c | c in s.pubsubs :: Forward(s.pubsubs[c], e)) else s
    case Listen(c) => if c in s.pubsubs && s.pubsubs[c].inbox != [] then DoListen(s, c) else s
    case Receive(ch) =>
      if ch in s.channels && s.channels[ch].buffer != [] then
        s.(channels := s.channels[ch := s.channels[ch].(buffer := s.channels[ch].buffer[1..])])
      else s
  }

  function Run(s: State, acts: seq<Action>): State {
    if acts == [] then s else Apply(Run(s, acts[..|acts| - 1]), acts[|acts| - 1])
  }

  predicate LegalRun(s: State, acts: seq<Action>) {
    acts == []
    || (LegalRun(s, acts[..|acts| - 1]) && Legal(Run(s, acts[..|acts| - 1]), acts[|acts| - 1]))
  }

  // ---------------------------------------------------------------- the registry

  predicate AllTrue(known: map<AuctionId, bool>) { forall b <- known :: known[b] }

  predicate ClientOk(s: State, c: ClientId)
    requires c in s.subscribers
  {
    && c in s.clientsToAuction && |s.clientsToAuction[c]| > 0
    && AllTrue(s.clientsToAuction[c])
    && c in s.pubsubs && s.pubsubs[c].target == s.subscribers[c]
    && s.subscribers[c] in s.channels && !s.channels[s.subscribers[c]].closed
  }

  predicate ChannelOk(s: State, ch: ChannelId)
    requires ch in s.channels
  {
    |s.channels[ch].buffer| <= s.channels[ch].capacity && (Usable(s, ch) ==> s.channels[ch].buffer == [])
  }

  predicate OneClientPerChannel(subscribers: map<ClientId, ChannelId>) {
    forall c, d | c in subscribers && d in subscribers && c != d :: subscribers[c] != subscribers[d]
  }

  predicate SameKeys(s: State) {
    s.clientsToAuction.Keys == s.subscribers.Keys && s.pubsubs.Keys == s.subscribers.Keys
  }

  predicate Inv(s: State) {
    && SameKeys(s)
    && (forall c <- s.subscribers :: ClientOk(s, c))
    && OneClientPerChannel(s.subscribers)
    && (forall ch <- s.channels :: ChannelOk(s, ch))
  }

  /** Channels keep their invariant if those that serve a client go on doing so. */
  lemma ChannelsStay(s: State, t: State)
    requires forall ch <- s.channels :: ChannelOk(s, ch)
    requires t.channels == s.channels
    requires forall c <- s.subscribers :: c in t.subscribers && t.subscribers[c] == s.subscribers[c]
    ensures forall ch <- t.channels :: ChannelOk(t, ch)
  {
    forall ch <- t.channels ensures ChannelOk(t, ch) {
      assert ChannelOk(s, ch);
      if Usable(t, ch) {
        forall d <- s.subscribers ensures s.subscribers[d] != ch { assert t.subscribers[d] == s.subscribers[d]; }
      }
    }
  }

  lemma ClientStays(s: State, t: State, d: ClientId)
    requires d in s.subscribers && ClientOk(s, d)
    requires d in t.subscribers && t.subscribers[d] == s.subscribers[d]
    requires d in t.clientsToAuction && t.clientsToAuction[d] == s.clientsToAuction[d]
    requires d in t.pubsubs && t.pubsubs[d].target == s.pubsubs[d].target
    requires var ch := s.subscribers[d]; ch in t.channels && t.channels[ch].closed == s.channels[ch].closed
    ensures ClientOk(t, d)
  {
  }

  lemma SubscribedClient(s: State, c: ClientId, a: AuctionId, ch: ChannelId, ok: bool)
    requires Inv(s) && Legal(s, Subscribe(c, a, ch, ok)) && !Subscribed(s, c, a)
    ensures var t := DoSubscribe(s, c, a, ch, ok); c in t.subscribers && ClientOk(t, c)
  {
    assert c in s.subscribers ==> ClientOk(s, c);
    var known := if c in s.clientsToAuction then s.clientsToAuction[c] else map[];
    OneMore(known, a);
    assert DoSubscribe(s, c, a, ch, ok).clientsToAuction[c] == known[a := true];
  }

  lemma OneMore(known: map<AuctionId, bool>, a: AuctionId)
    requires AllTrue(known)
    ensures |known[a := true]| > 0 && AllTrue(known[a := true])
  {
    assert a in known[a := true].Keys;
  }

  lemma SubscribeKeys(s: State, c: ClientId, a: AuctionId, ch: ChannelId, ok: bool)
    requires Inv(s) && Legal(s, Subscribe(c, a, ch, ok)) && !Subscribed(s, c, a)
    ensures SameKeys(DoSubscribe(s, c, a, ch, ok)) && OneClientPerChannel(DoSubscribe(s, c, a, ch, ok).subscribers)
  {
  }

  lemma SubscribeStep(s: State, c: ClientId, a: AuctionId, ch: ChannelId, ok: bool)
    requires Inv(s) && Legal(s, Subscribe(c, a, ch, ok))
    ensures Inv(DoSubscribe(s, c, a, ch, ok))
  {
    if !Subscribed(s, c, a) {
      SubscribeKeys(s, c, a, ch, ok);
      SubscribeClients(s, c, a, ch, ok);
      ChannelsStay(s, DoSubscribe(s, c, a, ch, ok));
    }
  }

  lemma SubscribeClients(s: State, c: ClientId, a: AuctionId, ch: ChannelId, ok: bool)
    requires Inv(s) && Legal(s, Subscribe(c, a, ch, ok)) && !Subscribed(s, c, a)
    ensures var t := DoSubscribe(s, c, a, ch, ok); forall d <- t.subscribers :: ClientOk(t, d)
  {
    var t := DoSubscribe(s, c, a, ch, ok);
    SubscribedClient(s, c, a, ch, ok);
    forall d <- t.subscribers ensures ClientOk(t, d) { if d != c { ClientStays(s, t, d); } }
  }

  lemma LastUnsubscribeMaps(s: State, c: ClientId, a: AuctionId, ok: bool)
    requires Inv(s) && c in s.clientsToAuction && |s.clientsToAuction[c] - {a}| == 0
    ensures var t := DoUnsubscribe(s, c, a, ok);
            && SameKeys(t) && t.subscribers.Keys == s.subscribers.Keys - {c}
            && t.clientsToAuction == s.clientsToAuction - {c} && t.pubsubs == s.pubsubs - {c}
            && t.subscribers == s.subscribers - {c}
            && s.subscribers[c] in s.channels
            && t.channels == s.channels[s.subscribers[c] := s.channels[s.subscribers[c]].(closed := true)]
  {
    assert ClientOk(s, c);
  }

  lemma LastUnsubscribeClients(s: State, t: State, c: ClientId)
    requires Inv(s) && c in s.subscribers
    requires t.clientsToAuction == s.clientsToAuction - {c} && t.pubsubs == s.pubsubs - {c}
    requires t.subscribers == s.subscribers - {c}
    requires forall ch <- s.channels | ch != s.subscribers[c] :: ch in t.channels && t.channels[ch] == s.channels[ch]
    ensures forall d <- t.subscribers :: ClientOk(t, d)
  {
    forall d <- t.subscribers ensures ClientOk(t, d) {
      assert ClientOk(s, d) && s.subscribers[d] != s.subscribers[c];
      ClientStays(s, t, d);
    }
  }

  /** The channel of a client that leaves is closed, so nobody can be given it again. */
  lemma LastUnsubscribeChannels(s: State, c: ClientId, a: AuctionId, ok: bool)
    requires Inv(s) && c in s.clientsToAuction && |s.clientsToAuction[c] - {a}| == 0
    ensures var t := DoUnsubscribe(s, c, a, ok);
            OneClientPerChannel(t.subscribers) && forall ch <- t.channels :: ChannelOk(t, ch)
  {
    LastUnsubscribeMaps(s, c, a, ok);
    ChannelsAfterLeaving(s, DoUnsubscribe(s, c, a, ok), c);
  }

  lemma ChannelsAfterLeaving(s: State, t: State, c: ClientId)
    requires OneClientPerChannel(s.subscribers) && forall ch <- s.channels :: ChannelOk(s, ch)
    requires c in s.subscribers && s.subscribers[c] in s.channels && t.subscribers == s.subscribers - {c}
    requires t.channels == s.channels[s.subscribers[c] := s.channels[s.subscribers[c]].(closed := true)]
    ensures OneClientPerChannel(t.subscribers) && forall ch <- t.channels :: ChannelOk(t, ch)
  {
    forall x <- t.channels ensures ChannelOk(t, x) {
      assert ChannelOk(s, x);
      if Usable(t, x) {
        forall d <- s.subscribers ensures s.subscribers[d] != x {
          if d != c { assert t.subscribers[d] == s.subscribers[d]; }
        }
      }
    }
  }

  lemma UnsubscribeMaps(s: State, c: ClientId, a: AuctionId, ok: bool)
    requires Inv(s) && c in s.clientsToAuction && |s.clientsToAuction[c] - {a}| > 0
    ensures var t := DoUnsubscribe(s, c, a, ok);
            && SameKeys(t) && t.subscribers == s.subscribers && t.channels == s.channels
            && ClientOk(t, c) && t.pubsubs[c].inbox == s.pubsubs[c].inbox
            && forall d <- t.subscribers | d != c ::
                 t.clientsToAuction[d] == s.clientsToAuction[d] && t.pubsubs[d] == s.pubsubs[d]
  {
    assert ClientOk(s, c);
    TopicsAfterUnsubscribe(s, c, a, ok);
    assert AllTrue(s.clientsToAuction[c] - {a});
  }

  lemma TopicsAfterUnsubscribe(s: State, d: ClientId, b: AuctionId, ok: bool)
    requires Inv(s) && d in s.clientsToAuction && |s.clientsToAuction[d] - {b}| > 0
    ensures var t := DoUnsubscribe(s, d, b, ok);
            && t.subscribers == s.subscribers && t.channels == s.channels && d in s.pubsubs
            && t.clientsToAuction == s.clientsToAuction[d := s.clientsToAuction[d] - {b}]
            && t.pubsubs == if ok then s.pubsubs[d := s.pubsubs[d].(topics := s.pubsubs[d].topics - {b})] else s.pubsubs
  {
  }

  lemma UnsubscribeClients(s: State, c: ClientId, a: AuctionId, ok: bool)
    requires Inv(s) && c in s.clientsToAuction && |s.clientsToAuction[c] - {a}| > 0
    ensures var t := DoUnsubscribe(s, c, a, ok); SameKeys(t) && forall d <- t.subscribers :: ClientOk(t, d)
  {
    UnsubscribeMaps(s, c, a, ok);
    var t := DoUnsubscribe(s, c, a, ok);
    forall d <- t.subscribers ensures ClientOk(t, d) {
      if d != c {
        assert ClientOk(s, d);
        ClientStays(s, t, d);
      }
    }
  }

  lemma UnsubscribeStep(s: State, c: ClientId, a: AuctionId, ok: bool)
    requires Inv(s)
    ensures Inv(DoUnsubscribe(s, c, a, ok))
  {
    if c in s.clientsToAuction {
      if |s.clientsToAuction[c] - {a}| == 0 {
        LastUnsubscribeMaps(s, c, a, ok);
        LastUnsubscribeClients(s, DoUnsubscribe(s, c, a, ok), c);
        LastUnsubscribeChannels(s, c, a, ok);
      } else {
        UnsubscribeClients(s, c, a, ok);
        ChannelsStay(s, DoUnsubscribe(s, c, a, ok));
      }
    }
  }

  /** When only buffers change, clients and free channels stay what they are. */
  lemma BuffersOnly(s: State, t: State)
    requires Inv(s)
    requires t.subscribers == s.subscribers && t.clientsToAuction == s.clientsToAuction && SameKeys(t)
    requires forall c <- s.pubsubs :: t.pubsubs[c].target == s.pubsubs[c].target
    requires t.channels.Keys == s.channels.Keys
    requires forall ch <- s.channels :: t.channels[ch].closed == s.channels[ch].closed
    requires forall ch <- s.channels | t.channels[ch] != s.channels[ch] ::
               |t.channels[ch].buffer| <= t.channels[ch].capacity && !(Usable(s, ch) && t.channels[ch].buffer != [])
    ensures Inv(t)
  {
    forall d <- t.subscribers ensures ClientOk(t, d) { assert ClientOk(s, d); ClientStays(s, t, d); }
    forall ch <- t.channels ensures ChannelOk(t, ch) { assert ChannelOk(s, ch); }
  }

  lemma ListenStep(s: State, c: ClientId)
    requires Inv(s) && c in s.pubsubs && s.pubsubs[c].inbox != []
    ensures Inv(DoListen(s, c))
  {
    assert ClientOk(s, c);
    assert !Usable(s, s.pubsubs[c].target);
    ListenShape(s, c);
    BuffersOnly(s, DoListen(s, c));
  }

  /** Only one connection and one buffer change, and the buffer stays within its capacity. */
  lemma ListenShape(s: State, c: ClientId)
    requires c in s.pubsubs && s.pubsubs[c].inbox != []
    ensures var t := DoListen(s, c); var target := s.pubsubs[c].target;
            && t.subscribers == s.subscribers && t.clientsToAuction == s.clientsToAuction
            && t.pubsubs == s.pubsubs[c := s.pubsubs[c].(inbox := s.pubsubs[c].inbox[1..])]
            && t.channels.Keys == s.channels.Keys
            && (forall ch <- s.channels | ch != target :: t.channels[ch] == s.channels[ch])
            && (target in s.channels ==>
                  && t.channels[target].closed == s.channels[target].closed
                  && (t.channels[target] != s.channels[target] ==>
                        |t.channels[target].buffer| <= t.channels[target].capacity))
  {
  }

  lemma PublishStep(s: State, e: Event, ok: bool)
    requires Inv(s)
    ensures Inv(Apply(s, Publish(e, ok)))
  {
    BuffersOnly(s, Apply(s, Publish(e, ok)));
  }

  lemma MakeChannelStep(s: State, ch: ChannelId, capacity: nat)
    requires Inv(s) && ch !in s.channels
    ensures Inv(Apply(s, MakeChannel(ch, capacity)))
  {
    var t := Apply(s, MakeChannel(ch, capacity));
    forall d <- t.subscribers ensures ClientOk(t, d) { assert ClientOk(s, d); ClientStays(s, t, d); }
    forall x <- t.channels ensures ChannelOk(t, x) {
      if x in s.channels { assert ChannelOk(s, x); assert Usable(t, x) ==> Usable(s, x); }
    }
  }

  lemma ReceiveStep(s: State, ch: ChannelId)
    requires Inv(s)
    ensures Inv(Apply(s, Receive(ch)))
  {
    if ch in s.channels { assert ChannelOk(s, ch); }
    BuffersOnly(s, Apply(s, Receive(ch)));
  }

  lemma StepKeepsInv(s: State, act: Action)
    requires Inv(s) && Legal(s, act)
    ensures Inv(Apply(s, act))
  {
    match act
    case Subscribe(c, a, ch, ok) => SubscribeStep(s, c, a, ch, ok);
    case Unsubscribe(c, a, ok) => UnsubscribeStep(s, c, a, ok);
    case Publish(e, ok) => PublishStep(s, e, ok);
    case Listen(c) => if c in s.pubsubs && s.pubsubs[c].inbox != [] { ListenStep(s, c); }
    case MakeChannel(ch, capacity) => MakeChannelStep(s, ch, capacity);
    case Receive(ch) => ReceiveStep(s, ch);
  }

  lemma {:induction false} RunKeepsInv(acts: seq<Action>)
    requires LegalRun(INIT, acts)
    ensures Inv(Run(INIT, acts))
  {
    if acts != [] {
      RunKeepsInv(acts[..|acts| - 1]);
      StepKeepsInv(Run(INIT, acts[..|acts| - 1]), acts[|acts| - 1]);
    }
  }

  /** The specification: a set of pairs that subscriptions add to and unsubscriptions take from. */
  predicate LastWasSubscribe(acts: seq<Action>, c: ClientId, a: AuctionId) {
    if acts == [] then false
    else
      match acts[|acts| - 1]
      case Subscribe(d, b, _, _) => (c == d && a == b) || LastWasSubscribe(acts[..|acts| - 1], c, a)
      case Unsubscribe(d, b, _) => !(c == d && a == b) && LastWasSubscribe(acts[..|acts| - 1], c, a)
      case _ => LastWasSubscribe(acts[..|acts| - 1], c, a)
  }

  lemma UnsubscribedPairs(s: State, d: ClientId, b: AuctionId, ok: bool, c: ClientId, a: AuctionId)
    requires Inv(s)
    ensures Subscribed(DoUnsubscribe(s, d, b, ok), c, a) <==> !(c == d && a == b) && Subscribed(s, c, a)
  {
    if d in s.clientsToAuction {
      var rest := s.clientsToAuction[d] - {b};
      assert a in rest <==> a in s.clientsToAuction[d] && a != b;
    }
  }

  lemma SubscribedPairs(s: State, d: ClientId, b: AuctionId, ch: ChannelId, ok: bool, c: ClientId, a: AuctionId)
    requires Inv(s)
    ensures Subscribed(DoSubscribe(s, d, b, ch, ok), c, a) <==> (c == d && a == b) || Subscribed(s, c, a)
  {
    if d in s.subscribers { assert ClientOk(s, d); }
  }

  lemma DeliveryKeepsPairs(s: State, act: Action)
    requires !act.Subscribe? && !act.Unsubscribe?
    ensures Apply(s, act).clientsToAuction == s.clientsToAuction
  {
  }

  lemma PairsStep(s: State, act: Action, c: ClientId, a: AuctionId)
    requires Inv(s)
    ensures Subscribed(Apply(s, act), c, a) <==>
              match act
              case Subscribe(d, b, _, _) => (c == d && a == b) || Subscribed(s, c, a)
              case Unsubscribe(d, b, _) => !(c == d && a == b) && Subscribed(s, c, a)
              case _ => Subscribed(s, c, a)
  {
    match act
    case Unsubscribe(d, b, ok) => UnsubscribedPairs(s, d, b, ok, c, a);
    case Subscribe(d, b, ch, ok) => SubscribedPairs(s, d, b, ch, ok, c, a);
    case _ => DeliveryKeepsPairs(s, act);
  }

  /** The three maps together are that set, and stay in step with one another. */
  lemma {:induction false} RegistryIsASetOfPairs(acts: seq<Action>, c: ClientId, a: AuctionId)
    requires LegalRun(INIT, acts)
    ensures var s := Run(INIT, acts);
            && (Subscribed(s, c, a) <==> LastWasSubscribe(acts, c, a))
            && (c in s.subscribers <==> exists b :: Subscribed(s, c, b))
            && (c in s.subscribers <==> c in s.pubsubs) && (c in s.subscribers <==> c in s.clientsToAuction)
            && (c in s.subscribers ==> s.pubsubs[c].target == s.subscribers[c])
  {
    var s := Run(INIT, acts);
    RunKeepsInv(acts);
    if c in s.subscribers {
      assert ClientOk(s, c);
      var b :| b in s.clientsToAuction[c];
      assert Subscribed(s, c, b);
    }
    if acts != [] {
      RegistryIsASetOfPairs(acts[..|acts| - 1], c, a);
      RunKeepsInv(acts[..|acts| - 1]);
      PairsStep(Run(INIT, acts[..|acts| - 1]), acts[|acts| - 1], c, a);
    }
  }

  // ---------------------------------------------------------------- what Redis sends

  /** Redis sends events of `a` to client `c`. */
  predicate Hears(s: State, c: ClientId, a: AuctionId) { c in s.pubsubs && a in s.pubsubs[c].topics }

  lemma HearsAfterSubscribe(s: State, d: ClientId, b: AuctionId, ch: ChannelId, ok: bool, c: ClientId, a: AuctionId)
    requires Inv(s)
    ensures Hears(DoSubscribe(s, d, b, ch, ok), c, a)
            <==> Hears(s, c, a) || (c == d && a == b && ok && !Subscribed(s, d, b))
  {
  }

  lemma HearsAfterUnsubscribe(s: State, d: ClientId, b: AuctionId, ok: bool, c: ClientId, a: AuctionId)
    requires Inv(s)
    ensures var t := DoUnsubscribe(s, d, b, ok);
            Hears(t, c, a) <==> Hears(s, c, a) && (c == d ==> c in t.subscribers && !(a == b && ok))
  {
    var t := DoUnsubscribe(s, d, b, ok);
    if d !in s.clientsToAuction {
      assert t == s;
    } else if |s.clientsToAuction[d] - {b}| == 0 {
      LastUnsubscribeMaps(s, d, b, ok);
      HearsNobodyLeft(s, t, d, c, a);
    } else {
      TopicsAfterUnsubscribe(s, d, b, ok);
      HearsFewer(s, t, d, b, ok, c, a);
    }
  }

  lemma HearsNobodyLeft(s: State, t: State, d: ClientId, c: ClientId, a: AuctionId)
    requires t.pubsubs == s.pubsubs - {d}
    ensures Hears(t, c, a) <==> Hears(s, c, a) && c != d
  {
  }

  lemma HearsFewer(s: State, t: State, d: ClientId, b: AuctionId, ok: bool, c: ClientId, a: AuctionId)
    requires SameKeys(s) && d in s.pubsubs && t.subscribers == s.subscribers
    requires t.pubsubs == if ok then s.pubsubs[d := s.pubsubs[d].(topics := s.pubsubs[d].topics - {b})] else s.pubsubs
    ensures Hears(t, c, a) <==> Hears(s, c, a) && (c == d ==> c in t.subscribers && !(a == b && ok))
  {
  }

  lemma HearsOtherwise(s: State, act: Action, c: ClientId, a: AuctionId)
    requires !act.Subscribe? && !act.Unsubscribe?
    ensures Hears(Apply(s, act), c, a) <==> Hears(s, c, a)
  {
  }

  /** The last operation on some pair of client `c` was a subscribe. */
  ghost predicate HasSubscription(acts: seq<Action>, c: ClientId) {
    exists b :: LastWasSubscribe(acts, c, b)
  }

  /**
   The specification of what a client is sent, in terms of its own operations since it registered: a new
   subscription that Redis accepts begins it, an unsubscription that Redis accepts ends it, and so does
   giving up the last subscription, whatever Redis says.
   */
  ghost predicate IsSent(acts: seq<Action>, c: ClientId, a: AuctionId) {
    if acts == [] then false
    else
      var init := acts[..|acts| - 1];
      match acts[|acts| - 1]
      case Subscribe(d, b, _, ok) =>
        IsSent(init, c, a) || (c == d && a == b && ok && !LastWasSubscribe(init, c, a))
      case Unsubscribe(d, b, ok) =>
        IsSent(init, c, a) && (c == d ==> HasSubscription(acts, c) && !(a == b && ok))
      case _ => IsSent(init, c, a)
  }

  lemma RegisteredIff(acts: seq<Action>, c: ClientId)
    requires LegalRun(INIT, acts)
    ensures c in Run(INIT, acts).subscribers <==> HasSubscription(acts, c)
  {
    var s := Run(INIT, acts);
    forall b ensures Subscribed(s, c, b) <==> LastWasSubscribe(acts, c, b) { RegistryIsASetOfPairs(acts, c, b); }
    RegistryIsASetOfPairs(acts, c, 0);
  }

  /** In every run, whatever errors Redis returned to whomever, it sends a client what these operations say. */
  lemma {:induction false} HearsIff(acts: seq<Action>, c: ClientId, a: AuctionId)
    requires LegalRun(INIT, acts)
    ensures Hears(Run(INIT, acts), c, a) <==> IsSent(acts, c, a)
  {
    if acts != [] {
      var init := acts[..|acts| - 1];
      var s := Run(INIT, init);
      HearsIff(init, c, a);
      RunKeepsInv(init);
      RegistryIsASetOfPairs(init, c, a);
      match acts[|acts| - 1]
      case Subscribe(d, b, ch, ok) => HearsAfterSubscribe(s, d, b, ch, ok, c, a);
      case Unsubscribe(d, b, ok) =>
        HearsAfterUnsubscribe(s, d, b, ok, c, a);
        RegisteredIff(acts, c);
      case _ => HearsOtherwise(s, acts[|acts| - 1], c, a);
    }
  }

  // ---------------------------------------------------------------- Redis errors

  /** Redis refuses a subscription or unsubscription of client `c` that changes the registry. */
  predicate OwnFailure(s: State, act: Action, c: ClientId) {
    match act
    case Subscribe(d, a, _, ok) => d == c && !Subscribed(s, c, a) && !ok
    case Unsubscribe(d, a, ok) => d == c && Subscribed(s, c, a) && !ok
    case _ => false
  }

  /** Since client `c` last registered, Redis has refused none of its own operations. */
  predicate CleanSession(acts: seq<Action>, c: ClientId) {
    acts == []
    || c !in Run(INIT, acts).subscribers
    || (&& CleanSession(acts[..|acts| - 1], c)
        && !OwnFailure(Run(INIT, acts[..|acts| - 1]), acts[|acts| - 1], c))
  }

  /** Redis sends the client exactly what the registry says it is subscribed to. */
  ghost predicate Synced(s: State, c: ClientId) {
    forall a :: Hears(s, c, a) <==> Subscribed(s, c, a)
  }

  lemma SyncedStep(s: State, act: Action, c: ClientId)
    requires Inv(s) && Synced(s, c) && !OwnFailure(s, act, c)
    ensures Synced(Apply(s, act), c)
  {
    forall a ensures Hears(Apply(s, act), c, a) <==> Subscribed(Apply(s, act), c, a) {
      PairsStep(s, act, c, a);
      assert Hears(s, c, a) <==> Subscribed(s, c, a);
      match act
      case Subscribe(d, b, ch, ok) => HearsAfterSubscribe(s, d, b, ch, ok, c, a);
      case Unsubscribe(d, b, ok) => HearsWhileRegistered(s, d, b, ok, c, a);
      case _ => HearsOtherwise(s, act, c, a);
    }
  }

  lemma HearsWhileRegistered(s: State, d: ClientId, b: AuctionId, ok: bool, c: ClientId, a: AuctionId)
    requires Inv(s) && (Hears(s, c, a) <==> Subscribed(s, c, a))
    requires d == c ==> ok || !Subscribed(s, c, b)
    ensures Hears(DoUnsubscribe(s, d, b, ok), c, a) <==> Hears(s, c, a) && !(c == d && a == b)
  {
    HearsAfterUnsubscribe(s, d, b, ok, c, a);
    UnsubscribedPairs(s, d, b, ok, c, a);
    UnsubscribeStep(s, d, b, ok);
  }

  lemma NotRegistered(s: State, c: ClientId)
    requires Inv(s) && c !in s.subscribers
    ensures Synced(s, c)
  {
  }

  /** Errors that others meet do not matter: a clean session is in step with Redis. */
  lemma {:induction false} RunSynced(acts: seq<Action>, c: ClientId)
    requires LegalRun(INIT, acts) && CleanSession(acts, c)
    ensures Synced(Run(INIT, acts), c)
  {
    RunKeepsInv(acts);
    if c !in Run(INIT, acts).subscribers {
      NotRegistered(Run(INIT, acts), c);
    } else if acts != [] {
      RunSynced(acts[..|acts| - 1], c);
      RunKeepsInv(acts[..|acts| - 1]);
      SyncedStep(Run(INIT, acts[..|acts| - 1]), acts[|acts| - 1], c);
    }
  }

  predicate NeverUnsubscribed(acts: seq<Action>, c: ClientId, a: AuctionId) {
    forall act <- acts :: act.Unsubscribe? ==> !(act.c == c && act.a == a)
  }

  lemma HearingStep(s: State, act: Action, c: ClientId, a: AuctionId)
    requires Inv(s) && Subscribed(s, c, a) && NeverUnsubscribed([act], c, a)
    ensures Subscribed(Apply(s, act), c, a) && (Hears(Apply(s, act), c, a) <==> Hears(s, c, a))
  {
    PairsStep(s, act, c, a);
    assert act in [act];
    match act
    case Subscribe(d, b, ch, ok) => HearsAfterSubscribe(s, d, b, ch, ok, c, a);
    case Unsubscribe(d, b, ok) =>
      HearsAfterUnsubscribe(s, d, b, ok, c, a);
      UnsubscribeStep(s, d, b, ok);
    case _ => HearsOtherwise(s, act, c, a);
  }

  /** Until it is cancelled, a subscription stays heard or unheard, whatever else is asked for. */
  lemma {:induction false} HearingStays(s: State, acts: seq<Action>, c: ClientId, a: AuctionId)
    requires Inv(s) && LegalRun(s, acts) && Subscribed(s, c, a) && NeverUnsubscribed(acts, c, a)
    ensures var t := Run(s, acts); Inv(t) && Subscribed(t, c, a) && (Hears(t, c, a) <==> Hears(s, c, a))
  {
    if acts != [] {
      var init := acts[..|acts| - 1];
      HearingStays(s, init, c, a);
      StepKeepsInv(Run(s, init), acts[|acts| - 1]);
      HearingStep(Run(s, init), acts[|acts| - 1], c, a);
    }
  }

  /**
   A new subscription is heard, now and in every later state until it is cancelled, if and only if Redis
   accepted it or was already sending: subscribing again does not repair it.
   */
  lemma FailedSubscribeIsStuck(s: State, c: ClientId, a: AuctionId, ch: ChannelId, ok: bool, later: seq<Action>)
    requires Inv(s) && Legal(s, Subscribe(c, a, ch, ok)) && !Subscribed(s, c, a)
    requires LegalRun(Apply(s, Subscribe(c, a, ch, ok)), later) && NeverUnsubscribed(later, c, a)
    ensures var t := Run(Apply(s, Subscribe(c, a, ch, ok)), later);
            Subscribed(t, c, a) && (Hears(t, c, a) <==> ok || Hears(s, c, a))
  {
    StepKeepsInv(s, Subscribe(c, a, ch, ok));
    PairsStep(s, Subscribe(c, a, ch, ok), c, a);
    HearsAfterSubscribe(s, c, a, ch, ok, c, a);
    HearingStays(Apply(s, Subscribe(c, a, ch, ok)), later, c, a);
  }

  /** What `GetSubscribers` returns for any auction: every registered client. */
  function GetSubscribers(s: State, a: AuctionId): set<ClientId> { s.subscribers.Keys }

  /** It is the subscribers of `a`, as its interface says, exactly if everybody subscribed to anything is one. */
  lemma GetSubscribersIff(acts: seq<Action>, a: AuctionId)
    requires LegalRun(INIT, acts)
    ensures var s := Run(INIT, acts);
            (forall c :: c in GetSubscribers(s, a) <==> Subscribed(s, c, a))
            <==> forall c, b | Subscribed(s, c, b) :: Subscribed(s, c, a)
  {
    var s := Run(INIT, acts);
    RunKeepsInv(acts);
    forall c ensures c in s.subscribers <==> exists b :: Subscribed(s, c, b) { RegistryIsASetOfPairs(acts, c, a); }
  }
}
