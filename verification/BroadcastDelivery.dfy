/** What a subscribed client gets to see: a lossy channel that keeps the order. */
module BroadcastDelivery {
  import opened Domain
  import opened Broadcast

  // ---------------------------------------------------------------- order-preserving subsequences

  predicate IsSubseq(xs: seq<Event>, ys: seq<Event>) {
    if ys == [] then xs == []
    else
      || IsSubseq(xs, ys[..|ys| - 1])
      || (xs != [] && xs[|xs| - 1] == ys[|ys| - 1] && IsSubseq(xs[..|xs| - 1], ys[..|ys| - 1]))
  }

  lemma SubseqDrop(xs: seq<Event>, ys: seq<Event>, e: Event)
    requires IsSubseq(xs, ys)
    ensures IsSubseq(xs, ys + [e])
  {
    assert (ys + [e])[..|ys + [e]| - 1] == ys;
  }

  lemma SubseqKeep(xs: seq<Event>, ys: seq<Event>, e: Event)
    requires IsSubseq(xs, ys)
    ensures IsSubseq(xs + [e], ys + [e])
  {
    assert (ys + [e])[..|ys + [e]| - 1] == ys && (xs + [e])[..|xs + [e]| - 1] == xs;
  }

  lemma {:induction false} SubseqExtend(xs: seq<Event>, ys: seq<Event>, zs: seq<Event>)
    requires IsSubseq(xs, ys)
    ensures IsSubseq(xs, ys + zs)
  {
    if zs == [] {
      assert ys + zs == ys;
    } else {
      SubseqExtend(xs, ys, zs[..|zs| - 1]);
      SubseqDrop(xs, ys + zs[..|zs| - 1], zs[|zs| - 1]);
      assert ys + zs == ys + zs[..|zs| - 1] + [zs[|zs| - 1]];
    }
  }

  // ---------------------------------------------------------------- one client's session

  /**
   Of client `c` since it was last without a subscription: the events that Redis sent it when they were
   published, those its listener took from Redis, those it put on the channel, those received from it.
   */
  datatype Session = Session(owed: seq<Event>, handled: seq<Event>, put: seq<Event>, received: seq<Event>)

  const NONE := Session([], [], [], [])

  predicate Takes(s: State, c: ClientId, act: Action) {
    act == Listen(c) && c in s.pubsubs && s.pubsubs[c].inbox != []
  }

  predicate Room(s: State, c: ClientId) {
    && c in s.pubsubs && s.pubsubs[c].target in s.channels
    && !s.channels[s.pubsubs[c].target].closed && !s.channels[s.pubsubs[c].target].Full()
  }

  function Observe(s: State, h: Session, act: Action, c: ClientId): Session {
    if c !in Apply(s, act).subscribers then NONE
    else
      match act
      case Publish(e, ok) => if ok && Hears(s, c, e.auction) then h.(owed := h.owed + [e]) else h
      case Listen(_) =>
        if Takes(s, c, act) then
          var e := s.pubsubs[c].inbox[0];
          h.(handled := h.handled + [e], put := h.put + if Room(s, c) then [e] else [])
        else h
      case Receive(ch) =>
        if c in s.subscribers && s.subscribers[c] == ch && ch in s.channels && s.channels[ch].buffer != [] then
          h.(received := h.received + [s.channels[ch].buffer[0]])
        else h
      case _ => h
  }

  function SessionOf(acts: seq<Action>, c: ClientId): Session {
    if acts == [] then NONE
    else Observe(Run(INIT, acts[..|acts| - 1]), SessionOf(acts[..|acts| - 1], c), acts[|acts| - 1], c)
  }

  /** How the session relates to what is on its way in the connection and in the channel. */
  predicate Delivered(s: State, h: Session, c: ClientId) {
    if c in s.subscribers then
      && c in s.pubsubs && s.subscribers[c] in s.channels
      && h.owed == h.handled + s.pubsubs[c].inbox
      && h.put == h.received + s.channels[s.subscribers[c]].buffer
      && IsSubseq(h.put, h.handled)
    else h == NONE
  }

  lemma SubscribeDelivers(s: State, h: Session, d: ClientId, a: AuctionId, ch: ChannelId, ok: bool, c: ClientId)
    requires Inv(s) && Legal(s, Subscribe(d, a, ch, ok)) && Delivered(s, h, c)
    ensures Delivered(DoSubscribe(s, d, a, ch, ok), h, c)
  {
    if c in s.subscribers {
      assert ClientOk(s, c);
    } else if c == d {
      assert ChannelOk(s, ch);
    }
  }

  /** The session of `c` goes on from `s` to `t` with the same connection and channel. */
  predicate SameSession(s: State, t: State, c: ClientId) {
    && c in s.subscribers && c in t.subscribers && t.subscribers[c] == s.subscribers[c]
    && c in s.pubsubs && c in t.pubsubs && t.pubsubs[c].inbox == s.pubsubs[c].inbox
    && s.subscribers[c] in s.channels && s.subscribers[c] in t.channels
    && t.channels[s.subscribers[c]].buffer == s.channels[s.subscribers[c]].buffer
  }

  lemma LeavingKeepsOthers(s: State, t: State, d: ClientId, c: ClientId)
    requires Inv(s) && d in s.subscribers && s.subscribers[d] in s.channels
    requires t.subscribers == s.subscribers - {d} && t.pubsubs == s.pubsubs - {d}
    requires t.channels == s.channels[s.subscribers[d] := s.channels[s.subscribers[d]].(closed := true)]
    requires c in t.subscribers
    ensures SameSession(s, t, c)
  {
    assert ClientOk(s, c);
  }

  lemma StayingKeepsAll(s: State, t: State, d: ClientId, c: ClientId)
    requires Inv(s) && t.subscribers == s.subscribers && t.channels == s.channels && SameKeys(t)
    requires d in s.subscribers && t.pubsubs[d].inbox == s.pubsubs[d].inbox
    requires forall x <- t.subscribers | x != d :: t.pubsubs[x] == s.pubsubs[x]
    requires c in t.subscribers
    ensures SameSession(s, t, c)
  {
    assert ClientOk(s, c);
  }

  lemma UnsubscribeKeepsSessions(s: State, d: ClientId, a: AuctionId, ok: bool, c: ClientId)
    requires Inv(s) && c in DoUnsubscribe(s, d, a, ok).subscribers
    ensures SameSession(s, DoUnsubscribe(s, d, a, ok), c)
  {
    var t := DoUnsubscribe(s, d, a, ok);
    if d !in s.clientsToAuction {
      assert ClientOk(s, c);
    } else if |s.clientsToAuction[d] - {a}| == 0 {
      LastUnsubscribeMaps(s, d, a, ok);
      LeavingKeepsOthers(s, t, d, c);
    } else {
      UnsubscribeMaps(s, d, a, ok);
      StayingKeepsAll(s, t, d, c);
    }
  }

  lemma UnsubscribeDelivers(s: State, h: Session, d: ClientId, a: AuctionId, ok: bool, c: ClientId)
    requires Inv(s) && Delivered(s, h, c)
    ensures var t := DoUnsubscribe(s, d, a, ok); c in t.subscribers ==> Delivered(t, h, c)
  {
    if c in DoUnsubscribe(s, d, a, ok).subscribers { UnsubscribeKeepsSessions(s, d, a, ok, c); }
  }

  lemma PublishDelivers(s: State, h: Session, e: Event, ok: bool, c: ClientId)
    requires Inv(s) && Delivered(s, h, c)
    ensures var act := Publish(e, ok); Delivered(Apply(s, act), Observe(s, h, act, c), c)
  {
    if c in s.subscribers {
      assert ClientOk(s, c);
      if ok && Hears(s, c, e.auction) {
        assert h.handled + (s.pubsubs[c].inbox + [e]) == h.handled + s.pubsubs[c].inbox + [e];
      }
    }
  }

  lemma ListenDelivers(s: State, h: Session, d: ClientId, c: ClientId)
    requires Inv(s) && Delivered(s, h, c)
    ensures var act := Listen(d); Delivered(Apply(s, act), Observe(s, h, act, c), c)
  {
    if Takes(s, d, Listen(d)) {
      if d == c { OwnListen(s, h, c); } else { OthersListen(s, h, d, c); }
    }
  }

  lemma OthersListen(s: State, h: Session, d: ClientId, c: ClientId)
    requires Inv(s) && Delivered(s, h, c) && d != c && Takes(s, d, Listen(d))
    ensures Delivered(DoListen(s, d), h, c)
  {
    assert ClientOk(s, d);
    if c in s.subscribers { assert s.subscribers[d] != s.subscribers[c]; }
  }

  /** The listener drops an event exactly if the channel is full. */
  lemma OwnListen(s: State, h: Session, c: ClientId)
    requires Inv(s) && Delivered(s, h, c) && c in s.subscribers && Takes(s, c, Listen(c))
    ensures Delivered(Apply(s, Listen(c)), Observe(s, h, Listen(c), c), c)
    ensures var ch := s.channels[s.subscribers[c]];
            Observe(s, h, Listen(c), c).put == h.put <==> |ch.buffer| == ch.capacity
  {
    assert ClientOk(s, c);
    var inbox := s.pubsubs[c].inbox;
    var buffer := s.channels[s.subscribers[c]].buffer;
    var e := inbox[0];
    assert h.handled + inbox == h.handled + [e] + inbox[1..];
    if Room(s, c) {
      assert h.received + (buffer + [e]) == h.received + buffer + [e];
      SubseqKeep(h.put, h.handled, e);
    } else {
      assert h.put + [] == h.put;
      SubseqDrop(h.put, h.handled, e);
    }
  }

  lemma ReceiveDelivers(s: State, h: Session, ch: ChannelId, c: ClientId)
    requires Inv(s) && Delivered(s, h, c)
    ensures var act := Receive(ch); Delivered(Apply(s, act), Observe(s, h, act, c), c)
  {
    if c in s.subscribers && s.subscribers[c] == ch && ch in s.channels && s.channels[ch].buffer != [] {
      var buffer := s.channels[ch].buffer;
      assert h.received + buffer == h.received + [buffer[0]] + buffer[1..];
    }
  }

  lemma StepDelivers(s: State, h: Session, act: Action, c: ClientId)
    requires Inv(s) && Legal(s, act) && Delivered(s, h, c)
    ensures Delivered(Apply(s, act), Observe(s, h, act, c), c)
  {
    match act
    case Subscribe(d, a, ch, ok) => SubscribeDelivers(s, h, d, a, ch, ok, c);
    case Unsubscribe(d, a, ok) => UnsubscribeDelivers(s, h, d, a, ok, c);
    case Publish(e, ok) => PublishDelivers(s, h, e, ok, c);
    case Listen(d) => ListenDelivers(s, h, d, c);
    case Receive(ch) => ReceiveDelivers(s, h, ch, c);
    case MakeChannel(_, _) =>
  }

  /** In every run, whatever errors Redis returned. */
  lemma {:induction false} RunDelivers(acts: seq<Action>, c: ClientId)
    requires LegalRun(INIT, acts)
    ensures Delivered(Run(INIT, acts), SessionOf(acts, c), c)
  {
    if acts != [] {
      var init := acts[..|acts| - 1];
      RunDelivers(init, c);
      RunKeepsInv(init);
      StepDelivers(Run(INIT, init), SessionOf(init, c), acts[|acts| - 1], c);
    }
  }

  /**
   Within a session, what reaches the channel is an order-preserving subsequence of what Redis sent, what is
   received from it is a prefix of that, and the channel never holds more than its capacity.
   */
  lemma DeliveryKeepsOrder(acts: seq<Action>, c: ClientId)
    requires LegalRun(INIT, acts) && c in Run(INIT, acts).subscribers
    ensures var h := SessionOf(acts, c); var s := Run(INIT, acts);
            && IsSubseq(h.put, h.owed)
            && h.received <= h.put
            && h.handled <= h.owed
            && s.subscribers[c] in s.channels
            && |h.put| - |h.received| <= s.channels[s.subscribers[c]].capacity
  {
    var h := SessionOf(acts, c);
    var s := Run(INIT, acts);
    RunDelivers(acts, c);
    RunKeepsInv(acts);
    assert ChannelOk(s, s.subscribers[c]);
    SubseqExtend(h.put, h.handled, s.pubsubs[c].inbox);
  }

  // ---------------------------------------------------------------- what a subscriber is owed

  /** The events published, since client `c` registered, to auctions it was subscribed to at that moment. */
  function Published(acts: seq<Action>, c: ClientId): seq<Event> {
    if acts == [] || c !in Run(INIT, acts).subscribers then []
    else
      var init := acts[..|acts| - 1];
      var act := acts[|acts| - 1];
      Published(init, c)
      + if act.Publish? && act.ok && Subscribed(Run(INIT, init), c, act.e.auction) then [act.e] else []
  }

  /** In a session in which Redis refused none of the client's own operations, that is what Redis sends. */
  lemma {:induction false} OwedIsPublished(acts: seq<Action>, c: ClientId)
    requires LegalRun(INIT, acts) && CleanSession(acts, c)
    ensures SessionOf(acts, c).owed == Published(acts, c)
  {
    if acts != [] && c in Run(INIT, acts).subscribers {
      var init := acts[..|acts| - 1];
      OwedIsPublished(init, c);
      RunSynced(init, c);
      assert Hears(Run(INIT, init), c, 0) <==> Subscribed(Run(INIT, init), c, 0);
    }
  }

  /**
   A subscriber whose own operations Redis accepted sees an order-preserving subsequence of what was
   published to the auctions it was subscribed to, whatever errors anybody else met.
   */
  lemma SubscriberSeesSubsequence(acts: seq<Action>, c: ClientId)
    requires LegalRun(INIT, acts) && c in Run(INIT, acts).subscribers && CleanSession(acts, c)
    ensures IsSubseq(SessionOf(acts, c).put, Published(acts, c))
    ensures SessionOf(acts, c).received <= SessionOf(acts, c).put
  {
    DeliveryKeepsOrder(acts, c);
    OwedIsPublished(acts, c);
  }

  /** Every event the listener takes goes to the channel if and only if the channel is not full at that moment. */
  lemma DropsOnlyWhenFull(acts: seq<Action>, c: ClientId)
    requires LegalRun(INIT, acts) && Takes(Run(INIT, acts), c, Listen(c))
    ensures var s := Run(INIT, acts);
            && c in s.subscribers && s.subscribers[c] in s.channels
            && SessionOf(acts + [Listen(c)], c).put
               == SessionOf(acts, c).put
                + (if |s.channels[s.subscribers[c]].buffer| == s.channels[s.subscribers[c]].capacity then []
                   else [s.pubsubs[c].inbox[0]])
  {
    var s := Run(INIT, acts);
    RunKeepsInv(acts);
    RunDelivers(acts, c);
    OwnListen(s, SessionOf(acts, c), c);
    assert ClientOk(s, c);
    assert (acts + [Listen(c)])[..|acts + [Listen(c)]| - 1] == acts;
  }
}
