/** `RedisBroadcaster` as it is written: three maps updated in place, one listener iteration at a time. */
module BroadcastService {
  import opened Domain
  import opened Broadcast

  class RedisBroadcaster {
    var subscribers: map<ClientId, ChannelId>
    var pubsubs: map<ClientId, PubSub>
    var clientsToAuction: map<ClientId, map<AuctionId, bool>>
    // the channels the handlers made
    var channels: map<ChannelId, Channel>

    function View(): State
      reads this
    {
      State(subscribers, pubsubs, clientsToAuction, channels)
    }

    constructor ()
      ensures View() == INIT && Inv(View())
    {
      subscribers, pubsubs, clientsToAuction, channels := map[], map[], map[], map[];
    }

    /** Lines 55-98, with the mutex held. */
    method Register(a: AuctionId, c: ClientId, ch: ChannelId, redisOk: bool) returns (ok: bool)
      modifies this
      ensures View() == Apply(old(View()), Action.Subscribe(c, a, ch, redisOk))
      ensures ok <==> redisOk || Subscribed(old(View()), c, a)
    {
      if c in clientsToAuction && a in clientsToAuction[c] && clientsToAuction[c][a] { return true; }
      if c !in subscribers { subscribers := subscribers[c := ch]; }
      var known: map<AuctionId, bool> := map[];
      if c in clientsToAuction { known := clientsToAuction[c]; }
      clientsToAuction := clientsToAuction[c := known[a := true]];
      // a new connection gets a listener that forwards to the channel of this very call
      var pubsub := if c in pubsubs then pubsubs[c] else PubSub({}, [], ch);
      var subscribed := if redisOk then {a} else {};
      pubsubs := pubsubs[c := pubsub.(topics := pubsub.topics + subscribed)];
      ok := redisOk;
    }

    /** `Subscribe`: the pair is registered even if Redis refuses. */
    method Subscribe(a: AuctionId, c: ClientId, ch: ChannelId, redisOk: bool) returns (ok: bool)
      requires Inv(View()) && Legal(View(), Action.Subscribe(c, a, ch, redisOk))
      modifies this
      ensures Inv(View()) && View() == Apply(old(View()), Action.Subscribe(c, a, ch, redisOk))
      ensures forall d, b :: Subscribed(View(), d, b) <==> (d == c && b == a) || Subscribed(old(View()), d, b)
      ensures ok <==> redisOk || Subscribed(old(View()), c, a)
    {
      SubscribeStep(View(), c, a, ch, redisOk);
      forall d, b { SubscribedPairs(View(), c, a, ch, redisOk, d, b); }
      ok := Register(a, c, ch, redisOk);
    }

    /** Lines 106-135, with the mutex held. */
    method Deregister(a: AuctionId, c: ClientId, redisOk: bool)
      modifies this
      ensures View() == Apply(old(View()), Action.Unsubscribe(c, a, redisOk))
    {
      if c in clientsToAuction {
        var clientAuctions := clientsToAuction[c] - {a};
        clientsToAuction := clientsToAuction[c := clientAuctions];
        if |clientAuctions| == 0 {
          clientsToAuction := clientsToAuction - {c};
          assert clientsToAuction == old(clientsToAuction) - {c};
          if c in subscribers {
            var ch := subscribers[c];
            if ch in channels { channels := channels[ch := channels[ch].(closed := true)]; }
          }
          subscribers := subscribers - {c};
          pubsubs := pubsubs - {c};
        } else if c in pubsubs && redisOk {
          pubsubs := pubsubs[c := pubsubs[c].(topics := pubsubs[c].topics - {a})];
        }
      }
    }

    /** `Unsubscribe`: the last one closes the channel and the connection and forgets the client. */
    method Unsubscribe(a: AuctionId, c: ClientId, redisOk: bool)
      requires Inv(View())
      modifies this
      ensures Inv(View()) && View() == Apply(old(View()), Action.Unsubscribe(c, a, redisOk))
      ensures forall d, b :: Subscribed(View(), d, b) <==> !(d == c && b == a) && Subscribed(old(View()), d, b)
    {
      UnsubscribeStep(View(), c, a, redisOk);
      forall d, b { UnsubscribedPairs(View(), c, a, redisOk, d, b); }
      Deregister(a, c, redisOk);
    }

    method IsSubscribed(a: AuctionId, c: ClientId) returns (r: bool)
      ensures r <==> Subscribed(View(), c, a)
    {
      if c !in clientsToAuction { return false; }
      var clientAuctions := clientsToAuction[c];
      r := a in clientAuctions && clientAuctions[a];
    }

    /** Collects every client, whatever auction is asked for. */
    method GetSubscribersOf(a: AuctionId) returns (r: seq<ClientId>)
      ensures forall c :: c in r <==> c in GetSubscribers(View(), a)
      ensures |r| == |GetSubscribers(View(), a)|
    {
      r := [];
      var todo := subscribers.Keys;
      while todo != {}
        invariant todo <= subscribers.Keys
        invariant forall c :: c in r <==> c in subscribers && c !in todo
        invariant |r| + |todo| == |subscribers.Keys|
        decreases |todo|
      {
        var c :| c in todo;
        r := r + [c];
        todo := todo - {c};
      }
    }

    /** PUBLISH, and its arrival at every connection subscribed to the auction's channel. */
    method Publish(e: Event, redisOk: bool) returns (ok: bool)
      requires Inv(View())
      modifies this`pubsubs
      ensures Inv(View()) && View() == Apply(old(View()), Action.Publish(e, redisOk))
      ensures ok == redisOk
    {
      PublishStep(View(), e, redisOk);
      if redisOk { pubsubs := map c | c in pubsubs :: Forward(pubsubs[c], e); }
      ok := redisOk;
    }

    /** The non-blocking send of lines 223-227. */
    method TrySend(ch: ChannelId, event: Event)
      requires ch in channels && !channels[ch].closed
      modifies this`channels
      ensures channels == if |old(channels)[ch].buffer| >= old(channels)[ch].capacity then old(channels)
                          else old(channels)[ch := old(channels)[ch].(buffer := old(channels)[ch].buffer + [event])]
    {
      if |channels[ch].buffer| < channels[ch].capacity {
        channels := channels[ch := channels[ch].(buffer := channels[ch].buffer + [event])];
      }
    }

    /** Takes the next message of the connection and forwards it. */
    method ForwardNext(c: ClientId)
      requires c in pubsubs && pubsubs[c].inbox != []
      requires pubsubs[c].target in channels && !channels[pubsubs[c].target].closed
      modifies this`pubsubs, this`channels
      ensures View() == DoListen(old(View()), c)
    {
      var event := pubsubs[c].inbox[0];
      TrySend(pubsubs[c].target, event);
      pubsubs := pubsubs[c := pubsubs[c].(inbox := pubsubs[c].inbox[1..])];
    }

    /** One round of the listener loop. */
    method ListenOnce(c: ClientId)
      requires Inv(View()) && c in pubsubs && pubsubs[c].inbox != []
      modifies this`pubsubs, this`channels
      ensures Inv(View()) && View() == DoListen(old(View()), c)
    {
      ListenerTargetIsOpen(View(), c);
      ForwardNext(c);
    }
  }

  lemma ListenerTargetIsOpen(s: State, c: ClientId)
    requires Inv(s) && c in s.pubsubs
    ensures s.pubsubs[c].target in s.channels && !s.channels[s.pubsubs[c].target].closed
    ensures s.pubsubs[c].inbox != [] ==> Inv(DoListen(s, c))
  {
    assert ClientOk(s, c);
    if s.pubsubs[c].inbox != [] { ListenStep(s, c); }
  }
}
