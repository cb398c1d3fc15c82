/** Concrete runs for what the broadcaster does not promise. */
module BroadcastWitnesses {
  import opened Domain
  import opened Broadcast

  /** Go on with a legal run. */
  lemma Then(acts: seq<Action>, act: Action) returns (longer: seq<Action>)
    requires LegalRun(INIT, acts) && Legal(Run(INIT, acts), act)
    ensures LegalRun(INIT, longer) && Run(INIT, longer) == Apply(Run(INIT, acts), act)
  {
    longer := acts + [act];
    assert longer[..|longer| - 1] == acts;
  }

  /** Client 0 is subscribed to auction 0, and client 1 to auction 1: both are returned for auction 0. */
  lemma GetSubscribersNamesStrangers() returns (acts: seq<Action>)
    ensures LegalRun(INIT, acts)
    ensures var s := Run(INIT, acts);
            && Subscribed(s, 0, 0) && Subscribed(s, 1, 1) && !Subscribed(s, 1, 0)
            && 1 in GetSubscribers(s, 0)
  {
    acts := [];
    acts := Then(acts, MakeChannel(0, 1));
    acts := Then(acts, MakeChannel(1, 1));
    acts := Then(acts, Subscribe(0, 0, 0, true));
    acts := Then(acts, Subscribe(1, 1, 1, true));
  }

  /** Redis refuses client 0, which asks again: it is subscribed, and an event published then never arrives. */
  lemma SubscriberHearsNothing() returns (acts: seq<Action>, publish: Action)
    ensures LegalRun(INIT, acts) && publish == Publish(Event(0, 7), true)
    ensures var s := Run(INIT, acts); var t := Apply(s, publish);
            && Subscribed(s, 0, 0) && !Hears(s, 0, 0)
            && 0 in t.pubsubs && t.pubsubs[0].inbox == [] && 0 in t.channels && t.channels[0].buffer == []
  {
    acts := [];
    acts := Then(acts, MakeChannel(0, 1));
    acts := Then(acts, Subscribe(0, 0, 0, false));
    acts := Then(acts, Subscribe(0, 0, 0, true));
    publish := Publish(Event(0, 7), true);
  }

  const BOTH: map<AuctionId, bool> := map[0 := true, 1 := true]

  lemma SubscribedToTwo() returns (acts: seq<Action>)
    ensures LegalRun(INIT, acts)
    ensures Run(INIT, acts)
         == State(map[0 := 0], map[0 := PubSub({0, 1}, [], 0)], map[0 := BOTH], map[0 := Channel(1, [], false)])
  {
    acts := [];
    acts := Then(acts, MakeChannel(0, 1));
    acts := Then(acts, Subscribe(0, 0, 0, true));
    assert {} + {0} == {0};
    assert Run(INIT, acts).pubsubs == map[0 := PubSub({0}, [], 0)];
    acts := Then(acts, Subscribe(0, 1, 0, true));
    assert {0} + {1} == {0, 1};
  }

  /** Redis refuses to end a subscription: the client goes on receiving what it is no longer subscribed to. */
  lemma FormerSubscriberStillHears() returns (acts: seq<Action>)
    ensures LegalRun(INIT, acts)
    ensures var s := Run(INIT, acts);
            && !Subscribed(s, 0, 0) && Subscribed(s, 0, 1) && Hears(s, 0, 0)
            && 0 in s.subscribers && s.subscribers[0] == 0 && 0 in s.channels && s.channels[0].buffer == [Event(0, 7)]
  {
    acts := SubscribedToTwo();
    OneIsLeft(Run(INIT, acts));
    acts := Then(acts, Unsubscribe(0, 0, false));
    EventArrives(Run(INIT, acts));
    acts := Then(acts, Publish(Event(0, 7), true));
    acts := Then(acts, Listen(0));
  }

  lemma OneIsLeft(s: State)
    requires s.clientsToAuction == map[0 := BOTH]
    ensures Apply(s, Unsubscribe(0, 0, false)) == s.(clientsToAuction := map[0 := map[1 := true]])
  {
    assert BOTH - {0} == map[1 := true];
  }

  lemma EventArrives(s: State)
    requires s.pubsubs == map[0 := PubSub({0, 1}, [], 0)] && s.channels == map[0 := Channel(1, [], false)]
    ensures var t := Apply(Apply(s, Publish(Event(0, 7), true)), Listen(0));
            && t.pubsubs == s.pubsubs && t.channels == map[0 := Channel(1, [Event(0, 7)], false)]
            && t.subscribers == s.subscribers && t.clientsToAuction == s.clientsToAuction
  {
    var m := Apply(s, Publish(Event(0, 7), true));
    var sent := PubSub({0, 1}, [Event(0, 7)], 0);
    assert [] + [Event(0, 7)] == [Event(0, 7)] && [Event(0, 7)][1..] == [];
    assert Forward(PubSub({0, 1}, [], 0), Event(0, 7)) == sent;
    assert m.pubsubs == map[0 := sent];
    assert m.pubsubs[0 := sent.(inbox := [])] == s.pubsubs;
  }
}
