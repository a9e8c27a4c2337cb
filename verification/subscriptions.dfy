/** Subscriptions (src/controllers/subscription.controller.js): a toggle on the edge
    (subscriber, channel) that refuses a subscription to oneself, and two listings. */
module Subscriptions {
  import opened Base
  import opened Seqs
  import opened Ids
  import opened Text
  import opened Store

  /** The `findOne` filter `{channel: c, subscriber: u}`. */
  function Edge(u: Id, c: Id): Subscription -> bool {
    (e: Subscription) => e.subscriber == u && e.channel == c
  }

  function ToChannel(c: Id): Subscription -> bool {
    (e: Subscription) => e.channel == c
  }

  function BySubscriber(u: Id): Subscription -> bool {
    (e: Subscription) => e.subscriber == u
  }

  predicate Subscribed(subs: seq<Subscription>, u: Id, c: Id) {
    Count(subs, Edge(u, c)) > 0
  }

  /** At most one edge per (subscriber, channel). The schema has no unique index, so sequential
      toggles keep this; the store does not enforce it. */
  ghost predicate UniqueSubscriptions(subs: seq<Subscription>) {
    forall u, c :: Count(subs, Edge(u, c)) <= 1
  }

  predicate NoSelfSubscription(subs: seq<Subscription>) {
    forall j :: 0 <= j < |subs| ==> subs[j].subscriber != subs[j].channel
  }

  /** toggleSubscription. The id is checked first; then the parameter, as sent, is compared with
      the caller's id string; then an existing edge is deleted (data null) or one is created. */
  function ToggleSubscription(s: Store, caller: Id, channelId: string): (h: Handled<Option<Subscription>>)
    ensures !IsValidObjectId(channelId) ==> h == Fail(s, 400)
    ensures channelId == caller ==> h == Fail(s, 400)
    ensures IsValidObjectId(channelId) && channelId != caller ==>
      h.out.Ok? && h.out.code == 200 && h.store == s.(subscriptions := h.store.subscriptions)
    ensures IsValidObjectId(channelId) && channelId != caller && Subscribed(s.subscriptions, caller, Cast(channelId)) ==>
      && h.out.data == None
      && Count(h.store.subscriptions, Edge(caller, Cast(channelId))) == Count(s.subscriptions, Edge(caller, Cast(channelId))) - 1
      && exists i :: 0 <= i < |s.subscriptions| && Edge(caller, Cast(channelId))(s.subscriptions[i])
           && h.store.subscriptions == RemoveAt(s.subscriptions, i)
    ensures IsValidObjectId(channelId) && channelId != caller && !Subscribed(s.subscriptions, caller, Cast(channelId)) ==>
      && h.out.data == Some(Subscription(caller, Cast(channelId)))
      && h.store.subscriptions == s.subscriptions + [Subscription(caller, Cast(channelId))]
  {
    if !IsValidObjectId(channelId) then Fail(s, 400)
    else if channelId == caller then Fail(s, 400)
    else
      var c := Cast(channelId);
      match FirstIndex(s.subscriptions, Edge(caller, c))
      case Some(i) =>
        CountRemoveAt(s.subscriptions, i, Edge(caller, c));
        Handled(s.(subscriptions := RemoveAt(s.subscriptions, i)), Ok(200, None))
      case None =>
        var e := Subscription(caller, c);
        Handled(s.(subscriptions := s.subscriptions + [e]), Ok(200, Some(e)))
  }

  /** The self-subscription check applied to the id the query uses rather than to the spelling
      of the parameter. */
  function ToggleSubscriptionChecked(s: Store, caller: Id, channelId: string): (h: Handled<Option<Subscription>>)
    ensures IsValidObjectId(channelId) && Cast(channelId) == caller ==> h == Fail(s, 400)
    ensures !(IsValidObjectId(channelId) && Cast(channelId) == caller) ==> h == ToggleSubscription(s, caller, channelId)
    ensures NoSelfSubscription(s.subscriptions) ==> NoSelfSubscription(h.store.subscriptions)
  {
    if IsValidObjectId(channelId) && Cast(channelId) == caller then Fail(s, 400)
    else ToggleSubscription(s, caller, channelId)
  }

  /** An id the driver could generate, and the same id with its hex letters in upper case. */
  const ExampleId: string := "0123456789abcdef01234567"
  const ExampleIdUpper: string := "0123456789ABCDEF01234567"

  /** The upper-case spelling is a valid id of its own, differs from the id as a string, and
      casts back to it. */
  lemma UpperSpellingExample()
    ensures IsGeneratedId(ExampleId) && IsValidObjectId(ExampleIdUpper)
    ensures ExampleIdUpper != ExampleId && Cast(ExampleIdUpper) == ExampleId
  {
    ExampleIdGenerated();
    ExampleIdUpperValid();
    ExampleIdUpperCast();
    assert ExampleIdUpper[10] != ExampleId[10];
  }

  lemma ExampleIdGenerated()
    ensures IsGeneratedId(ExampleId)
  {
  }

  lemma ExampleIdUpperValid()
    ensures IsValidObjectId(ExampleIdUpper)
  {
  }

  lemma ExampleIdUpperCast()
    ensures Cast(ExampleIdUpper) == ExampleId
  {
    assert forall i :: 0 <= i < 24 ==> LowerChar(ExampleIdUpper[i]) == ExampleId[i];
  }

  /** As written, a spelling of the caller's own id other than the stored one passes the check,
      and a caller not yet subscribed to their own channel ends up subscribed to it. */
  lemma SelfSubscriptionSlipsThrough(s: Store, caller: Id, param: string)
    requires IsValidObjectId(param) && param != caller && Cast(param) == caller
    ensures var h := ToggleSubscription(s, caller, param);
      h.out.Ok? && (!Subscribed(s.subscriptions, caller, caller) ==> !NoSelfSubscription(h.store.subscriptions))
  {
    var h := ToggleSubscription(s, caller, param);
    if !Subscribed(s.subscriptions, caller, caller) {
      assert h.store.subscriptions[|s.subscriptions|] == Subscription(caller, caller);
    }
  }

  /** A toggle keeps "at most one edge per (subscriber, channel)". */
  lemma {:induction false} ToggleSubscriptionKeepsUnique(s: Store, caller: Id, channelId: string)
    requires UniqueSubscriptions(s.subscriptions)
    ensures UniqueSubscriptions(ToggleSubscription(s, caller, channelId).store.subscriptions)
  {
    var h := ToggleSubscription(s, caller, channelId);
    if IsValidObjectId(channelId) && channelId != caller {
      var c := Cast(channelId);
      match FirstIndex(s.subscriptions, Edge(caller, c))
      case Some(i) =>
        forall u, c' ensures Count(h.store.subscriptions, Edge(u, c')) <= 1 {
          CountRemoveAt(s.subscriptions, i, Edge(u, c'));
        }
      case None =>
        var e := Subscription(caller, c);
        assert (s.subscriptions + [e])[..|s.subscriptions|] == s.subscriptions;
    }
  }

  /** Two toggles from "not subscribed" restore the store exactly. */
  lemma {:induction false} ToggleSubscriptionTwiceFromUnsubscribed(s: Store, caller: Id, channelId: string)
    requires IsValidObjectId(channelId) && channelId != caller
    requires !Subscribed(s.subscriptions, caller, Cast(channelId))
    ensures var h1 := ToggleSubscription(s, caller, channelId);
      ToggleSubscription(h1.store, caller, channelId) == Handled(s, Ok(200, None))
  {
    var c := Cast(channelId);
    var subs1 := s.subscriptions + [Subscription(caller, c)];
    assert ToggleSubscription(s, caller, channelId).store == s.(subscriptions := subs1);
    assert FirstIndex(subs1, Edge(caller, c)) == Some(|s.subscriptions|) by {
      assert subs1[|s.subscriptions|] == Subscription(caller, c);
    }
    assert RemoveAt(subs1, |s.subscriptions|) == s.subscriptions;
  }

  /** Two toggles from "subscribed" give back the same edges; the re-created one is newest. */
  lemma {:induction false} ToggleSubscriptionTwiceFromSubscribed(s: Store, caller: Id, channelId: string)
    requires IsValidObjectId(channelId) && channelId != caller
    requires Subscribed(s.subscriptions, caller, Cast(channelId))
    requires UniqueSubscriptions(s.subscriptions)
    ensures var h1 := ToggleSubscription(s, caller, channelId);
      var h2 := ToggleSubscription(h1.store, caller, channelId);
      && h1.out == Ok(200, None)
      && h2.store == s.(subscriptions := h2.store.subscriptions)
      && multiset(h2.store.subscriptions) == multiset(s.subscriptions)
  {
    var c := Cast(channelId);
    var edge := Edge(caller, c);
    var i := FirstIndex(s.subscriptions, edge).value;
    var subs1 := RemoveAt(s.subscriptions, i);
    assert ToggleSubscription(s, caller, channelId).store == s.(subscriptions := subs1);
    assert !Subscribed(subs1, caller, c) by {
      assert Count(s.subscriptions, edge) <= 1;
      CountRemoveAt(s.subscriptions, i, edge);
    }
    assert s.subscriptions[i] == Subscription(caller, c);
    MultisetRemoveAppend(s.subscriptions, i);
  }

  /** getUserChannelSubscribers: the edges whose channel is the given one, in natural order. */
  function GetUserChannelSubscribers(s: Store, channelId: string): (h: Handled<seq<Subscription>>)
    ensures h.store == s
    ensures !IsValidObjectId(channelId) ==> h.out == Err(Status(400))
    ensures IsValidObjectId(channelId) ==> h.out.Ok? && h.out.code == 200
    ensures IsValidObjectId(channelId) ==>
      && |h.out.data| == Count(s.subscriptions, ToChannel(Cast(channelId)))
      && (forall j :: 0 <= j < |h.out.data| ==> h.out.data[j] in s.subscriptions && h.out.data[j].channel == Cast(channelId))
      && (forall j :: 0 <= j < |s.subscriptions| && s.subscriptions[j].channel == Cast(channelId) ==> s.subscriptions[j] in h.out.data)
  {
    if !IsValidObjectId(channelId) then Fail(s, 400)
    else Handled(s, Ok(200, Filter(s.subscriptions, ToChannel(Cast(channelId)))))
  }

  /** getSubscribedChannels: the edges whose subscriber is the given one, in natural order. */
  function GetSubscribedChannels(s: Store, subscriberId: string): (h: Handled<seq<Subscription>>)
    ensures h.store == s
    ensures !IsValidObjectId(subscriberId) ==> h.out == Err(Status(400))
    ensures IsValidObjectId(subscriberId) ==> h.out.Ok? && h.out.code == 200
    ensures IsValidObjectId(subscriberId) ==>
      && |h.out.data| == Count(s.subscriptions, BySubscriber(Cast(subscriberId)))
      && (forall j :: 0 <= j < |h.out.data| ==> h.out.data[j] in s.subscriptions && h.out.data[j].subscriber == Cast(subscriberId))
      && (forall j :: 0 <= j < |s.subscriptions| && s.subscriptions[j].subscriber == Cast(subscriberId) ==> s.subscriptions[j] in h.out.data)
  {
    if !IsValidObjectId(subscriberId) then Fail(s, 400)
    else Handled(s, Ok(200, Filter(s.subscriptions, BySubscriber(Cast(subscriberId)))))
  }

  /** A subscribing toggle makes the subscriber the last entry of the channel's list; an
      unsubscribing one shortens the list by exactly one. */
  lemma {:induction false} ToggleShowsInSubscriberList(s: Store, caller: Id, channelId: string)
    requires IsValidObjectId(channelId) && channelId != caller
    ensures var h := ToggleSubscription(s, caller, channelId);
      var before := GetUserChannelSubscribers(s, channelId).out.data;
      var after := GetUserChannelSubscribers(h.store, channelId).out.data;
      && (!Subscribed(s.subscriptions, caller, Cast(channelId)) ==> after == before + [Subscription(caller, Cast(channelId))])
      && (Subscribed(s.subscriptions, caller, Cast(channelId)) ==> |after| == |before| - 1)
  {
    var c := Cast(channelId);
    var subs := s.subscriptions;
    match FirstIndex(subs, Edge(caller, c))
    case Some(i) =>
      CountRemoveAt(subs, i, ToChannel(c));
    case None =>
      assert (subs + [Subscription(caller, c)])[..|subs|] == subs;
  }

  /** A subscribing toggle makes the channel the last entry of the caller's subscribed list; an
      unsubscribing one shortens that list by exactly one. */
  lemma {:induction false} ToggleShowsInSubscribedList(s: Store, caller: Id, channelId: string)
    requires IsValidObjectId(channelId) && channelId != caller
    requires IsGeneratedId(caller)
    ensures var h := ToggleSubscription(s, caller, channelId);
      var before := GetSubscribedChannels(s, caller).out.data;
      var after := GetSubscribedChannels(h.store, caller).out.data;
      && (!Subscribed(s.subscriptions, caller, Cast(channelId)) ==> after == before + [Subscription(caller, Cast(channelId))])
      && (Subscribed(s.subscriptions, caller, Cast(channelId)) ==> |after| == |before| - 1)
  {
    var c := Cast(channelId);
    var subs := s.subscriptions;
    assert Cast(caller) == caller by { CastCanonical(caller); }
    match FirstIndex(subs, Edge(caller, c))
    case Some(i) =>
      CountRemoveAt(subs, i, BySubscriber(caller));
    case None =>
      assert (subs + [Subscription(caller, c)])[..|subs|] == subs;
  }
}
