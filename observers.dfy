/** The observer list every action keeps: `push` on subscribe,
    `splice(indexOf(observer), 1)` on dispose, and the events one call
    of an action produces. */
module Observers {
  import opened Js
  import opened Sequences

  /** An observer object; the list compares observers by identity. */
  type ObserverId = nat

  /** What an observer is sent. */
  datatype Notification = OnNext(value: Value) | OnError(error: Value)

  /** What one call of an action does, in order: the value published on the
      action's internal start subject, one notification per observer, and
      (in the older version) the tick on its end subject. */
  datatype Event = Started(value: Value) | Delivered(observer: ObserverId, note: Notification) | Ended

  /** `observers.push(observer)`. */
  function Subscribed(observers: seq<ObserverId>, o: ObserverId): (r: seq<ObserverId>)
    ensures |r| == |observers| + 1 && r[..|observers|] == observers && r[|observers|] == o
  {
    observers + [o]
  }

  /** `observers.splice(observers.indexOf(observer), 1)`. */
  function Disposed(observers: seq<ObserverId>, o: ObserverId): (r: seq<ObserverId>)
    ensures observers == [] ==> r == []
    ensures observers != [] ==> |r| == |observers| - 1
    ensures forall x :: x in r ==> x in observers
  {
    SpliceOne(observers, IndexOf(observers, o))
  }

  /** The notifications of one dispatch: `note` to every observer, in list order. */
  function Broadcast(observers: seq<ObserverId>, note: Notification): (r: seq<Event>)
    ensures |r| == |observers|
    ensures forall i :: 0 <= i < |r| ==> r[i] == Delivered(observers[i], note)
  {
    if observers == [] then [] else [Delivered(observers[0], note)] + Broadcast(observers[1..], note)
  }

  /** Notifying one more observer adds its notification at the end. */
  lemma BroadcastSnoc(observers: seq<ObserverId>, o: ObserverId, note: Notification)
    ensures Broadcast(observers + [o], note) == Broadcast(observers, note) + [Delivered(o, note)]
  {
    var r := Broadcast(observers + [o], note);
    assert forall i :: 0 <= i < |observers| ==> r[i] == Broadcast(observers, note)[i];
  }

  /** How many events of a log go to observer o. */
  function DeliveriesTo(log: seq<Event>, o: ObserverId): nat {
    if log == [] then 0
    else (if log[0].Delivered? && log[0].observer == o then 1 else 0) + DeliveriesTo(log[1..], o)
  }

  /** Each observer gets exactly one notification per occurrence in the list:
      once if it subscribed once, never if it is not subscribed. */
  lemma {:induction false} BroadcastReachesEachOnce(observers: seq<ObserverId>, note: Notification, o: ObserverId)
    ensures DeliveriesTo(Broadcast(observers, note), o) == Count(observers, o)
  {
    if observers != [] {
      BroadcastReachesEachOnce(observers[1..], note, o);
      assert Broadcast(observers, note)[1..] == Broadcast(observers[1..], note);
    }
  }

  /** The events of a log concatenation add up. */
  lemma {:induction false} DeliveriesToConcat(a: seq<Event>, b: seq<Event>, o: ObserverId)
    ensures DeliveriesTo(a + b, o) == DeliveriesTo(a, o) + DeliveriesTo(b, o)
  {
    if a == [] {
      assert a + b == b;
    } else {
      assert (a + b)[0] == a[0] && (a + b)[1..] == a[1..] + b;
      DeliveriesToConcat(a[1..], b, o);
    }
  }

  /** Disposing a subscribed observer removes its first occurrence and keeps
      every other observer, in order. */
  lemma DisposeRemovesFirstOccurrence(observers: seq<ObserverId>, o: ObserverId)
    requires o in observers
    ensures var i := IndexOf(observers, o);
      && 0 <= i < |observers| && observers[i] == o && o !in observers[..i]
      && Disposed(observers, o) == observers[..i] + observers[i + 1..]
    ensures multiset(Disposed(observers, o)) == multiset(observers) - multiset{o}
  {
    var i := IndexOf(observers, o);
    var before, after := observers[..i], observers[i + 1..];
    assert observers == before + [o] + after;
    assert multiset(observers) == multiset(before) + multiset{o} + multiset(after);
    assert Disposed(observers, o) == before + after;
  }

  /** Disposing an observer that is not in the list removes the last observer
      (`splice(-1, 1)`), and leaves an empty list empty. */
  lemma DisposeAbsentDropsLast(observers: seq<ObserverId>, o: ObserverId)
    requires o !in observers
    ensures observers != [] ==> Disposed(observers, o) == observers[..|observers| - 1]
    ensures observers == [] ==> Disposed(observers, o) == []
  {
  }

  /** Subscribing a new observer and disposing it restores the list. */
  lemma SubscribeDisposeRoundTrip(observers: seq<ObserverId>, o: ObserverId)
    requires o !in observers
    ensures Disposed(Subscribed(observers, o), o) == observers
  {
    var s := Subscribed(observers, o);
    assert o !in s[..|observers|];
    assert IndexOf(s, o) == |observers|;
  }

  /** Disposing the same subscription twice: the second dispose no longer
      finds its observer and removes the last one instead, an observer that
      never asked to leave. */
  lemma DoubleDisposeDropsInnocent(observers: seq<ObserverId>, o: ObserverId)
    requires o !in observers && observers != []
    ensures Disposed(Disposed(Subscribed(observers, o), o), o) == observers[..|observers| - 1]
  {
    SubscribeDisposeRoundTrip(observers, o);
    DisposeAbsentDropsLast(observers, o);
  }
}
