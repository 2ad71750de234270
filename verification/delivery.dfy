/**
  Delivery guarantees of the broker loop, stated against the history of every
  payload it has accepted. The broker's store starts at index 0, so the
  payload at position i of the history is the one published with index i.

  The central fact: every live subscription has been sent exactly the
  messages from some index up to Last, each once, in index order, each with
  the payload published at that index. For a subscription that asked to start
  inside the resident window, that index is the one it asked for.
*/
module Delivery {
  import opened Wrappers
  import opened Bounds
  import opened MessageStore
  import opened MessageBroker

  /** The messages with indices lo .. |hist|-1, each with its published payload. */
  function Window<T>(hist: seq<T>, lo: int): (r: seq<Message<T>>)
    requires 0 <= lo <= |hist|
    ensures |r| == |hist| - lo
    ensures forall k :: 0 <= k < |r| ==> r[k] == Message(lo + k, hist[lo + k])
  {
    Tag(lo, hist[lo..])
  }

  /** A delivery log with no gap and no duplicate that reaches the newest index. */
  ghost predicate UpToDate<T>(log: seq<Message<T>>, hist: seq<T>) {
    |log| <= |hist| && log == Window(hist, |hist| - |log|)
  }

  /** `hist` is what the loop has accepted: the store holds its last Size
      payloads with indices ending at |hist| - 1, and every live subscription
      is up to date. */
  ghost predicate Tracks<T>(b: Broker<T>, hist: seq<T>)
    requires WellFormed(b)
  {
    && StoreTracks(b.store, hist)
    && forall k :: 0 <= k < |b.subscriptions| ==> UpToDate(b.handles[b.subscriptions[k]].delivered, hist)
  }

  /** The payload an event adds to the history: only a publish to a running loop. */
  function Accepted<T>(b: Broker<T>, e: Event<T>): seq<T> {
    if !b.stopped && e.Publish? then [e.payload] else []
  }

  /** The payloads a run of events adds to the history, in order. */
  function AcceptedAll<T>(b: Broker<T>, es: seq<Event<T>>): seq<T>
    requires WellFormed(b)
    decreases |es|
  {
    if es == [] then [] else Accepted(b, es[0]) + AcceptedAll(Step(b, es[0]), es[1..])
  }

  lemma WindowSnoc<T>(hist: seq<T>, lo: int, x: T)
    requires 0 <= lo <= |hist|
    ensures Window(hist + [x], lo) == Window(hist, lo) + [Message(|hist|, x)]
  {
  }

  lemma WindowPrefix<T>(hist: seq<T>, more: seq<T>, lo: int)
    requires 0 <= lo <= |hist|
    ensures Window(hist, lo) <= Window(hist + more, lo)
  {
  }

  /** A fresh broker tracks the empty history. */
  lemma NewBrokerTracks<T>(size: int)
    requires size >= 1
    ensures WellFormed(NewBroker<T>(size).value) && Tracks(NewBroker<T>(size).value, [])
  {
  }

  /** The store holds the newest payloads of `hist`, indexed by position: it is
      the store that pushing all of `hist` into a new store of its capacity
      with first index 0 leaves. */
  ghost predicate StoreTracks<T>(store: Store<T>, hist: seq<T>)
    requires MessageStore.Valid(store)
  {
    HoldsLastPushes(store, store.capacity, 0, hist)
  }

  /** A tracking store's window is the tail of the history: it ends at index
      |hist| - 1 and starts where the evicted payloads end. */
  lemma StoreTracksEnds<T>(store: Store<T>, hist: seq<T>)
    requires MessageStore.Valid(store) && StoreTracks(store, hist)
    ensures 0 <= First(store) && First(store) + Size(store) == |hist|
    ensures Messages(store) == hist[First(store)..]
  {
  }

  lemma PushTracks<T>(store: Store<T>, hist: seq<T>, x: T)
    requires MessageStore.Valid(store) && StoreTracks(store, hist)
    ensures StoreTracks(Push(store, x), hist + [x]) && Last(Push(store, x)) == |hist|
  {
    PushExtendsHistory(store, store.capacity, 0, hist, x);
  }

  lemma PublishTracks<T>(b: Broker<T>, hist: seq<T>, x: T)
    requires WellFormed(b) && !b.stopped && Tracks(b, hist)
    ensures Tracks(PublishStep(b, x), hist + [x])
    ensures Last(PublishStep(b, x).store) == |hist|
  {
    var r := PublishStep(b, x);
    PushTracks(b.store, hist, x);
    DeliverKeepsUpToDate(b, r, hist, x);
  }

  /** Sending the newest message to every live subscription keeps each one up
      to date with the history extended by that message. */
  lemma DeliverKeepsUpToDate<T>(b: Broker<T>, r: Broker<T>, hist: seq<T>, x: T)
    requires WellFormed(b) && r.subscriptions == b.subscriptions && |r.handles| == |b.handles|
    requires forall k :: 0 <= k < |b.subscriptions| ==> UpToDate(b.handles[b.subscriptions[k]].delivered, hist)
    requires forall j :: 0 <= j < |b.handles| && j in b.subscriptions ==>
               r.handles[j].delivered == b.handles[j].delivered + [Message(|hist|, x)]
    ensures forall k :: 0 <= k < |r.subscriptions| ==> UpToDate(r.handles[r.subscriptions[k]].delivered, hist + [x])
  {
    forall k | 0 <= k < |r.subscriptions|
      ensures UpToDate(r.handles[r.subscriptions[k]].delivered, hist + [x])
    {
      var id := b.subscriptions[k];
      var d := b.handles[id].delivered;
      assert UpToDate(d, hist);
      assert r.handles[id].delivered == d + [Message(|hist|, x)];
      WindowSnoc(hist, |hist| - |d|, x);
    }
  }

  /** The replay a subscriber is sent is the history from its starting index. */
  lemma ReplayIsWindow<T>(store: Store<T>, hist: seq<T>, from: int)
    requires MessageStore.Valid(store) && StoreTracks(store, hist)
    ensures var start := Clamp(from, First(store), First(store) + Size(store));
            0 <= start <= |hist| && Replay(store, from) == Window(hist, start)
  {
    var F, S := First(store), Size(store);
    var start := Clamp(from, F, F + S);
    StoreTracksEnds(store, hist);
    SliceOfSuffix(hist, F, start);
    assert From(store, from) == hist[start..];
  }

  lemma SliceOfSuffix<T>(xs: seq<T>, i: int, j: int)
    requires 0 <= i <= j <= |xs|
    ensures xs[i..][j - i..] == xs[j..]
  {
  }

  lemma SubscribeTracks<T>(b: Broker<T>, hist: seq<T>, from: int)
    requires WellFormed(b) && !b.stopped && Tracks(b, hist)
    ensures Tracks(SubscribeStep(b, from), hist)
  {
    var r := SubscribeStep(b, from);
    ReplayIsWindow(b.store, hist, from);
    assert UpToDate(r.handles[|b.handles|].delivered, hist);
    AppendUpToDateTracks(b, r, hist);
  }

  /** A subscription starting inside the resident window is sent the history
      from exactly its starting index. */
  lemma SubscribeInsideWindow<T>(b: Broker<T>, hist: seq<T>, from: int)
    requires WellFormed(b) && !b.stopped && Tracks(b, hist)
    requires First(b.store) <= from <= First(b.store) + Size(b.store)
    ensures 0 <= from <= |hist| && SubscribeStep(b, from).handles[|b.handles|].delivered == Window(hist, from)
  {
    StoreTracksEnds(b.store, hist);
    assert Clamp(from, First(b.store), First(b.store) + Size(b.store)) == from;
    ReplayIsWindow(b.store, hist, from);
  }

  /** Appending one up-to-date subscription keeps the broker tracking. */
  lemma AppendUpToDateTracks<T>(b: Broker<T>, r: Broker<T>, hist: seq<T>)
    requires WellFormed(b) && WellFormed(r) && Tracks(b, hist) && r.store == b.store
    requires r.subscriptions == b.subscriptions + [|b.handles|]
    requires |r.handles| == |b.handles| + 1 && r.handles[..|b.handles|] == b.handles
    requires UpToDate(r.handles[|b.handles|].delivered, hist)
    ensures Tracks(r, hist)
  {
    forall k | 0 <= k < |r.subscriptions|
      ensures UpToDate(r.handles[r.subscriptions[k]].delivered, hist)
    {
      if k < |b.subscriptions| {
        var id := b.subscriptions[k];
        assert r.subscriptions[k] == id;
        assert r.handles[..|b.handles|][id] == r.handles[id];
      }
    }
  }

  lemma UnsubscribeTracks<T>(b: Broker<T>, hist: seq<T>, id: nat)
    requires WellFormed(b) && Tracks(b, hist)
    ensures Tracks(UnsubscribeStep(b, id), hist)
  {
    var r := UnsubscribeStep(b, id);
    forall k | 0 <= k < |r.subscriptions|
      ensures UpToDate(r.handles[r.subscriptions[k]].delivered, hist)
    {
      var j := r.subscriptions[k];
      assert j in b.subscriptions && j != id;
      var k' :| 0 <= k' < |b.subscriptions| && b.subscriptions[k'] == j;
    }
  }

  /** Every step keeps the broker in step with the history extended by what it accepted. */
  lemma StepTracks<T>(b: Broker<T>, hist: seq<T>, e: Event<T>)
    requires WellFormed(b) && Tracks(b, hist)
    ensures Tracks(Step(b, e), hist + Accepted(b, e))
  {
    if b.stopped {
      assert hist + [] == hist;
    } else {
      match e
      case Publish(x) =>
        assert Step(b, e) == PublishStep(b, x);
        PublishTracks(b, hist, x);
      case Subscribe(from) =>
        assert Step(b, e) == SubscribeStep(b, from) && hist + Accepted(b, e) == hist;
        SubscribeTracks(b, hist, from);
      case Unsubscribe(id) =>
        assert Step(b, e) == UnsubscribeStep(b, id) && hist + Accepted(b, e) == hist;
        UnsubscribeTracks(b, hist, id);
      case Stop =>
        assert Step(b, e) == StopStep(b) && hist + Accepted(b, e) == hist;
    }
  }

  /** A non-empty run is its first step followed by the run of the rest. */
  lemma RunUnfolds<T>(b: Broker<T>, es: seq<Event<T>>)
    requires WellFormed(b) && es != []
    ensures Run(b, es) == Run(Step(b, es[0]), es[1..])
    ensures AcceptedAll(b, es) == Accepted(b, es[0]) + AcceptedAll(Step(b, es[0]), es[1..])
  {
  }

  lemma {:induction false} RunTracks<T>(b: Broker<T>, hist: seq<T>, es: seq<Event<T>>)
    requires WellFormed(b) && Tracks(b, hist)
    ensures Tracks(Run(b, es), hist + AcceptedAll(b, es))
    decreases |es|
  {
    if es == [] {
      assert hist + AcceptedAll(b, es) == hist;
    } else {
      var b' := Step(b, es[0]);
      var h' := hist + Accepted(b, es[0]);
      StepTracks(b, hist, es[0]);
      RunTracks(b', h', es[1..]);
      RunUnfolds(b, es);
      AppendAssociates(hist, Accepted(b, es[0]), AcceptedAll(b', es[1..]));
    }
  }

  /** Every state the loop reaches from a fresh broker: the store holds the
      newest min(n, capacity) of the n accepted payloads, and every live
      subscription has received a gap-free, duplicate-free run of messages
      ending at the newest index, each with the payload published there. */
  lemma ReachableStatesTrack<T>(size: int, es: seq<Event<T>>)
    requires size >= 1
    ensures var b := NewBroker<T>(size).value;
            var hist := AcceptedAll(b, es);
            var r := Run(b, es);
            && Tracks(r, hist)
            && Size(r.store) == Min(|hist|, size)
  {
    var b := NewBroker<T>(size).value;
    var hist := AcceptedAll(b, es);
    var r := Run(b, es);
    NewBrokerTracks<T>(size);
    RunTracks(b, [], es);
    assert [] + hist == hist;
    assert Tracks(r, hist) && r.store.capacity == size;
    assert StoreTracks(r.store, hist);
  }

  /** What the inductive step of the no-gap theorem keeps about one subscription. */
  ghost predicate DeliveredFrom<T>(b: Broker<T>, hist: seq<T>, id: nat, from: int) {
    && id < |b.handles|
    && 0 <= from <= |hist|
    && b.handles[id].delivered <= Window(hist, from)
    && (!b.handles[id].closed ==> b.handles[id].delivered == Window(hist, from))
  }

  lemma StepDeliversFrom<T>(b: Broker<T>, hist: seq<T>, id: nat, from: int, e: Event<T>)
    requires WellFormed(b) && Tracks(b, hist) && DeliveredFrom(b, hist, id, from)
    ensures DeliveredFrom(Step(b, e), hist + Accepted(b, e), id, from)
  {
    var r := Step(b, e);
    var h := hist + Accepted(b, e);
    WindowPrefix(hist, Accepted(b, e), from);
    if !b.stopped && !b.handles[id].closed && e.Publish? {
      PublishTracks(b, hist, e.payload);
      WindowSnoc(hist, from, e.payload);
    } else if !b.handles[id].closed && !b.stopped && e.Subscribe? {
      assert r.handles[..|b.handles|][id] == r.handles[id];
    }
  }

  lemma {:induction false} RunDeliversFrom<T>(b: Broker<T>, hist: seq<T>, id: nat, from: int, es: seq<Event<T>>)
    requires WellFormed(b) && Tracks(b, hist) && DeliveredFrom(b, hist, id, from)
    ensures DeliveredFrom(Run(b, es), hist + AcceptedAll(b, es), id, from)
    decreases |es|
  {
    if es == [] {
      assert hist + [] == hist;
    } else {
      var b' := Step(b, es[0]);
      var h' := hist + Accepted(b, es[0]);
      StepTracks(b, hist, es[0]);
      StepDeliversFrom(b, hist, id, from, es[0]);
      RunDeliversFrom(b', h', id, from, es[1..]);
      RunUnfolds(b, es);
      AppendAssociates(hist, Accepted(b, es[0]), AcceptedAll(b', es[1..]));
    }
  }

  /** Replay then live, with no gap and no duplicate: a subscription whose
      starting index lies in [First, First + Size] is, after any later events,
      sent exactly the messages from its starting index to the newest one, each
      once and in order, with the payload published at that index; once its
      channel is closed what it was sent is a prefix of that. */
  lemma NoGapNoDuplicate<T>(b: Broker<T>, hist: seq<T>, from: int, es: seq<Event<T>>)
    requires WellFormed(b) && Tracks(b, hist) && !b.stopped
    requires First(b.store) <= from <= First(b.store) + Size(b.store)
    ensures var b1 := Step(b, Subscribe(from));
            var id := |b.handles|;
            var r := Run(b1, es);
            var h := hist + AcceptedAll(b1, es);
            && id < |r.handles|
            && 0 <= from <= |h|
            && r.handles[id].delivered <= Window(h, from)
            && (!r.handles[id].closed ==> r.handles[id].delivered == Window(h, from))
  {
    var b1 := Step(b, Subscribe(from));
    assert b1 == SubscribeStep(b, from);
    SubscribeTracks(b, hist, from);
    SubscribeInsideWindow(b, hist, from);
    assert DeliveredFrom(b1, hist, |b.handles|, from);
    RunDeliversFrom(b1, hist, |b.handles|, from, es);
  }

  /** A stopped loop ignores every later event. */
  lemma {:induction false} StoppedIsTerminal<T>(b: Broker<T>, es: seq<Event<T>>)
    requires WellFormed(b) && b.stopped
    ensures Run(b, es) == b && AcceptedAll(b, es) == []
    decreases |es|
  {
    if es != [] {
      StoppedIsTerminal(b, es[1..]);
    }
  }
}
