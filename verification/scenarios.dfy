/**
  The broker's documented runs, replayed through the step function: the
  messages each subscription is sent, in order, and whether its channel ends
  closed.
*/
module Scenarios {
  import opened Wrappers
  import opened Bounds
  import opened MessageStore
  import opened MessageBroker
  import opened StoreAsWritten

  /** Publishing with no subscriber only stores the payload. */
  lemma PublishAlone<T>(b: Broker<T>, x: T)
    requires WellFormed(b) && !b.stopped && b.subscriptions == [] && b.handles == []
    ensures Step(b, Publish(x)) == Broker(Push(b.store, x), [], [], false)
  {
  }

  /** The first subscription gets id 0 and is sent the replay. */
  lemma SubscribeFirst<T>(b: Broker<T>, from: int)
    requires WellFormed(b) && !b.stopped && b.subscriptions == [] && b.handles == []
    ensures Step(b, Subscribe(from)) == Broker(b.store, [0], [Subscription(from, Replay(b.store, from), false)], false)
  {
    assert Step(b, Subscribe(from)) == SubscribeStep(b, from);
  }

  /** With one live subscription, a publish appends one message to its log. */
  lemma PublishToOne<T>(b: Broker<T>, h: Subscription<T>, x: T)
    requires WellFormed(b) && !b.stopped && b.subscriptions == [0] && b.handles == [h]
    ensures Step(b, Publish(x))
              == Broker(Push(b.store, x), [0], [h.(delivered := h.delivered + [Message(Last(Push(b.store, x)), x)])], false)
  {
    var r := Step(b, Publish(x));
    assert r == PublishStep(b, x);
    assert r.handles == [r.handles[0]];
  }

  /** With one live subscription, closing the publish channel closes it. */
  lemma StopOne<T>(b: Broker<T>, h: Subscription<T>)
    requires WellFormed(b) && !b.stopped && b.subscriptions == [0] && b.handles == [h]
    ensures Step(b, Stop) == Broker(b.store, [], [h.(closed := true)], true)
  {
    var r := Step(b, Stop);
    assert r == StopStep(b);
    assert r.handles == [r.handles[0]];
  }

  /** Running a sequence of events is stepping through its head, then its tail. */
  lemma RunCons<T>(b: Broker<T>, e: Event<T>, es: seq<Event<T>>)
    requires WellFormed(b)
    ensures Run(b, [e] + es) == Run(Step(b, e), es)
  {
    assert ([e] + es)[1..] == es;
  }

  /** The store's states along the first run, and the replay from index 1. */
  lemma HelloWorldByeStores<T>(hello: T, world: T, bye: T)
    ensures var s0: Store<T> := Store([], 2, 0, 0);
            && Push(s0, hello) == Store([hello], 2, 0, 1)
            && Push(Store([hello], 2, 0, 1), world) == Store([hello, world], 2, 0, 0)
            && Push(Store([hello, world], 2, 0, 0), bye) == Store([bye, world], 2, 1, 1)
            && Last(Store([bye, world], 2, 1, 1)) == 2
            && Replay(Store([hello, world], 2, 0, 0), 1) == [Message(1, world)]
  {
    HelloWorldPushes(hello, world);
    var s2: Store<T> := Store([hello, world], 2, 0, 0);
    assert Push(s2, bye) == Store([bye, world], 2, 1, 1);
    assert Messages(s2) == [hello, world];
    assert From(s2, 1) == [world];
  }

  /** Two pushes into an empty store of capacity 2. */
  lemma HelloWorldPushes<T>(hello: T, world: T)
    ensures var s0: Store<T> := Store([], 2, 0, 0);
            && Push(s0, hello) == Store([hello], 2, 0, 1)
            && Push(Store([hello], 2, 0, 1), world) == Store([hello, world], 2, 0, 0)
  {
    var s0: Store<T> := Store([], 2, 0, 0);
    assert Push(s0, hello) == Store([hello], 2, 0, 1);
  }

  /** The store's states along the second run, and the replay from index 2. */
  lemma HelloWorldBangStores<T>(hello: T, world: T, bang: T, tongue: T)
    ensures var s0: Store<T> := Store([], 2, 0, 0);
            && Push(s0, hello) == Store([hello], 2, 0, 1)
            && Push(Store([hello], 2, 0, 1), world) == Store([hello, world], 2, 0, 0)
            && Push(Store([hello, world], 2, 0, 0), bang) == Store([bang, world], 2, 1, 1)
            && Push(Store([bang, world], 2, 1, 1), tongue) == Store([bang, tongue], 2, 2, 0)
            && Last(Store([bang, tongue], 2, 2, 0)) == 3
            && Replay(Store([bang, world], 2, 1, 1), 2) == [Message(2, bang)]
  {
    HelloWorldPushes(hello, world);
    BangPushes(hello, world, bang, tongue);
    var s3: Store<T> := Store([bang, world], 2, 1, 1);
    assert Messages(s3) == [world, bang];
    assert From(s3, 2) == [bang];
  }

  /** The third and fourth pushes of the second run: the store wraps. */
  lemma BangPushes<T>(hello: T, world: T, bang: T, tongue: T)
    ensures Push(Store([hello, world], 2, 0, 0), bang) == Store([bang, world], 2, 1, 1)
    ensures Push(Store([bang, world], 2, 1, 1), tongue) == Store([bang, tongue], 2, 2, 0)
  {
    var s2: Store<T> := Store([hello, world], 2, 0, 0);
    assert Push(s2, bang) == Store([bang, world], 2, 1, 1);
  }

  /** Capacity 2; publish hello and world; subscribe from index 1; publish
      bye; close the publish channel. The subscriber is sent (1, world)
      then (2, bye), and its channel is closed. */
  lemma SubscribeFromOneThenClose<T>(hello: T, world: T, bye: T)
    ensures var b := Run(NewBroker<T>(2).value,
                         [Publish(hello), Publish(world), Subscribe(1), Publish(bye), Stop]);
            && b.handles == [Subscription(1, [Message(1, world), Message(2, bye)], true)]
            && b.subscriptions == [] && b.stopped
  {
    var b0 := NewBroker<T>(2).value;
    var s0: Store<T> := Store([], 2, 0, 0);
    assert b0 == Broker(s0, [], [], false);
    HelloWorldByeStores(hello, world, bye);
    var s1: Store<T> := Store([hello], 2, 0, 1);
    var s2: Store<T> := Store([hello, world], 2, 0, 0);
    var s3: Store<T> := Store([bye, world], 2, 1, 1);
    PublishAlone(b0, hello);
    var b1 := Broker(s1, [], [], false);
    PublishAlone(b1, world);
    var b2 := Broker(s2, [], [], false);
    SubscribeFirst(b2, 1);
    var h := Subscription(1, [Message(1, world)], false);
    assert h.delivered + [Message(2, bye)] == [Message(1, world), Message(2, bye)];
    var b3 := Broker(s2, [0], [h], false);
    PublishToOne(b3, h, bye);
    var h' := h.(delivered := [Message(1, world), Message(2, bye)]);
    var b4 := Broker(s3, [0], [h'], false);
    assert Step(b3, Publish(bye)) == b4;
    StopOne(b4, h');
    var b5 := Broker(s3, [], [h'.(closed := true)], true);
    assert Step(b4, Stop) == b5;
    RunCons(b4, Stop, []);
    assert Run(b4, [Stop]) == b5;
    RunCons(b3, Publish(bye), [Stop]);
    assert Run(b3, [Publish(bye), Stop]) == b5;
    RunCons(b2, Subscribe(1), [Publish(bye), Stop]);
    assert Run(b2, [Subscribe(1), Publish(bye), Stop]) == b5;
    RunCons(b1, Publish(world), [Subscribe(1), Publish(bye), Stop]);
    assert Run(b1, [Publish(world), Subscribe(1), Publish(bye), Stop]) == b5;
    RunCons(b0, Publish(hello), [Publish(world), Subscribe(1), Publish(bye), Stop]);
  }

  /** Capacity 2; publish hello, world, bang; subscribe from index 2;
      publish tongue; close. The subscriber is sent (2, bang) then (3, tongue).
      The run serves the subscription before the fourth publish. Served after
      it, the subscription gets the same two messages as its backlog
      (`LateSubscriptionReplaysBoth`), so either order gives this output. */
  lemma SubscribeAfterWrapThenClose<T>(hello: T, world: T, bang: T, tongue: T)
    ensures var b := Run(NewBroker<T>(2).value,
                         [Publish(hello), Publish(world), Publish(bang), Subscribe(2), Publish(tongue), Stop]);
            && b.handles == [Subscription(2, [Message(2, bang), Message(3, tongue)], true)]
  {
    var b0 := NewBroker<T>(2).value;
    var s0: Store<T> := Store([], 2, 0, 0);
    assert b0 == Broker(s0, [], [], false);
    HelloWorldBangStores(hello, world, bang, tongue);
    var s1: Store<T> := Store([hello], 2, 0, 1);
    var s2: Store<T> := Store([hello, world], 2, 0, 0);
    var s3: Store<T> := Store([bang, world], 2, 1, 1);
    var s4: Store<T> := Store([bang, tongue], 2, 2, 0);
    PublishAlone(b0, hello);
    var b1 := Broker(s1, [], [], false);
    PublishAlone(b1, world);
    var b2 := Broker(s2, [], [], false);
    PublishAlone(b2, bang);
    var b3 := Broker(s3, [], [], false);
    SubscribeFirst(b3, 2);
    var h := Subscription(2, [Message(2, bang)], false);
    assert h.delivered + [Message(3, tongue)] == [Message(2, bang), Message(3, tongue)];
    var b4 := Broker(s3, [0], [h], false);
    PublishToOne(b4, h, tongue);
    var h' := h.(delivered := [Message(2, bang), Message(3, tongue)]);
    var b5 := Broker(s4, [0], [h'], false);
    assert Step(b4, Publish(tongue)) == b5;
    StopOne(b5, h');
    var b6 := Broker(s4, [], [h'.(closed := true)], true);
    assert Step(b5, Stop) == b6;
    RunCons(b5, Stop, []);
    assert Run(b5, [Stop]) == b6;
    RunCons(b4, Publish(tongue), [Stop]);
    assert Run(b4, [Publish(tongue), Stop]) == b6;
    RunCons(b3, Subscribe(2), [Publish(tongue), Stop]);
    assert Run(b3, [Subscribe(2), Publish(tongue), Stop]) == b6;
    RunCons(b2, Publish(bang), [Subscribe(2), Publish(tongue), Stop]);
    assert Run(b2, [Publish(bang), Subscribe(2), Publish(tongue), Stop]) == b6;
    RunCons(b1, Publish(world), [Publish(bang), Subscribe(2), Publish(tongue), Stop]);
    assert Run(b1, [Publish(world), Publish(bang), Subscribe(2), Publish(tongue), Stop]) == b6;
    RunCons(b0, Publish(hello), [Publish(world), Publish(bang), Subscribe(2), Publish(tongue), Stop]);
  }

  /** The other order of the second run: subscribing from index 2 after the
      fourth publish replays (2, bang) then (3, tongue). */
  lemma LateSubscriptionReplaysBoth<T>(hello: T, world: T, bang: T, tongue: T)
    ensures Push(Store([bang, world], 2, 1, 1), tongue) == Store([bang, tongue], 2, 2, 0)
    ensures Replay(Store([bang, tongue], 2, 2, 0), 2) == [Message(2, bang), Message(3, tongue)]
  {
    BangPushes(hello, world, bang, tongue);
    var s4: Store<T> := Store([bang, tongue], 2, 2, 0);
    assert Messages(s4) == [bang, tongue];
  }

  /** Capacity 2, first index 10: the states after pushing a, then b. */
  lemma PushesFromTen<T>(a: T, b: T)
    ensures NewWithFirst<T>(2, 10).value == Store([], 2, 10, 0)
    ensures Push(Store([], 2, 10, 0), a) == Store([a], 2, 10, 1)
    ensures Push(Store([a], 2, 10, 1), b) == Store([a, b], 2, 10, 0)
    ensures Messages(Store([a, b], 2, 10, 0)) == [a, b]
  {
    var s0: Store<T> := Store([], 2, 10, 0);
    assert Push(s0, a) == Store([a], 2, 10, 1);
  }

  /** The ranges the store's tests ask of those three states, both as written
      and corrected: the two agree on all of them. */
  lemma RangeFromTen<T>(a: T, b: T)
    ensures var s0: Store<T> := Store([], 2, 10, 0);
            && Range(s0, 0, 0) == [] && RangeAsWritten(s0, 0, 0) == Ok([])
            && Range(s0, 10, 10) == [] && RangeAsWritten(s0, 10, 10) == Ok([])
    ensures var s1 := Store([a], 2, 10, 1);
            && Range(s1, 0, 0) == [] && RangeAsWritten(s1, 0, 0) == Ok([])
            && Range(s1, 10, 10) == [] && RangeAsWritten(s1, 10, 10) == Ok([])
            && Range(s1, 10, 11) == [a] && RangeAsWritten(s1, 10, 11) == Ok([a])
    ensures var s2 := Store([a, b], 2, 10, 0);
            && Range(s2, 0, 0) == [] && RangeAsWritten(s2, 0, 0) == Ok([])
            && Range(s2, 10, 11) == [a] && RangeAsWritten(s2, 10, 11) == Ok([a])
            && Range(s2, 10, 12) == [a, b] && RangeAsWritten(s2, 10, 12) == Ok([a, b])
            && Range(s2, 11, 12) == [b] && RangeAsWritten(s2, 11, 12) == Ok([b])
            && Range(s2, 11, 16) == [b] && RangeAsWritten(s2, 11, 16) == Ok([b])
            && Range(s2, 12, 16) == [] && RangeAsWritten(s2, 12, 16) == Ok([])
  {
    PushesFromTen(a, b);
  }

  /** The same states and From: the code as written returns nothing for index
      0, below First = 10, which is what the store's tests expect; the
      corrected From returns everything resident. From inside the window the
      two agree. */
  lemma FromFromTen<T>(a: T, b: T)
    ensures var s0: Store<T> := Store([], 2, 10, 0);
            && From(s0, 0) == [] && FromAsWritten(s0, 0) == Ok([])
            && From(s0, 10) == [] && FromAsWritten(s0, 10) == Ok([])
    ensures var s1 := Store([a], 2, 10, 1);
            && FromAsWritten(s1, 0) == Ok([]) && From(s1, 0) == [a]
            && From(s1, 10) == [a] && FromAsWritten(s1, 10) == Ok([a])
    ensures var s2 := Store([a, b], 2, 10, 0);
            && FromAsWritten(s2, 0) == Ok([]) && From(s2, 0) == [a, b]
            && From(s2, 10) == [a, b] && FromAsWritten(s2, 10) == Ok([a, b])
            && From(s2, 11) == [b] && FromAsWritten(s2, 11) == Ok([b])
            && From(s2, 12) == [] && FromAsWritten(s2, 12) == Ok([])
  {
    PushesFromTen(a, b);
  }

  /** Capacity 2, pushes a, b, c: what the store's Get test expects of indices
      -1 .. 5 holds of the corrected Get, while the code as written swaps the
      two resident payloads. */
  lemma GetAfterThreePushes<T>(a: T, b: T, c: T)
    ensures var s := Push(Push(Push(New<T>(2).value, a), b), c);
            && Get(s, -1).Err? && Get(s, 0).Err?
            && Get(s, 1) == Ok(b) && Get(s, 2) == Ok(c)
            && Get(s, 3).Err? && Get(s, 4).Err? && Get(s, 5).Err?
            && GetAsWritten(s, 1) == Ok(c) && GetAsWritten(s, 2) == Ok(b)
  {
    var s0 := New<T>(2).value;
    assert s0 == Store([], 2, 0, 0);
    var s1 := Push(s0, a);
    assert s1 == Store([a], 2, 0, 1);
    var s2 := Push(s1, b);
    assert s2 == Store([a, b], 2, 0, 0);
    var s3 := Push(s2, c);
    assert s3 == Store([c, b], 2, 1, 1);
    assert Messages(s3) == [b, c];
  }

  /** Capacity 3, pushes a, b, c, d: the window, ends, size and next slot the
      store's test expects after each push. */
  lemma FourPushesIntoThree<T>(a: T, b: T, c: T, d: T)
    ensures var s := PushAll(New<T>(3).value, [a, b, c]);
            && Messages(s) == [a, b, c] && First(s) == 0 && Last(s) == 2 && Size(s) == 3 && s.nextPointer == 0
    ensures var s := PushAll(New<T>(3).value, [a, b, c, d]);
            && Messages(s) == [b, c, d] && First(s) == 1 && Last(s) == 3 && Size(s) == 3 && s.nextPointer == 1
  {
    PushAllWindow<T>(3, 0, [a, b, c]);
    PushAllWindow<T>(3, 0, [a, b, c, d]);
    assert [a, b, c, d][1..] == [b, c, d];
  }
}
