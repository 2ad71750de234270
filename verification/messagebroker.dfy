/**
  The broker event loop as a sequential state machine.

  The loop owns a message store, the ordered list of live subscriptions and,
  per subscription, what has been sent on its channel. Each iteration of the
  loop handles one event completely, so the loop is a step function over
  events: a publish, a subscribe (with the index to replay from), an
  unsubscribe, and the closing of the publish channel. A send on a
  subscription's channel appends to that subscription's delivery log; closing
  the channel sets its `closed` flag.

  Subscriptions are Go pointers created by SubscribeFrom; here they are
  handles: the position of the subscription in `handles`, which holds every
  subscription ever created, live or closed.
*/
module MessageBroker {
  import opened Wrappers
  import opened Bounds
  import opened MessageStore

  /** What a subscriber receives: an absolute index and its payload. */
  datatype Message<T> = Message(index: int, data: T)

  /** A subscription: the index it asked to start from, everything sent on its
      channel so far in send order, and whether that channel is closed. */
  datatype Subscription<T> = Subscription(first: int, delivered: seq<Message<T>>, closed: bool)

  /** The loop's state: the store it owns, the live subscriptions in list
      order, all subscriptions ever created, and whether the loop has exited. */
  datatype Broker<T> = Broker(
    store: Store<T>,
    subscriptions: seq<nat>,
    handles: seq<Subscription<T>>,
    stopped: bool)

  /** What the loop can receive: a value on the publish channel, a subscription
      on the subscribe channel, a subscription on the unsubscribe channel, or
      the publish channel being closed. */
  datatype Event<T> = Publish(payload: T) | Subscribe(from: int) | Unsubscribe(id: nat) | Stop

  predicate Distinct(xs: seq<nat>) {
    forall i, j :: 0 <= i < j < |xs| ==> xs[i] != xs[j]
  }

  /** What every state the loop reaches satisfies: the list holds each live
      subscription once, never a closed one, and every open one is in it. */
  ghost predicate WellFormed<T>(b: Broker<T>) {
    && MessageStore.Valid(b.store)
    && Distinct(b.subscriptions)
    && (forall k :: 0 <= k < |b.subscriptions| ==>
          b.subscriptions[k] < |b.handles| && !b.handles[b.subscriptions[k]].closed)
    && (forall j :: 0 <= j < |b.handles| && !b.handles[j].closed ==> j in b.subscriptions)
    && (b.stopped ==> b.subscriptions == [])
  }

  /** How one subscription may evolve over a step: its starting index is kept,
      its log only grows, and once closed it never changes again. */
  ghost predicate Follows<T>(h: Subscription<T>, h': Subscription<T>) {
    && h'.first == h.first
    && h.delivered <= h'.delivered
    && (h.closed ==> h' == h)
  }

  /** NewMessageBroker: a running broker over an empty store of capacity `size`;
      the store's constructor panics on a size below 1. */
  function NewBroker<T>(size: int): (r: Result<Broker<T>, Failure>)
    ensures r.Err? <==> size < 1
    ensures r.Ok? ==> && WellFormed(r.value)
                      && !r.value.stopped
                      && r.value.subscriptions == [] && r.value.handles == []
                      && r.value.store.capacity == size
                      && Size(r.value.store) == 0 && First(r.value.store) == 0
  {
    match New<T>(size)
    case Err(e) => Err(e)
    case Ok(store) => Ok(Broker(store, [], [], false))
  }

  /** `xs` labelled with consecutive indices starting at `start`. */
  function Tag<T>(start: int, xs: seq<T>): (r: seq<Message<T>>)
    ensures |r| == |xs|
    ensures forall k :: 0 <= k < |r| ==> r[k] == Message(start + k, xs[k])
    decreases |xs|
  {
    if xs == [] then [] else [Message(start, xs[0])] + Tag(start + 1, xs[1..])
  }

  /** The backlog a new subscription is sent: every resident message whose index
      is at least `from`, labelled with its own index. When `from` is below
      First the replay starts at the oldest resident index. */
  function Replay<T>(store: Store<T>, from: int): (r: seq<Message<T>>)
    requires MessageStore.Valid(store)
    ensures var start := Clamp(from, First(store), First(store) + Size(store));
            && |r| == First(store) + Size(store) - start
            && forall k :: 0 <= k < |r| ==>
                 r[k] == Message(start + k, Messages(store)[start - First(store) + k])
  {
    var start := Clamp(from, First(store), First(store) + Size(store));
    Tag(start, Messages(store)[start - First(store)..])
  }

  /** Every replayed message carries the payload Get returns for its index. */
  lemma ReplayAgreesWithGet<T>(store: Store<T>, from: int)
    requires MessageStore.Valid(store)
    ensures var r := Replay(store, from);
            forall k :: 0 <= k < |r| ==> Get(store, r[k].index) == Ok(r[k].data)
  {
    var r := Replay(store, from);
    forall k | 0 <= k < |r| ensures Get(store, r[k].index) == Ok(r[k].data) {
      var F := First(store);
      var start := Clamp(from, F, F + Size(store));
      var i := start + k;
      assert r[k] == Message(i, Messages(store)[i - F]);
      assert F <= i < F + Size(store);
      GetReadsWindow(store, i);
    }
  }

  /** Send `m` once on the channel of every subscription in `live`. */
  function DeliverAll<T>(hs: seq<Subscription<T>>, live: seq<nat>, m: Message<T>): (r: seq<Subscription<T>>)
    requires Distinct(live)
    requires forall k :: 0 <= k < |live| ==> live[k] < |hs|
    ensures |r| == |hs|
    ensures forall j :: 0 <= j < |hs| ==>
              && r[j].first == hs[j].first
              && r[j].closed == hs[j].closed
              && r[j].delivered == hs[j].delivered + (if j in live then [m] else [])
    decreases |live|
  {
    if live == [] then hs
    else
      var id := live[0];
      assert forall k :: 0 <= k < |live| - 1 ==> live[1..][k] == live[k + 1];
      DeliverAll(hs[id := hs[id].(delivered := hs[id].delivered + [m])], live[1..], m)
  }

  /** The position of `x` in `xs`. */
  function IndexOf(xs: seq<nat>, x: nat): (k: nat)
    requires x in xs
    ensures k < |xs| && xs[k] == x && x !in xs[..k]
  {
    if xs[0] == x then 0
    else
      assert xs == [xs[0]] + xs[1..];
      1 + IndexOf(xs[1..], x)
  }

  lemma IndexOfFirstOccurrence(xs: seq<nat>, x: nat, i: nat)
    requires i < |xs| && xs[i] == x && x !in xs[..i]
    ensures IndexOf(xs, x) == i
  {
    if i > 0 {
      assert xs[0] == xs[..i][0];
      assert xs[1..][..i - 1] == xs[..i][1..];
      IndexOfFirstOccurrence(xs[1..], x, i - 1);
    }
  }

  /** `xs` without `x`, the others in their original order. */
  function Remove(xs: seq<nat>, x: nat): (r: seq<nat>)
    ensures forall y :: y in r <==> y in xs && y != x
    ensures x !in xs ==> r == xs
  {
    if xs == [] then []
    else
      var rest := Remove(xs[1..], x);
      assert xs == [xs[0]] + xs[1..];
      if xs[0] == x then rest else [xs[0]] + rest
  }

  /** In a list holding each element once, Remove cuts out exactly the one
      position where `x` stands and keeps the rest distinct. */
  lemma {:induction false} RemoveCutsOnePosition(xs: seq<nat>, x: nat)
    requires Distinct(xs)
    ensures Distinct(Remove(xs, x))
    ensures x in xs ==> Remove(xs, x) == xs[..IndexOf(xs, x)] + xs[IndexOf(xs, x) + 1..]
  {
    if xs != [] {
      assert xs == [xs[0]] + xs[1..];
      DistinctTail(xs);
      RemoveCutsOnePosition(xs[1..], x);
      var rest := Remove(xs[1..], x);
      if xs[0] == x {
        assert x !in xs[1..];
      } else {
        DistinctCons(xs[0], rest);
        if x in xs {
          CutBehindHead(xs, x);
        }
      }
    }
  }

  lemma DistinctTail(xs: seq<nat>)
    requires Distinct(xs) && xs != []
    ensures Distinct(xs[1..]) && xs[0] !in xs[1..]
  {
    forall i, j | 0 <= i < j < |xs[1..]| ensures xs[1..][i] != xs[1..][j] {
      assert xs[1..][i] == xs[i + 1] && xs[1..][j] == xs[j + 1];
    }
  }

  lemma DistinctCons(x: nat, rest: seq<nat>)
    requires Distinct(rest) && x !in rest
    ensures Distinct([x] + rest)
  {
    var r := [x] + rest;
    forall i, j | 0 <= i < j < |r| ensures r[i] != r[j] {
      if i == 0 {
        assert r[j] == rest[j - 1];
      } else {
        assert r[i] == rest[i - 1] && r[j] == rest[j - 1];
      }
    }
  }

  /** Cutting `x` out behind a head that differs from it is cutting it out of
      the tail and putting the head back. */
  lemma CutBehindHead(xs: seq<nat>, x: nat)
    requires xs != [] && xs[0] != x && x in xs
    ensures x in xs[1..] && IndexOf(xs, x) == IndexOf(xs[1..], x) + 1
    ensures xs[..IndexOf(xs, x)] + xs[IndexOf(xs, x) + 1..]
              == [xs[0]] + (xs[1..][..IndexOf(xs[1..], x)] + xs[1..][IndexOf(xs[1..], x) + 1..])
  {
    var k := IndexOf(xs[1..], x);
    assert IndexOf(xs, x) == k + 1;
    assert xs[..k + 1] == [xs[0]] + xs[1..][..k];
    assert xs[k + 2..] == xs[1..][k + 1..];
    AppendAssociates([xs[0]], xs[1..][..k], xs[1..][k + 1..]);
  }

  lemma AppendAssociates<T>(a: seq<T>, b: seq<T>, c: seq<T>)
    ensures a + b + c == a + (b + c)
  {
  }

  /** A value on the publish channel: push it, then send it with its new index
      to every live subscription in list order. */
  function PublishStep<T>(b: Broker<T>, x: T): (r: Broker<T>)
    requires WellFormed(b) && !b.stopped
    ensures WellFormed(r) && !r.stopped
    ensures r.store == Push(b.store, x)
    ensures Get(r.store, Last(r.store)) == Ok(x)
    ensures r.subscriptions == b.subscriptions && |r.handles| == |b.handles|
    ensures forall j :: 0 <= j < |b.handles| && j in b.subscriptions ==>
              r.handles[j] == b.handles[j].(delivered := b.handles[j].delivered + [Message(Last(r.store), x)])
    ensures forall j :: 0 <= j < |b.handles| && j !in b.subscriptions ==> r.handles[j] == b.handles[j]
  {
    var store := Push(b.store, x);
    PushedIsLast(b.store, x);
    var r := b.(store := store, handles := DeliverAll(b.handles, b.subscriptions, Message(Last(store), x)));
    SameShapeWellFormed(b, r);
    r
  }

  /** Changing only the store and what was delivered keeps the loop's state well formed. */
  lemma SameShapeWellFormed<T>(b: Broker<T>, r: Broker<T>)
    requires WellFormed(b) && MessageStore.Valid(r.store)
    requires r.subscriptions == b.subscriptions && r.stopped == b.stopped
    requires |r.handles| == |b.handles|
    requires forall j :: 0 <= j < |b.handles| ==> r.handles[j].closed == b.handles[j].closed
    ensures WellFormed(r)
  {
  }

  /** A subscription on the subscribe channel: append it to the live list and
      send it the backlog from its starting index. */
  function SubscribeStep<T>(b: Broker<T>, from: int): (r: Broker<T>)
    requires WellFormed(b) && !b.stopped
    ensures WellFormed(r) && !r.stopped
    ensures r.store == b.store
    ensures r.subscriptions == b.subscriptions + [|b.handles|]
    ensures |r.handles| == |b.handles| + 1 && r.handles[..|b.handles|] == b.handles
    ensures r.handles[|b.handles|] == Subscription(from, Replay(b.store, from), false)
  {
    var id := |b.handles|;
    var h := Subscription(from, Replay(b.store, from), false);
    var r := b.(subscriptions := b.subscriptions + [id], handles := b.handles + [h]);
    assert r.handles[..|b.handles|] == b.handles && r.handles[id] == h;
    AppendLiveWellFormed(b, r);
    r
  }

  lemma AppendLiveWellFormed<T>(b: Broker<T>, r: Broker<T>)
    requires WellFormed(b) && r.store == b.store && r.stopped == b.stopped && !b.stopped
    requires r.subscriptions == b.subscriptions + [|b.handles|]
    requires |r.handles| == |b.handles| + 1 && r.handles[..|b.handles|] == b.handles
    requires !r.handles[|b.handles|].closed
    ensures WellFormed(r)
  {
    assert forall k :: 0 <= k < |b.subscriptions| ==> r.subscriptions[k] == b.subscriptions[k];
    forall j | 0 <= j < |b.handles| ensures r.handles[j] == b.handles[j] {
      assert r.handles[..|b.handles|][j] == r.handles[j];
    }
  }

  /** A non-empty replay ends at the newest index; from inside the window it
      starts exactly at `from`. */
  lemma ReplayEndsAtLast<T>(store: Store<T>, from: int)
    requires MessageStore.Valid(store)
    ensures var r := Replay(store, from);
            && (|r| > 0 ==> r[|r| - 1].index == Last(store))
            && (First(store) <= from <= First(store) + Size(store) ==>
                  |r| == First(store) + Size(store) - from
                  && forall k :: 0 <= k < |r| ==> r[k].index == from + k)
  {
    var r := Replay(store, from);
    var F, S := First(store), Size(store);
    var start := Clamp(from, F, F + S);
    assert |r| == F + S - start;
    if |r| > 0 {
      assert r[|r| - 1].index == start + (|r| - 1);
    }
    if F <= from <= F + S {
      assert start == from;
      forall k | 0 <= k < |r| ensures r[k].index == from + k {
        assert r[k].index == start + k;
      }
    }
  }

  /** A subscription on the unsubscribe channel: drop it from the live list and
      close its channel; a subscription not in the list is left alone. */
  function UnsubscribeStep<T>(b: Broker<T>, id: nat): (r: Broker<T>)
    requires WellFormed(b)
    ensures WellFormed(r)
    ensures r.store == b.store && r.stopped == b.stopped && |r.handles| == |b.handles|
    ensures id !in r.subscriptions
    ensures id in b.subscriptions ==>
              && r.subscriptions == b.subscriptions[..IndexOf(b.subscriptions, id)] + b.subscriptions[IndexOf(b.subscriptions, id) + 1..]
              && r.handles[id] == b.handles[id].(closed := true)
    ensures id !in b.subscriptions ==> r == b
    ensures forall j :: 0 <= j < |b.handles| && j != id ==> r.handles[j] == b.handles[j]
  {
    if id in b.subscriptions then
      RemoveCutsOnePosition(b.subscriptions, id);
      var r := b.(subscriptions := Remove(b.subscriptions, id),
                  handles := b.handles[id := b.handles[id].(closed := true)]);
      CloseOneWellFormed(b, id, r);
      r
    else b
  }

  /** Closing one live subscription and dropping it from the list keeps the
      broker well formed. */
  lemma CloseOneWellFormed<T>(b: Broker<T>, id: nat, r: Broker<T>)
    requires WellFormed(b) && id in b.subscriptions
    requires r.store == b.store && r.stopped == b.stopped
    requires Distinct(r.subscriptions)
    requires forall y :: y in r.subscriptions <==> y in b.subscriptions && y != id
    requires r.handles == b.handles[id := b.handles[id].(closed := true)]
    ensures WellFormed(r)
  {
    forall k | 0 <= k < |r.subscriptions|
      ensures r.subscriptions[k] < |r.handles| && !r.handles[r.subscriptions[k]].closed
    {
      var j := r.subscriptions[k];
      assert j in b.subscriptions && j != id;
      var k' :| 0 <= k' < |b.subscriptions| && b.subscriptions[k'] == j;
    }
  }

  /** The publish channel was closed: close every live subscription, empty the
      list and leave the loop. */
  function StopStep<T>(b: Broker<T>): (r: Broker<T>)
    requires WellFormed(b)
    ensures WellFormed(r) && r.stopped
    ensures r.store == b.store && r.subscriptions == [] && |r.handles| == |b.handles|
    ensures forall j :: 0 <= j < |b.handles| ==>
              r.handles[j].closed && r.handles[j] == b.handles[j].(closed := true)
  {
    b.(subscriptions := [],
       handles := seq(|b.handles|, j requires 0 <= j < |b.handles| =>
                    if j in b.subscriptions then b.handles[j].(closed := true) else b.handles[j]),
       stopped := true)
  }

  /** One iteration of the loop; once it has exited nothing changes. */
  function Step<T>(b: Broker<T>, e: Event<T>): (r: Broker<T>)
    requires WellFormed(b)
    ensures WellFormed(r) && r.store.capacity == b.store.capacity
    ensures b.stopped ==> r == b
    ensures |b.handles| <= |r.handles|
    ensures forall j :: 0 <= j < |b.handles| ==> Follows(b.handles[j], r.handles[j])
  {
    if b.stopped then b
    else
      var r := match e
        case Publish(x) => PublishStep(b, x)
        case Subscribe(from) => SubscribeStep(b, from)
        case Unsubscribe(id) => UnsubscribeStep(b, id)
        case Stop => StopStep(b);
      StepFollows(b, e, r);
      r
  }

  lemma StepFollows<T>(b: Broker<T>, e: Event<T>, r: Broker<T>)
    requires WellFormed(b) && !b.stopped
    requires r == match e
      case Publish(x) => PublishStep(b, x)
      case Subscribe(from) => SubscribeStep(b, from)
      case Unsubscribe(id) => UnsubscribeStep(b, id)
      case Stop => StopStep(b)
    ensures |b.handles| <= |r.handles|
    ensures forall j :: 0 <= j < |b.handles| ==> Follows(b.handles[j], r.handles[j])
  {
    match e
    case Publish(x) =>
      forall j | 0 <= j < |b.handles| ensures Follows(b.handles[j], r.handles[j]) {
        if j in b.subscriptions {
          assert b.handles[j].delivered <= r.handles[j].delivered;
        }
      }
    case Subscribe(from) =>
      forall j | 0 <= j < |b.handles| ensures r.handles[j] == b.handles[j] {
        assert r.handles[..|b.handles|][j] == r.handles[j];
      }
    case Unsubscribe(id) =>
    case Stop =>
  }

  /** The loop run over a sequence of events in order. */
  function Run<T>(b: Broker<T>, es: seq<Event<T>>): (r: Broker<T>)
    requires WellFormed(b)
    ensures WellFormed(r) && r.store.capacity == b.store.capacity
    ensures b.stopped ==> r == b
    ensures |b.handles| <= |r.handles|
    ensures forall j :: 0 <= j < |b.handles| ==> Follows(b.handles[j], r.handles[j])
    decreases |es|
  {
    if es == [] then b
    else
      var b' := Step(b, es[0]);
      var r := Run(b', es[1..]);
      assert forall j :: 0 <= j < |b.handles| ==> Follows(b'.handles[j], r.handles[j]);
      r
  }

  /** The unsubscribe case of the loop as written: it ranges over the list while
      removing from it in place, so later iterations read the shifted backing
      array. With each subscription in the list at most once this removes
      exactly the requested one and closes exactly its channel. */
  method UnsubscribeLoop(subscriptions: seq<nat>, target: nat) returns (remaining: seq<nat>, closedIds: seq<nat>)
    requires Distinct(subscriptions)
    ensures remaining == Remove(subscriptions, target)
    ensures closedIds == if target in subscriptions then [target] else []
  {
    var n := |subscriptions|;
    var arr := subscriptions;  // the backing array read by the range loop
    var len := n;              // the length of the list slice
    closedIds := [];
    var i := 0;
    while i < n
      invariant 0 <= i <= n && |arr| == n
      invariant closedIds == [] ==> len == n && arr == subscriptions && target !in subscriptions[..i]
      invariant closedIds != [] ==>
                  && closedIds == [target] && target in subscriptions
                  && len == n - 1
                  && arr[..len] == Remove(subscriptions, target)
                  && forall j :: i <= j < n ==> arr[j] != target
    {
      var s := arr[i];
      if s == target {
        RemovalStep(subscriptions, target, i);
        arr := arr[..i] + arr[i + 1..len] + arr[len - 1..];
        len := len - 1;
        closedIds := closedIds + [s];
      } else if closedIds == [] {
        assert subscriptions[..i + 1] == subscriptions[..i] + [s];
      }
      i := i + 1;
    }
    remaining := arr[..len];
  }

  /** The iteration that meets the target, on the untouched array, leaves the
      list without it and no later slot holding it. */
  lemma RemovalStep(xs: seq<nat>, x: nat, i: nat)
    requires Distinct(xs) && i < |xs| && xs[i] == x && x !in xs[..i]
    ensures var a := xs[..i] + xs[i + 1..|xs|] + xs[|xs| - 1..];
            && |a| == |xs|
            && a[..|xs| - 1] == Remove(xs, x)
            && forall j :: i < j < |xs| ==> a[j] != x
  {
    IndexOfFirstOccurrence(xs, x, i);
    RemoveCutsOnePosition(xs, x);
    assert xs[i + 1..|xs|] == xs[i + 1..];
    ShiftDownAt(xs, i);
  }

  /** Go's `append(xs[:i], xs[i+1:]...)` on the backing array: the tail moves
      down one place and the last element stays where it was. */
  lemma ShiftDownAt(xs: seq<nat>, i: nat)
    requires i < |xs|
    ensures var a := xs[..i] + xs[i + 1..] + xs[|xs| - 1..];
            && |a| == |xs|
            && a[..|xs| - 1] == xs[..i] + xs[i + 1..]
            && (forall j :: i <= j < |xs| - 1 ==> a[j] == xs[j + 1])
            && a[|xs| - 1] == xs[|xs| - 1]
  {
    var a := xs[..i] + xs[i + 1..] + xs[|xs| - 1..];
    assert a[..|xs| - 1] == xs[..i] + xs[i + 1..];
  }
}
