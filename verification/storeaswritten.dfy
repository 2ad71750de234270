/**
  The store's lookups exactly as the Go code computes them, beside the
  corrected operations of `MessageStore`, with the inputs on which the two part.

  - Get reads the raw slot `msgs[offset]`, or `msgs[offset-cap]` (a negative
    index, so a runtime panic) when `nextPointer + offset` exceeds the capacity;
    it never starts the mapping at `nextPointer`.
  - Range slices the window at `from - first`, which is negative when `from`
    lies below First, and above the high bound when `from` exceeds `to`.
  - From is Range(from, from + len), which below First either panics or
    returns nothing at all.
  - The loop's subscribe case sends From(from), so a subscription below First
    on a non-empty store crashes the loop or is sent no backlog.
*/
module StoreAsWritten {
  import opened Wrappers
  import opened Bounds
  import opened MessageStore
  import opened MessageBroker

  /** Get as written. */
  function GetAsWritten<T>(s: Store<T>, i: int): (r: Result<T, Failure>)
    requires Valid(s)
    ensures r == Err(IndexOutOfRange) <==> !Resident(s, i)
    ensures r == Err(IndexPanic) <==> Resident(s, i) && s.nextPointer + (i - First(s)) > s.capacity
    ensures r.Err? ==> r.error == IndexOutOfRange || r.error == IndexPanic
    ensures r.Ok? && (!Full(s) || s.nextPointer == 0) ==> r == Get(s, i)
  {
    if i < s.first || i >= s.first + |s.slots| || |s.slots| == 0 then Err(IndexOutOfRange)
    else
      var offset := i - s.first;
      if s.nextPointer + offset <= s.capacity then Ok(s.slots[offset])
      else Err(IndexPanic)  // msgs[offset-cap]: offset < cap, so the index is negative
  }

  /** Range as written: the early return, then Messages()[from-first : min(to-first, len)]. */
  function RangeAsWritten<T>(s: Store<T>, from: int, to: int): (r: Result<seq<T>, Failure>)
    requires Valid(s)
    ensures r.Err? <==> && !(Size(s) == 0 || to < First(s) || from > First(s) + Size(s))
                        && (from < First(s) || from > to)
    ensures r.Err? ==> r.error == SliceBoundsPanic
    ensures r.Ok? ==> r.value == Range(s, from, to)
  {
    if |s.slots| == 0 || to < s.first || from > s.first + |s.slots| then Ok([])
    else
      var lo := from - s.first;
      var hi := Min(to - s.first, |s.slots|);
      if lo < 0 || lo > hi then Err(SliceBoundsPanic)
      else Ok(Messages(s)[lo..hi])
  }

  /** From as written: Range(from, from + len). */
  function FromAsWritten<T>(s: Store<T>, from: int): (r: Result<seq<T>, Failure>)
    requires Valid(s)
    ensures First(s) <= from ==> r == Ok(From(s, from))
    ensures r.Err? <==> Size(s) > 0 && from < First(s) <= from + Size(s)
    ensures from + Size(s) < First(s) ==> r == Ok([])
  {
    var r := RangeAsWritten(s, from, from + |s.slots|);
    assert First(s) <= from ==> r == Ok(From(s, from)) by {
      if First(s) <= from {
        FromIsRangeOfSize(s, from);
        assert r.Ok?;
      }
    }
    r
  }

  /** The subscribe case of the loop as written: From(s.first), each element
      labelled `s.first + i`. */
  function ReplayAsWritten<T>(store: Store<T>, from: int): (r: Result<seq<Message<T>>, Failure>)
    requires Valid(store)
    ensures First(store) <= from ==> r == Ok(Replay(store, from))
    ensures r.Err? <==> Size(store) > 0 && from < First(store) <= from + Size(store)
    ensures r.Err? ==> r.error == SliceBoundsPanic
    ensures from + Size(store) < First(store) ==> r == Ok([])
  {
    match FromAsWritten(store, from)
    case Err(e) => Err(e)
    case Ok(msgs) =>
      assert First(store) <= from ==> Tag(from, msgs) == Replay(store, from) by {
        if First(store) <= from {
          TaggedFromIsReplay(store, from);
        }
      }
      Ok(Tag(from, msgs))
  }

  /** From a start not below First, labelling From(from) from `from` on is the
      corrected replay. */
  lemma TaggedFromIsReplay<T>(store: Store<T>, from: int)
    requires MessageStore.Valid(store) && First(store) <= from
    ensures Tag(from, From(store, from)) == Replay(store, from)
  {
    var F, S := First(store), Size(store);
    if from <= F + S {
      assert Clamp(from, F, F + S) == from;
    } else {
      assert From(store, from) == [];
    }
  }

  /** The subscribe case of the loop as written: append the subscription to the
      live list, then send it the backlog as written; a panic while building
      the backlog crashes the loop. */
  function SubscribeStepAsWritten<T>(b: Broker<T>, from: int): (r: Result<Broker<T>, Failure>)
    requires WellFormed(b) && !b.stopped
    ensures r.Err? <==> Size(b.store) > 0 && from < First(b.store) <= from + Size(b.store)
    ensures r.Err? ==> r.error == SliceBoundsPanic
    ensures First(b.store) <= from ==> r == Ok(SubscribeStep(b, from))
    ensures from + Size(b.store) < First(b.store) ==>
              && r.Ok? && r.value.store == b.store
              && r.value.subscriptions == b.subscriptions + [|b.handles|]
              && r.value.handles == b.handles + [Subscription(from, [], false)]
  {
    match ReplayAsWritten(b.store, from)
    case Err(e) => Err(e)
    case Ok(log) =>
      var r := b.(subscriptions := b.subscriptions + [|b.handles|],
                  handles := b.handles + [Subscription(from, log, false)]);
      assert First(b.store) <= from ==> r == SubscribeStep(b, from) by {
        if First(b.store) <= from {
          var q := SubscribeStep(b, from);
          assert q.handles == q.handles[..|b.handles|] + [q.handles[|b.handles|]];
        }
      }
      Ok(r)
  }

  /** Once the store has wrapped, Get returns a payload other than the one with
      the requested index: capacity 2, pushes 10, 11, 12, then Get(1). */
  lemma GetReadsStaleSlot()
    ensures var s := Push(Push(Push(New<int>(2).value, 10), 11), 12);
            && Messages(s) == [11, 12] && First(s) == 1
            && GetAsWritten(s, 1) == Ok(12)
            && Get(s, 1) == Ok(11)
  {
    var s0 := New<int>(2).value;
    assert s0 == Store([], 2, 0, 0);
    var s1 := Push(s0, 10);
    assert s1 == Store([10], 2, 0, 1);
    var s2 := Push(s1, 11);
    assert s2 == Store([10, 11], 2, 0, 0);
    var s3 := Push(s2, 12);
    assert s3 == Store([12, 11], 2, 1, 1);
    assert Messages(s3) == [11, 12];
    assert GetAsWritten(s3, 1) == Ok(12);
  }

  /** Get panics on a store that is not even full: capacity 4, pushes 10, 11,
      12, then Get(2). */
  lemma GetPanicsBeforeFull()
    ensures var s := Push(Push(Push(New<int>(4).value, 10), 11), 12);
            && !Full(s) && Messages(s) == [10, 11, 12]
            && GetAsWritten(s, 2) == Err(IndexPanic)
            && Get(s, 2) == Ok(12)
  {
    var s0 := New<int>(4).value;
    assert s0 == Store([], 4, 0, 0);
    var s1 := Push(s0, 10);
    assert s1 == Store([10], 4, 0, 1);
    var s2 := Push(s1, 11);
    assert s2 == Store([10, 11], 4, 0, 2);
    var s3 := Push(s2, 12);
    assert s3 == Store([10, 11, 12], 4, 0, 3);
  }

  /** Range panics when `from` lies below First: capacity 2, pushes 10, 11, 12
      (First is 1), then Range(0, 2). */
  lemma RangePanicsBelowFirst()
    ensures var s := Push(Push(Push(New<int>(2).value, 10), 11), 12);
            && First(s) == 1
            && RangeAsWritten(s, 0, 2) == Err(SliceBoundsPanic)
            && Range(s, 0, 2) == [11]
  {
    var s0 := New<int>(2).value;
    assert s0 == Store([], 2, 0, 0);
    var s1 := Push(s0, 10);
    assert s1 == Store([10], 2, 0, 1);
    var s2 := Push(s1, 11);
    assert s2 == Store([10, 11], 2, 0, 0);
    var s3 := Push(s2, 12);
    assert s3 == Store([12, 11], 2, 1, 1);
    assert Messages(s3) == [11, 12];
  }

  /** Range panics when `from` exceeds `to` inside the window: first index 10,
      pushes 1 and 2, then Range(11, 10). */
  lemma RangePanicsOnReversedBounds()
    ensures var s := Push(Push(NewWithFirst<int>(2, 10).value, 1), 2);
            && RangeAsWritten(s, 11, 10) == Err(SliceBoundsPanic)
            && Range(s, 11, 10) == []
  {
  }

  /** From below First returns nothing although newer messages are resident:
      capacity 1, pushes 10, 11, 12 (First is 2), then From(0); a subscription
      from index 0 is replayed nothing. */
  lemma FromSkipsResidentHistory()
    ensures var s := Push(Push(Push(New<int>(1).value, 10), 11), 12);
            && First(s) == 2 && Messages(s) == [12]
            && FromAsWritten(s, 0) == Ok([])
            && ReplayAsWritten(s, 0) == Ok([])
            && From(s, 0) == [12]
            && Replay(s, 0) == [Message(2, 12)]
  {
    var s0 := New<int>(1).value;
    assert s0 == Store([], 1, 0, 0);
    var s1 := Push(s0, 10);
    assert s1 == Store([10], 1, 0, 0);
    var s2 := Push(s1, 11);
    assert s2 == Store([11], 1, 1, 0);
    var s3 := Push(s2, 12);
    assert s3 == Store([12], 1, 2, 0);
    assert Messages(s3) == [12];
    assert From(s3, 0) == [12];
  }

  /** One iteration of the loop as written: only the subscribe case differs
      from the corrected `Step`, and only for a start index below First. */
  function StepAsWritten<T>(b: Broker<T>, e: Event<T>): (r: Result<Broker<T>, Failure>)
    requires WellFormed(b)
    ensures r.Err? <==> && !b.stopped && e.Subscribe?
                        && Size(b.store) > 0 && e.from < First(b.store) <= e.from + Size(b.store)
    ensures !(e.Subscribe? && e.from < First(b.store)) ==> r == Ok(Step(b, e))
  {
    if !b.stopped && e.Subscribe? then
      assert Step(b, e) == SubscribeStep(b, e.from);
      SubscribeStepAsWritten(b, e.from)
    else Ok(Step(b, e))
  }

  /** A subscription from index 0 once index 0 has been evicted crashes the
      loop: capacity 2, publishes 10, 11, 12 (First is 1), then Subscribe(0).
      The corrected step sends it (1, 11) and (2, 12). */
  lemma SubscribeBelowFirstPanics()
    ensures Push(Push(Push(New<int>(2).value, 10), 11), 12) == Store([12, 11], 2, 1, 1)
    ensures var b := Broker(Store([12, 11], 2, 1, 1), [], [], false);
            && WellFormed(b)
            && SubscribeStepAsWritten(b, 0) == Err(SliceBoundsPanic)
            && SubscribeStep(b, 0).handles[0].delivered == [Message(1, 11), Message(2, 12)]
  {
    var s0 := New<int>(2).value;
    assert s0 == Store([], 2, 0, 0);
    var s1 := Push(s0, 10);
    assert s1 == Store([10], 2, 0, 1);
    var s2 := Push(s1, 11);
    assert s2 == Store([10, 11], 2, 0, 0);
    var s3 := Push(s2, 12);
    assert s3 == Store([12, 11], 2, 1, 1);
    assert Messages(s3) == [11, 12];
    var b := Broker(s3, [], [], false);
    assert SubscribeStep(b, 0).handles[0] == Subscription(0, Replay(s3, 0), false);
  }
}
