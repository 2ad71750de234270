/**
  An indexed, push-only circular buffer of fixed capacity.

  The concrete state mirrors the Go structure: the physical slots (`msgs`, whose
  length grows up to its capacity and then stays there), the capacity of that
  slice, the absolute index `first` of the oldest element and `nextPointer`, the
  slot the next overwrite goes to. Its abstraction is the logical window
  `Messages`, oldest first, whose element k has absolute index `First + k`.

  `Get`, `Range` and `From` here are the corrected operations (the behaviour the
  doc comments describe); the code as written is modelled in `StoreAsWritten`.
*/
module MessageStore {
  import opened Wrappers
  import opened Bounds

  /** Why an operation did not produce a value. Only `IndexOutOfRange` is an
      error value the store returns; the others are Go runtime panics. */
  datatype Failure =
    | IndexOutOfRange   // the `IndexOutOfRange` error value returned by Get
    | InvalidCapacity   // the panic of NewMessageStore on a size below 1
    | IndexPanic        // a negative index into the slots
    | SliceBoundsPanic  // a slice expression whose low bound is negative or above its high bound

  datatype Store<T> = Store(slots: seq<T>, capacity: int, first: int, nextPointer: int)

  /** What every store built by `NewWithFirst` and `Push` satisfies. */
  ghost predicate Valid<T>(s: Store<T>) {
    && 1 <= s.capacity
    && |s.slots| <= s.capacity
    && 0 <= s.nextPointer < s.capacity
    && (|s.slots| < s.capacity ==> s.nextPointer == |s.slots|)
  }

  predicate Full<T>(s: Store<T>) {
    |s.slots| == s.capacity
  }

  /** NewMessageStoreWithFirst: an empty store of the given capacity whose first
      element will get absolute index `origin`; a capacity below 1 panics. */
  function NewWithFirst<T>(capacity: int, origin: int): (r: Result<Store<T>, Failure>)
    ensures r.Err? <==> capacity < 1
    ensures r.Err? ==> r.error == InvalidCapacity
    ensures r.Ok? ==> && Valid(r.value)
                      && r.value.capacity == capacity
                      && Messages(r.value) == []
                      && First(r.value) == origin
                      && Last(r.value) == First(r.value)
                      && Size(r.value) == 0
                      && r.value.nextPointer == 0
  {
    if capacity <= 0 then Err(InvalidCapacity)
    else Ok(Store([], capacity, origin, 0))
  }

  /** NewMessageStore: like `NewWithFirst` with the first index 0. */
  function New<T>(capacity: int): (r: Result<Store<T>, Failure>)
    ensures r.Err? <==> capacity < 1
    ensures r.Err? ==> r.error == InvalidCapacity
    ensures r.Ok? ==> && Valid(r.value)
                      && r.value.capacity == capacity
                      && Messages(r.value) == []
                      && Size(r.value) == 0 && First(r.value) == 0 && Last(r.value) == 0
                      && r.value.nextPointer == 0
  {
    NewWithFirst(capacity, 0)
  }

  /** inc: advance `nextPointer` by one slot, wrapping at the capacity. */
  function Inc<T>(s: Store<T>): (r: Store<T>)
    ensures r.slots == s.slots && r.capacity == s.capacity && r.first == s.first
    ensures 0 <= s.nextPointer < s.capacity ==> r.nextPointer == (s.nextPointer + 1) % s.capacity
  {
    assert 0 <= s.nextPointer < s.capacity ==>
             (s.nextPointer + 1) % s.capacity == if s.nextPointer + 1 < s.capacity then s.nextPointer + 1 else 0 by {
      if 0 <= s.nextPointer < s.capacity {
        IncWraps(s.nextPointer, s.capacity);
      }
    }
    if s.nextPointer + 1 >= s.capacity then s.(nextPointer := 0)
    else s.(nextPointer := s.nextPointer + 1)
  }

  /** One step past p, modulo c, is p + 1 or wraps to 0. */
  lemma IncWraps(p: int, c: int)
    requires 0 <= p < c
    ensures (p + 1) % c == if p + 1 < c then p + 1 else 0
  {
    if p + 1 < c {
      ModOfDecomposition(p + 1, c, 0, p + 1);
    } else {
      ModOfDecomposition(p + 1, c, 1, 0);
    }
  }

  /** Push: append while below capacity; once full, overwrite the slot of the
      oldest element and advance `first`. Either way `inc` runs afterwards. */
  function Push<T>(s: Store<T>, x: T): (r: Store<T>)
    requires Valid(s)
    ensures Valid(r) && r.capacity == s.capacity
    ensures Size(r) == Min(Size(s) + 1, s.capacity)
    ensures First(r) == if Full(s) then First(s) + 1 else First(s)
    ensures Messages(r) == (if Full(s) then Messages(s)[1..] else Messages(s)) + [x]
    ensures r.nextPointer == (s.nextPointer + 1) % s.capacity
  {
    var pushed :=
      if |s.slots| != s.capacity then s.(slots := s.slots + [x])
      else s.(slots := s.slots[s.nextPointer := x], first := s.first + 1);
    var r := Inc(pushed);
    PushSlidesWindow(s, x, r);
    r
  }

  lemma PushSlidesWindow<T>(s: Store<T>, x: T, r: Store<T>)
    requires Valid(s)
    requires r.capacity == s.capacity && r.first == (if Full(s) then s.first + 1 else s.first)
    requires r.nextPointer == (s.nextPointer + 1) % s.capacity
    requires r.slots == if Full(s) then s.slots[s.nextPointer := x] else s.slots + [x]
    ensures Valid(r)
    ensures Messages(r) == (if Full(s) then Messages(s)[1..] else Messages(s)) + [x]
  {
    IncWraps(s.nextPointer, s.capacity);
    if !Full(s) {
      AppendKeepsOrder(s, x, r);
    } else if s.nextPointer + 1 < s.capacity {
      OverwriteMidSlides(s, x, r);
    } else {
      OverwriteLastSlides(s, x, r);
    }
  }

  lemma AppendKeepsOrder<T>(s: Store<T>, x: T, r: Store<T>)
    requires Valid(s) && !Full(s)
    requires r.capacity == s.capacity
    requires r.nextPointer == if s.nextPointer + 1 < s.capacity then s.nextPointer + 1 else 0
    requires r.slots == s.slots + [x]
    ensures Valid(r) && Messages(r) == Messages(s) + [x]
  {
    if |r.slots| == r.capacity {
      assert r.nextPointer == 0;
      assert r.slots[0..] + r.slots[..0] == r.slots;
    }
  }

  lemma OverwriteMidSlides<T>(s: Store<T>, x: T, r: Store<T>)
    requires Valid(s) && Full(s) && s.nextPointer + 1 < s.capacity
    requires r.capacity == s.capacity && r.nextPointer == s.nextPointer + 1
    requires r.slots == s.slots[s.nextPointer := x]
    ensures Valid(r) && Messages(r) == Messages(s)[1..] + [x]
  {
    var p := s.nextPointer;
    var m := Messages(s);
    assert m == s.slots[p..] + s.slots[..p];
    assert m[1..] == s.slots[p + 1..] + s.slots[..p];
    assert r.slots[p + 1..] == s.slots[p + 1..];
    assert r.slots[..p + 1] == s.slots[..p] + [x];
  }

  lemma OverwriteLastSlides<T>(s: Store<T>, x: T, r: Store<T>)
    requires Valid(s) && Full(s) && s.nextPointer + 1 == s.capacity
    requires r.capacity == s.capacity && r.nextPointer == 0
    requires r.slots == s.slots[s.nextPointer := x]
    ensures Valid(r) && Messages(r) == Messages(s)[1..] + [x]
  {
    var p := s.nextPointer;
    var m := Messages(s);
    assert m == s.slots[p..] + s.slots[..p];
    assert m[1..] == s.slots[..p];
    assert r.slots == s.slots[..p] + [x];
    assert Messages(r) == r.slots[0..] + r.slots[..0];
    assert r.slots[0..] + r.slots[..0] == r.slots;
  }

  /** The physical slot that holds element k of the logical window: once the
      store has wrapped, the window starts at `nextPointer` and runs round the
      end of the slots. */
  function SlotOf<T>(s: Store<T>, k: int): (slot: nat)
    requires Valid(s) && 0 <= k < |s.slots|
    ensures slot < |s.slots|
  {
    if !Full(s) then k
    else if s.nextPointer + k < s.capacity then s.nextPointer + k
    else s.nextPointer + k - s.capacity
  }

  /** The slot of element k is k, or (nextPointer + k) mod capacity once full. */
  lemma SlotIsModulo<T>(s: Store<T>, k: int)
    requires Valid(s) && 0 <= k < |s.slots|
    ensures SlotOf(s, k) == if Full(s) then (s.nextPointer + k) % s.capacity else k
  {
    if Full(s) {
      if s.nextPointer + k < s.capacity {
        ModOfDecomposition(s.nextPointer + k, s.capacity, 0, s.nextPointer + k);
      } else {
        ModOfDecomposition(s.nextPointer + k, s.capacity, 1, s.nextPointer + k - s.capacity);
      }
    }
  }

  /** Messages: the resident payloads in the order they were pushed. */
  function Messages<T>(s: Store<T>): (r: seq<T>)
    requires Valid(s)
    ensures |r| == |s.slots|
  {
    if |s.slots| != s.capacity then s.slots
    else s.slots[s.nextPointer..] + s.slots[..s.nextPointer]
  }

  /** Element k of the window is read from physical slot SlotOf(s, k). */
  lemma MessagesReadSlots<T>(s: Store<T>)
    requires Valid(s)
    ensures forall k :: 0 <= k < |s.slots| ==> Messages(s)[k] == s.slots[SlotOf(s, k)]
  {
  }

  /** Messages holds exactly the payloads in the slots, each as often. */
  lemma MessagesPermuteSlots<T>(s: Store<T>)
    requires Valid(s)
    ensures multiset(Messages(s)) == multiset(s.slots)
  {
    if Full(s) {
      var p := s.nextPointer;
      assert s.slots == s.slots[..p] + s.slots[p..];
    }
  }

  /** Size: the number of resident elements. */
  function Size<T>(s: Store<T>): (r: nat)
    ensures Valid(s) ==> r <= s.capacity && r == |Messages(s)|
  {
    |s.slots|
  }

  /** Whether absolute index `i` is held by the store. */
  predicate Resident<T>(s: Store<T>, i: int) {
    s.first <= i < s.first + |s.slots|
  }

  /** First: the absolute index of the oldest resident element; when the store
      is empty, the index the next push will get. */
  function First<T>(s: Store<T>): (r: int)
    ensures |s.slots| > 0 ==> Resident(s, r) && !Resident(s, r - 1)
    ensures |s.slots| == 0 ==> r == Last(s)
  {
    s.first
  }

  /** Last: the absolute index of the newest element, or First when empty. */
  function Last<T>(s: Store<T>): (r: int)
    ensures |s.slots| > 0 ==> Resident(s, r) && !Resident(s, r + 1)
    ensures |s.slots| == 0 ==> r == s.first && !Resident(s, r)
  {
    if |s.slots| == 0 then s.first else s.first + |s.slots| - 1
  }

  /** Get, corrected: the element with absolute index `i`, read through the slot
      mapping that starts at `nextPointer` once the store has wrapped. */
  function Get<T>(s: Store<T>, i: int): (r: Result<T, Failure>)
    requires Valid(s)
    ensures r.Err? <==> (i < First(s) || i >= First(s) + Size(s) || Size(s) == 0)
    ensures r.Err? ==> r.error == IndexOutOfRange
    ensures r.Ok? ==> r.value == Messages(s)[i - First(s)]
  {
    if i < s.first || i >= s.first + |s.slots| || |s.slots| == 0 then Err(IndexOutOfRange)
    else
      MessagesReadSlots(s);
      Ok(s.slots[SlotOf(s, i - s.first)])
  }

  /** A resident index reads its place in the window. */
  lemma GetReadsWindow<T>(s: Store<T>, i: int)
    requires Valid(s) && First(s) <= i < First(s) + Size(s)
    ensures Get(s, i) == Ok(Messages(s)[i - First(s)])
  {
  }

  /** Range, corrected: the resident elements whose index lies in [from, to),
      in index order. */
  function Range<T>(s: Store<T>, from: int, to: int): (r: seq<T>)
    requires Valid(s)
    ensures |r| == Max(0, Min(to, First(s) + Size(s)) - Max(from, First(s)))
    ensures |r| <= Max(0, to - from)
    ensures var lo := Max(from, First(s)) - First(s);
            |r| > 0 ==> lo + |r| <= Size(s) && r == Messages(s)[lo..lo + |r|]
  {
    if |s.slots| == 0 || to < s.first || from > s.first + |s.slots| then []
    else
      var lo := Max(from, s.first) - s.first;
      var hi := Min(to - s.first, |s.slots|);
      if lo >= hi then [] else Messages(s)[lo..hi]
  }

  /** From, corrected: every resident element whose index is at least `from`. */
  function From<T>(s: Store<T>, from: int): (r: seq<T>)
    requires Valid(s)
    ensures r == Messages(s)[Clamp(from, First(s), First(s) + Size(s)) - First(s)..]
  {
    RangeToEndIsSuffix(s, from);
    Range(s, from, First(s) + Size(s))
  }

  lemma RangeToEndIsSuffix<T>(s: Store<T>, from: int)
    requires Valid(s)
    ensures Range(s, from, First(s) + Size(s)) == Messages(s)[Clamp(from, First(s), First(s) + Size(s)) - First(s)..]
  {
    var m := Messages(s);
    var F, S := s.first, |s.slots|;
    var r := Range(s, from, F + S);
    var lo := Clamp(from, F, F + S) - F;
    assert 0 <= lo <= S;
    assert |r| == S - lo;
    if |r| > 0 {
      assert lo == Max(from, F) - F;
      assert r == m[lo..S];
      assert m[lo..S] == m[lo..];
    } else {
      assert m[lo..] == [];
    }
  }

  /** Push every element of `xs` in order. */
  function PushAll<T>(s: Store<T>, xs: seq<T>): (r: Store<T>)
    requires Valid(s)
    ensures Valid(r) && r.capacity == s.capacity
  {
    if xs == [] then s else Push(PushAll(s, xs[..|xs| - 1]), xs[|xs| - 1])
  }

  /** The state a store of capacity c with first index `origin` reaches after
      the payloads `xs` have been pushed into it. */
  ghost predicate HoldsLastPushes<T>(s: Store<T>, c: int, origin: int, xs: seq<T>)
    requires Valid(s) && c >= 1
  {
    && s.capacity == c
    && Size(s) == Min(|xs|, c)
    && First(s) == origin + Max(0, |xs| - c)
    && Messages(s) == xs[|xs| - Min(|xs|, c)..]
    && s.nextPointer == |xs| % c
    && Last(s) == origin + Max(0, |xs| - 1)
  }

  /** After n pushes into a fresh store of capacity c, it holds the last min(n, c)
      payloads oldest first, `first` has moved past the n - c evicted ones and
      `nextPointer` is n mod c. */
  lemma {:induction false} PushAllWindow<T>(c: int, origin: int, xs: seq<T>)
    requires c >= 1
    ensures HoldsLastPushes(PushAll(NewWithFirst<T>(c, origin).value, xs), c, origin, xs)
  {
    if xs != [] {
      var n := |xs|;
      var ys, x := xs[..n - 1], xs[n - 1];
      assert ys + [x] == xs;
      PushAllWindow(c, origin, ys);
      var s := PushAll(NewWithFirst<T>(c, origin).value, ys);
      PushExtendsHistory(s, c, origin, ys, x);
    }
  }

  lemma PushExtendsHistory<T>(s: Store<T>, c: int, origin: int, ys: seq<T>, x: T)
    requires Valid(s) && c >= 1 && HoldsLastPushes(s, c, origin, ys)
    ensures HoldsLastPushes(Push(s, x), c, origin, ys + [x])
  {
    var r := Push(s, x);
    var n := |ys|;
    ModSucc(n, c);
    assert Full(s) <==> n >= c;
    SuffixAfterSnoc(Messages(s), ys, x, c);
    assert Size(r) == Min(n + 1, c);
    assert First(r) == origin + Max(0, n + 1 - c);
  }

  /** The last min(n, c) of n payloads, slid on by one more payload, are the
      last min(n + 1, c) of the n + 1. */
  lemma SuffixAfterSnoc<T>(m: seq<T>, ys: seq<T>, x: T, c: int)
    requires c >= 1 && m == ys[|ys| - Min(|ys|, c)..]
    ensures (if |ys| >= c then m[1..] else m) + [x] == (ys + [x])[|ys| + 1 - Min(|ys| + 1, c)..]
  {
    var n := |ys|;
    if n >= c {
      assert m[1..] == ys[n - c + 1..];
      assert (ys + [x])[n + 1 - c..] == ys[n - c + 1..] + [x];
    } else {
      assert (ys + [x])[0..] == ys[0..] + [x];
    }
  }

  lemma MulAtLeast(k: int, c: int)
    requires k >= 1 && c >= 1
    ensures k * c >= c
  {
    assert k * c == (k - 1) * c + c;
    assert (k - 1) * c >= 0;
  }

  lemma ModOfDecomposition(a: int, c: int, q: int, r: int)
    requires c >= 1 && 0 <= r < c && a == q * c + r
    ensures a % c == r
  {
    var q', r' := a / c, a % c;
    assert a == q' * c + r';
    assert q * c - q' * c == r' - r;
    assert (q - q') * c == q * c - q' * c;
    if q > q' {
      MulAtLeast(q - q', c);
    } else if q < q' {
      MulAtLeast(q' - q, c);
    }
  }

  lemma ModSucc(a: nat, c: int)
    requires c >= 1
    ensures (a % c + 1) % c == (a + 1) % c
  {
    var q, r := a / c, a % c;
    assert a == q * c + r;
    if r + 1 < c {
      ModOfDecomposition(a + 1, c, q, r + 1);
      ModOfDecomposition(r + 1, c, 0, r + 1);
    } else {
      assert (q + 1) * c == q * c + c;
      ModOfDecomposition(a + 1, c, q + 1, 0);
      ModOfDecomposition(r + 1, c, 1, 0);
    }
  }

  /** First and Last name the two ends of the window: each reads the oldest and
      newest payload, and the indices just outside them are not resident. */
  lemma FirstAndLastAreEnds<T>(s: Store<T>)
    requires Valid(s)
    ensures Size(s) == 0 ==> Last(s) == First(s) && Get(s, First(s)).Err?
    ensures Size(s) > 0 ==> && Last(s) == First(s) + Size(s) - 1
                            && Get(s, First(s)) == Ok(Messages(s)[0])
                            && Get(s, Last(s)) == Ok(Messages(s)[Size(s) - 1])
                            && Get(s, First(s) - 1).Err?
                            && Get(s, Last(s) + 1).Err?
  {
  }

  /** While the store is filling, `nextPointer` is its size; once full it is the
      slot of the oldest element, the one the next push overwrites. */
  lemma NextPointerNamesOldest<T>(s: Store<T>)
    requires Valid(s)
    ensures !Full(s) ==> s.nextPointer == Size(s)
    ensures Full(s) ==> Messages(s)[0] == s.slots[s.nextPointer]
  {
    if Full(s) {
      MessagesReadSlots(s);
    }
  }

  /** The pushed payload is found at Last afterwards. */
  lemma PushedIsLast<T>(s: Store<T>, x: T)
    requires Valid(s)
    ensures Get(Push(s, x), Last(Push(s, x))) == Ok(x)
    ensures Last(Push(s, x)) == (if Size(s) == 0 then First(s) else Last(s) + 1)
  {
    var r := Push(s, x);
    var m := Messages(r);
    assert m[|m| - 1] == x;
    assert Last(r) == First(r) + Size(r) - 1;
    GetReadsWindow(r, Last(r));
  }

  /** From(k) is the code's Range(k, k + Size) whenever k is not below First. */
  lemma FromIsRangeOfSize<T>(s: Store<T>, k: int)
    requires Valid(s)
    ensures First(s) <= k ==> From(s, k) == Range(s, k, k + Size(s))
  {
  }
}
