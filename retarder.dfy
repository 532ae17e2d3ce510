/**
 * The retarder (`pkg/helper/retarder`): a ring of `N` buckets and a cursor.
 * `Add` drops a payload into the bucket `delay` steps ahead of the cursor;
 * every tick empties the bucket under the cursor, moves the cursor one step
 * and hands the emptied bucket's payloads to the callback, in the order they
 * were added. The buckets and the cursor are described by the value `Wheel`;
 * the class `Retarder` keeps them in an array and a field and is proved to
 * follow `AddSpec` and `TickSpec`.
 */
module Retarder {

  const DefaultRingBuffer := 100

  /** The abstract state: the buckets, in ring order, and the cursor. */
  datatype Wheel<T> = Wheel(buckets: seq<seq<T>>, cursor: int)

  ghost predicate WheelValid<T>(w: Wheel<T>) {
    |w.buckets| > 0 && 0 <= w.cursor < |w.buckets|
  }

  /** The errors `Add` reports; `IndexOutOfRange` stands for the run-time
      panic Go raises when a negative delay yields a negative bucket index. */
  datatype AddError = NoError | OverMaximumLength | InvalidTime | IndexOutOfRange

  /** Go's `%` on integers, which truncates toward zero, so a negative
      dividend gives a non-positive remainder. */
  function GoRem(a: int, n: int): (r: int)
    requires n > 0
    ensures a >= 0 ==> 0 <= r < n
    ensures a < 0 ==> -n < r <= 0
    ensures 0 <= a < n ==> r == a
    ensures n <= a < 2 * n ==> r == a - n
    ensures -n < a < 0 ==> r == a
  {
    ModSmall(a, n);
    ModSmall(-a, n);
    if a >= 0 then a % n else -((-a) % n)
  }

  /** Euclidean `%` on a dividend below twice the divisor. */
  lemma ModSmall(a: int, n: int)
    requires n > 0
    ensures 0 <= a < n ==> a % n == a
    ensures n <= a < 2 * n ==> a % n == a - n
  {
    if n <= a < 2 * n {
      assert (a - n) % n == a % n;
    }
  }

  /** `Add`: the size check comes first, then the zero check; an accepted
      delay appends the payload at the end of bucket `(cursor + delay) % N`. */
  function AddSpec<T>(w: Wheel<T>, delay: int, data: T): (r: (Wheel<T>, AddError))
    requires WheelValid(w)
  {
    var n := |w.buckets|;
    if delay > n then (w, OverMaximumLength)
    else if delay == 0 then (w, InvalidTime)
    else
      var p := GoRem(w.cursor + delay, n);
      if p < 0 then (w, IndexOutOfRange)
      else (w.(buckets := w.buckets[p := w.buckets[p] + [data]]), NoError)
  }

  /** One tick of `Run`: swap the cursor's bucket for an empty one, advance
      the cursor, and yield the swapped-out payloads. */
  function TickSpec<T>(w: Wheel<T>): (r: (Wheel<T>, seq<T>))
    requires WheelValid(w)
    ensures WheelValid(r.0)
  {
    (Wheel(w.buckets[w.cursor := []], (w.cursor + 1) % |w.buckets|), w.buckets[w.cursor])
  }

  /** The state after `k` ticks. */
  function TickN<T>(w: Wheel<T>, k: nat): (r: Wheel<T>)
    requires WheelValid(w)
    ensures WheelValid(r) && |r.buckets| == |w.buckets|
    decreases k
  {
    if k == 0 then w else TickN(TickSpec(w).0, k - 1)
  }

  /** The number of payloads stored. */
  function Total<T>(buckets: seq<seq<T>>): nat
  {
    if |buckets| == 0 then 0 else |buckets[0]| + Total(buckets[1..])
  }

  /** Ticks from the cursor `c` until the cursor reaches bucket `b`. */
  function Distance(c: int, b: int, n: int): int
  {
    if b >= c then b - c else b - c + n
  }

  /** A rejected `Add` reports why and leaves the wheel alone: a delay over
      the ring length is "over maximum length" (checked first), a zero
      delay is "invalid time". */
  lemma AddRejects<T>(w: Wheel<T>, delay: int, data: T)
    requires WheelValid(w)
    requires delay > |w.buckets| || delay == 0
    ensures AddSpec(w, delay, data).0 == w
    ensures AddSpec(w, delay, data).1 == if delay > |w.buckets| then OverMaximumLength else InvalidTime
  {
  }

  /** An accepted `Add` appends the payload to the end of bucket
      `(cursor + delay) mod N` and changes neither the cursor nor any other bucket. */
  lemma AddAccepts<T>(w: Wheel<T>, delay: int, data: T)
    requires WheelValid(w)
    requires 1 <= delay <= |w.buckets|
    ensures var (w', err) := AddSpec(w, delay, data);
      var p := (w.cursor + delay) % |w.buckets|;
      && err == NoError
      && w'.cursor == w.cursor
      && |w'.buckets| == |w.buckets|
      && w'.buckets[p] == w.buckets[p] + [data]
      && forall i :: 0 <= i < |w.buckets| && i != p ==> w'.buckets[i] == w.buckets[i]
  {
  }

  /** A negative delay passes both checks. While `cursor + delay` stays
      non-negative it lands in a bucket behind the cursor; just below that
      Go's truncating `%` gives a negative index and the program panics. */
  lemma AddNegativeDelay<T>(w: Wheel<T>, delay: int, data: T)
    requires WheelValid(w) && delay < 0
    ensures w.cursor + delay >= 0 ==>
      AddSpec(w, delay, data) == (w.(buckets := w.buckets[w.cursor + delay := w.buckets[w.cursor + delay] + [data]]), NoError)
    ensures -|w.buckets| < w.cursor + delay < 0 ==> AddSpec(w, delay, data) == (w, IndexOutOfRange)
  {
  }

  lemma {:induction false} TotalUpdate<T>(buckets: seq<seq<T>>, i: nat, x: seq<T>)
    requires i < |buckets|
    ensures Total(buckets[i := x]) == Total(buckets) - |buckets[i]| + |x|
  {
    if i > 0 {
      assert buckets[i := x][1..] == buckets[1..][i - 1 := x];
      TotalUpdate(buckets[1..], i - 1, x);
    } else {
      assert buckets[i := x][1..] == buckets[1..];
    }
  }

  /** Stored payloads grow by one per accepted `Add` and shrink by the size of
      the drained bucket per tick. */
  lemma TotalAccounting<T>(w: Wheel<T>, delay: int, data: T)
    requires WheelValid(w)
    ensures AddSpec(w, delay, data).1 == NoError ==>
      Total(AddSpec(w, delay, data).0.buckets) == Total(w.buckets) + 1
    ensures AddSpec(w, delay, data).1 != NoError ==> AddSpec(w, delay, data).0 == w
    ensures Total(TickSpec(w).0.buckets) == Total(w.buckets) - |TickSpec(w).1|
  {
    var n := |w.buckets|;
    if 1 <= delay <= n || (delay < 0 && w.cursor + delay >= 0) {
      var p := GoRem(w.cursor + delay, n);
      if p >= 0 {
        TotalUpdate(w.buckets, p, w.buckets[p] + [data]);
      }
    }
    TotalUpdate(w.buckets, w.cursor, []);
  }

  /** A tick drains exactly the cursor's bucket, empties it, leaves the other
      buckets alone and moves the cursor one step, staying inside the ring. */
  lemma TickDrainsCursor<T>(w: Wheel<T>)
    requires WheelValid(w)
    ensures var (w', drained) := TickSpec(w);
      && drained == w.buckets[w.cursor]
      && w'.buckets[w.cursor] == []
      && (forall i :: 0 <= i < |w.buckets| && i != w.cursor ==> w'.buckets[i] == w.buckets[i])
      && w'.cursor == (if w.cursor + 1 == |w.buckets| then 0 else w.cursor + 1)
      && 0 <= w'.cursor < |w.buckets|
  {
  }

  /** Until the cursor reaches bucket `b`, ticking leaves `b` alone; after
      `Distance` ticks the cursor stands on `b`. */
  lemma {:induction false} TicksReachBucket<T>(w: Wheel<T>, b: int, j: nat)
    requires WheelValid(w) && 0 <= b < |w.buckets|
    requires j <= Distance(w.cursor, b, |w.buckets|)
    ensures TickN(w, j).buckets[b] == w.buckets[b]
    ensures TickN(w, j).cursor == if w.cursor + j < |w.buckets| then w.cursor + j else w.cursor + j - |w.buckets|
    decreases j
  {
    if j > 0 {
      var w1 := TickSpec(w).0;
      TickDrainsCursor(w);
      assert w.cursor != b;
      assert Distance(w1.cursor, b, |w.buckets|) == Distance(w.cursor, b, |w.buckets|) - 1;
      TicksReachBucket(w1, b, j - 1);
    }
  }

  /** A payload added with delay `d` (1 <= d < N) is handed out on the
      (d+1)-th tick after the `Add`; with d == N it lands in the cursor's own
      bucket and is handed out on the very next tick. In both cases the
      earlier ticks drain other buckets. */
  lemma DrainedAfterDelay<T>(w: Wheel<T>, d: int, x: T)
    requires WheelValid(w) && 1 <= d <= |w.buckets|
    ensures var w' := AddSpec(w, d, x).0;
      var p := (w.cursor + d) % |w.buckets|;
      var waits := if d < |w.buckets| then d else 0;
      && TickSpec(TickN(w', waits)).1 == w.buckets[p] + [x]
      && forall j :: 0 <= j < waits ==> TickN(w', j).cursor != p
  {
    var n := |w.buckets|;
    var w' := AddSpec(w, d, x).0;
    var p := (w.cursor + d) % n;
    var waits := if d < n then d else 0;
    assert w.cursor + d < 2 * n;
    assert p == GoRem(w.cursor + d, n);
    assert Distance(w.cursor, p, n) == waits;
    TicksReachBucket(w', p, waits);
    forall j | 0 <= j < waits ensures TickN(w', j).cursor != p {
      TicksReachBucket(w', p, j);
    }
  }

  /** `retarder.Retarder`: the ring buffer, its length and the cursor `p`. */
  class Retarder<T> {
    var p: int
    const ringBufferLen: int
    const ringBuffer: array<seq<T>>

    ghost predicate Valid()
      reads this
    {
      ringBufferLen == ringBuffer.Length && ringBufferLen > 0 && 0 <= p < ringBufferLen
    }

    /** The buckets and cursor as a `Wheel`. */
    ghost function State(): (w: Wheel<T>)
      reads this, ringBuffer
      requires Valid()
      ensures WheelValid(w)
    {
      Wheel(ringBuffer[..], p)
    }

    /** `New`: a zero length means the default of 100 buckets. A negative
        length makes Go's `make` panic, so it is excluded. */
    constructor (bl: int)
      requires bl >= 0
      ensures Valid() && fresh(ringBuffer)
      ensures ringBufferLen == if bl == 0 then DefaultRingBuffer else bl
      ensures State() == Wheel(seq(ringBufferLen, _ => []), 0)
    {
      var n := if bl == 0 then DefaultRingBuffer else bl;
      ringBufferLen := n;
      ringBuffer := new seq<T>[n](_ => []);
      p := 0;
    }

    /** `Add`. */
    method Add(data: T, time: int) returns (err: AddError)
      requires Valid()
      modifies ringBuffer
      ensures Valid()
      ensures (State(), err) == AddSpec(old(State()), time, data)
    {
      if time > ringBufferLen {
        return OverMaximumLength;
      }
      if time == 0 {
        return InvalidTime;
      }
      var idx := GoRem(p + time, ringBufferLen);
      if idx < 0 {
        return IndexOutOfRange;
      }
      ringBuffer[idx] := ringBuffer[idx] + [data];
      err := NoError;
    }

    /** One tick of `Run` (lines taking the lock, swapping the bucket and
        advancing the cursor); the result is what `call` hands to the
        callback, one payload at a time, in order. */
    method Tick() returns (carriers: seq<T>)
      requires Valid()
      modifies this, ringBuffer
      ensures Valid()
      ensures (State(), carriers) == TickSpec(old(State()))
    {
      carriers := ringBuffer[p];
      ringBuffer[p] := [];
      p := (p + 1) % ringBufferLen;
    }
  }
}
