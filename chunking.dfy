/** Draining a snapshot of queued work a fixed number of items per animation
    frame, as both drains of src/components/ExtraButton.ts do. */
module Chunking {

  /** `Math.min(index + size, len)`: where the chunk starting at `index` stops. */
  function ChunkEnd(index: nat, len: nat, size: nat): (e: nat)
    requires index <= len && size > 0
    ensures index <= e <= len
    ensures e - index <= size
    ensures e == len || e == index + size
  {
    if index + size < len then index + size else len
  }

  /** The slices of `s` that successive calls of processChunk handle when the
      first call starts at `index`: the first call always runs, and each call
      schedules the next while items remain. */
  function Chunks<T>(s: seq<T>, index: nat, size: nat): seq<seq<T>>
    requires index <= |s| && size > 0
    decreases |s| - index
  {
    var e := ChunkEnd(index, |s|, size);
    [s[index..e]] + (if e < |s| then Chunks(s, e, size) else [])
  }

  function Flatten<T>(cs: seq<seq<T>>): seq<T> {
    if cs == [] then [] else cs[0] + Flatten(cs[1..])
  }

  /** Every item from `index` on is handled exactly once, in order: the
      chunks laid end to end are the rest of the snapshot. */
  lemma {:induction false} ChunksCoverOnce<T>(s: seq<T>, index: nat, size: nat)
    requires index <= |s| && size > 0
    ensures Flatten(Chunks(s, index, size)) == s[index..]
    decreases |s| - index
  {
    var e := ChunkEnd(index, |s|, size);
    var cs := Chunks(s, index, size);
    if e < |s| {
      ChunksCoverOnce(s, e, size);
      assert cs[1..] == Chunks(s, e, size);
      assert s[index..] == s[index..e] + s[e..];
    } else {
      assert cs[1..] == [];
    }
  }

  /** Every chunk but the last is full, the last is non-empty unless the
      snapshot was, and no chunk exceeds the size. */
  lemma {:induction false} ChunkSizes<T>(s: seq<T>, index: nat, size: nat)
    requires index <= |s| && size > 0
    ensures var cs := Chunks(s, index, size);
      (forall k :: 0 <= k < |cs| - 1 ==> |cs[k]| == size)
      && |cs[|cs| - 1]| <= size
      && (index < |s| ==> |cs[|cs| - 1]| > 0)
    decreases |s| - index
  {
    var e := ChunkEnd(index, |s|, size);
    if e < |s| {
      ChunkSizes(s, e, size);
      var cs := Chunks(s, index, size);
      assert cs[1..] == Chunks(s, e, size);
      assert forall k :: 1 <= k < |cs| ==> cs[k] == Chunks(s, e, size)[k - 1];
    }
  }

  /** A snapshot of `k > 0` items takes ceil(k / size) calls of processChunk,
      stated without division: the calls hold more than `(n - 1) * size`
      items and at most `n * size`. */
  lemma {:induction false} ChunkCallCount<T>(s: seq<T>, index: nat, size: nat)
    requires index < |s| && size > 0
    ensures var n := |Chunks(s, index, size)|;
      (n - 1) * size < |s| - index <= n * size
    decreases |s| - index
  {
    var e := ChunkEnd(index, |s|, size);
    var n := |Chunks(s, index, size)|;
    if e < |s| {
      ChunkCallCount(s, e, size);
      var m := |Chunks(s, e, size)|;
      assert n == m + 1;
      assert (n - 1) * size == m * size;
      assert n * size == m * size + size;
    } else {
      assert n == 1;
    }
  }

  /** The state a drain's closures share: the queue the observer pushes to,
      whether a drain is under way, the snapshot it took of the queue with
      `splice(0)`, and how far into the snapshot it has got. */
  datatype Drain<T> = Drain(pending: seq<T>, draining: bool, snapshot: seq<T>, index: nat)

  /** A drain under way still has items of its snapshot ahead of it. */
  predicate DrainOk<T>(d: Drain<T>) {
    d.draining ==> d.index < |d.snapshot|
  }

  /** What the next frame works through: the snapshot under way, or the queue
      that it takes over. */
  function Source<T>(d: Drain<T>): seq<T> {
    if d.draining then d.snapshot else d.pending
  }

  function Start<T>(d: Drain<T>): (i: nat)
    requires DrainOk(d)
    ensures i <= |Source(d)|
  {
    if d.draining then d.index else 0
  }

  /** The items the next frame handles. */
  function NextChunk<T>(d: Drain<T>, size: nat): seq<T>
    requires DrainOk(d) && size > 0
  {
    Source(d)[Start(d)..ChunkEnd(Start(d), |Source(d)|, size)]
  }

  /** The drain after one frame: a drain not under way takes the queue over
      (leaving it empty), then the chunk is handled and the drain stays under
      way exactly when items remain. */
  function Step<T>(d: Drain<T>, size: nat): (r: Drain<T>)
    requires DrainOk(d) && size > 0
    ensures DrainOk(r)
    ensures !d.draining ==> r.pending == [] && r.snapshot == d.pending
    ensures d.draining ==> r.pending == d.pending && r.snapshot == d.snapshot
  {
    var s := Source(d);
    var e := ChunkEnd(Start(d), |s|, size);
    Drain(if d.draining then d.pending else [], e < |s|, s, e)
  }

  /** The chunks the frames from now on will handle. */
  function Remaining<T>(d: Drain<T>, size: nat): seq<seq<T>>
    requires DrainOk(d) && size > 0
  {
    Chunks(Source(d), Start(d), size)
  }

  /** A frame handles the first remaining chunk; if the drain stays under way
      the rest is what remains, and otherwise that chunk was the last. */
  lemma StepAdvances<T>(d: Drain<T>, size: nat)
    requires DrainOk(d) && size > 0
    ensures NextChunk(d, size) == Remaining(d, size)[0]
    ensures Step(d, size).draining ==> Remaining(Step(d, size), size) == Remaining(d, size)[1..]
    ensures !Step(d, size).draining ==> |Remaining(d, size)| == 1
  {
  }

  /** Items queued while a drain is under way are not part of it: the frames
      still to come handle the same chunks, and the items wait in the queue. */
  lemma QueuedDuringDrain<T>(d: Drain<T>, items: seq<T>, size: nat)
    requires DrainOk(d) && d.draining && size > 0
    ensures var e := d.(pending := d.pending + items);
      && Remaining(e, size) == Remaining(d, size)
      && Step(e, size).pending == d.pending + items
  {
  }

  /** What `n` consecutive frames handle, stopping once the drain ends. */
  function Output<T>(d: Drain<T>, size: nat, n: nat): seq<T>
    requires DrainOk(d) && size > 0
    decreases n
  {
    if n == 0 then []
    else NextChunk(d, size) + (if Step(d, size).draining then Output(Step(d, size), size, n - 1) else [])
  }

  /** Run to its end, a drain handles every item from where it stands exactly
      once and in order; a drain that starts afresh handles exactly the items
      queued when it started. */
  lemma {:induction false} DrainCoversQueue<T>(d: Drain<T>, size: nat)
    requires DrainOk(d) && size > 0
    ensures Output(d, size, |Remaining(d, size)|) == Source(d)[Start(d)..]
    ensures !d.draining ==> Output(d, size, |Remaining(d, size)|) == d.pending
    decreases |Remaining(d, size)|
  {
    var cs := Remaining(d, size);
    var r := Step(d, size);
    StepAdvances(d, size);
    ChunksCoverOnce(Source(d), Start(d), size);
    if r.draining {
      DrainCoversQueue(r, size);
      ChunksCoverOnce(Source(r), Start(r), size);
      assert Output(d, size, |cs|) == cs[0] + Flatten(cs[1..]);
    } else {
      assert cs[1..] == [];
      assert Output(d, size, |cs|) == cs[0] + [];
    }
    assert !d.draining ==> Source(d)[Start(d)..] == d.pending;
  }
}
