/**
 * `ThingsController`: `index` dispatches the worker over the numbers 1..10,
 * and `progress` reads the task's return-store entry and turns it into either
 * the "Done!" outcome (polling stops) or a whole-number percentage of `size`.
 */
module ThingsController {
  import opened ReturnStore
  import MyWorker

  /** What one `progress` request renders. */
  datatype Outcome =
    | Finished          // the entry is "DONE": polling stops and "Done!" is shown
    | Percent(p: int)   // the percentage shown and used as the bar's width
    | Raised            // `to_i` of an infinite or NaN quotient raises FloatDomainError

  /** `(lo..hi).to_a`: the integers from `lo` to `hi` inclusive, ascending. */
  function Range(lo: int, hi: int): (r: seq<int>)
    ensures |r| == if lo <= hi then hi - lo + 1 else 0
    ensures forall i :: 0 <= i < |r| ==> r[i] == lo + i
    decreases if lo <= hi then hi - lo + 1 else 0
  {
    if lo > hi then [] else [lo] + Range(lo + 1, hi)
  }

  /** The data `index` hands to the worker: `(1..10).to_a`. */
  function IndexData(): (data: seq<int>)
    ensures |data| == 10
    ensures forall i :: 0 <= i < |data| ==> data[i] == i + 1
  {
    Range(1, 10)
  }

  /** `Float#to_i` of the exact quotient `a / b`: division truncated toward zero. */
  function TruncDiv(a: int, b: int): int
    requires b != 0
  {
    if (a >= 0) == (b > 0) then Abs(a) / Abs(b) else -(Abs(a) / Abs(b))
  }

  function Abs(x: int): nat
  {
    if x < 0 then -x else x
  }

  /** `nil.to_f` is 0.0, so a missing entry counts as 0 items. */
  function CountOf(stored: Option<Entry>): int
  {
    match stored
    case Some(Count(n)) => n
    case _ => 0
  }

  /**
   * The `progress` action on the value read for the uid and the `size` the
   * page passes: "DONE" stops polling whatever the size; anything else, a
   * missing entry included, becomes `((count.to_f / size.to_f) * 100).to_i`,
   * taken here with exact arithmetic, which raises when the size is 0 (the
   * quotient is then infinite or NaN).
   */
  function Progress(stored: Option<Entry>, size: int): (r: Outcome)
    ensures r.Finished? <==> stored == Some(Done)
    ensures r.Raised? <==> stored != Some(Done) && size == 0
    ensures stored == None && size != 0 ==> r == Percent(0)
    ensures stored.Some? && stored.value.Count? && size > 0 && stored.value.n >= 0 ==>
              r.Percent? && r.p * size <= stored.value.n * 100 < (r.p + 1) * size
  {
    if stored == Some(Done) then Finished
    else if size == 0 then Raised
    else Percent(TruncDiv(CountOf(stored) * 100, size))
  }

  /** A count between 0 and the total gives a percentage between 0 and 100. */
  lemma PercentBounds(n: int, size: int)
    requires 0 <= n <= size && size > 0
    ensures Progress(Some(Count(n)), size).Percent?
    ensures 0 <= Progress(Some(Count(n)), size).p <= 100
  {
  }

  /** No items counted shows 0%, all of them 100%. */
  lemma PercentEndpoints(size: int)
    requires size != 0
    ensures Progress(Some(Count(0)), size) == Percent(0)
    ensures Progress(Some(Count(size)), size) == Percent(100)
  {
    assert Abs(size * 100) == 100 * Abs(size);
    DivExact(100, Abs(size));
  }

  /** Multiplying by a non-negative factor keeps the order. */
  lemma MulMonotone(a: int, b: int, d: int)
    requires a <= b && d >= 0
    ensures d * a <= d * b
  {
    assert d * b - d * a == d * (b - a);
  }

  /** Dividing a multiple of `d` by `d` gives the multiplier back. */
  lemma DivExact(c: int, d: int)
    requires d > 0
    ensures (c * d) / d == c
  {
    var q, r := (c * d) / d, (c * d) % d;
    assert c * d == d * q + r && 0 <= r < d;
    if q < c {
      MulMonotone(q + 1, c, d);
    } else if q > c {
      MulMonotone(c + 1, q, d);
    }
  }

  /** `x / d` is non-decreasing in `x` for a positive divisor. */
  lemma DivMonotone(x: int, y: int, d: int)
    requires 0 <= x <= y && d > 0
    ensures x / d <= y / d
  {
    var q, r := x / d, y / d;
    assert d * q + x % d == x && 0 <= x % d < d;
    assert d * r + y % d == y && 0 <= y % d < d;
    if q > r {
      MulMonotone(r + 1, q, d);
    }
  }

  /** For a fixed positive total, more items counted never shows a smaller percentage. */
  lemma PercentMonotone(a: int, b: int, size: int)
    requires a <= b && size > 0
    ensures Progress(Some(Count(a)), size).p <= Progress(Some(Count(b)), size).p
  {
    if 0 <= a {
      DivMonotone(a * 100, b * 100, size);
    } else if 0 <= b {
      assert Progress(Some(Count(a)), size).p <= 0;
    } else {
      DivMonotone(-b * 100, -a * 100, size);
    }
  }

  /** `progress` for `uid` against the store as it stands. */
  method ProgressAction(store: Store, uid: Uid, size: int) returns (r: Outcome)
    requires store.Valid()
    ensures r.Finished? <==> uid in store.entries && store.entries[uid] == Done
    ensures r.Raised? <==> size == 0 && !(uid in store.entries && store.entries[uid] == Done)
    ensures uid !in store.entries && size != 0 ==> r == Percent(0)
    ensures r == Progress(Lookup(store.entries, uid), size)
  {
    var stored := store.Get(uid);
    r := Progress(stored, size);
  }

  /** What the `progress` action shows for each value in `seen`, in order. */
  function PollsOf(seen: seq<Option<Entry>>, size: int): (r: seq<Outcome>)
    ensures |r| == |seen|
    ensures forall i :: 0 <= i < |seen| ==> r[i] == Progress(seen[i], size)
  {
    seq(|seen|, i requires 0 <= i < |seen| => Progress(seen[i], size))
  }

  /**
   * What a poller of `uid`, passing `size`, can be shown while the worker runs
   * over `n` elements: before the first write and after each write, in order.
   */
  function Polls(m: map<Uid, Entry>, uid: Uid, n: nat, size: int): seq<Outcome>
  {
    PollsOf(Snapshots(m, Tag(uid, MyWorker.Progression(n)), uid), size)
  }

  /**
   * For a fresh uid and a total no smaller than the data's length, the poller
   * sees 0%, then count * 100 / size for each count written, never going
   * down and staying within [0, 100], and finally "Done!"; with the true total
   * the last percentage before "Done!" is 100.
   */
  lemma PollsProgression(m: map<Uid, Entry>, uid: Uid, n: nat, size: int)
    requires uid !in m && size > 0 && n <= size
    ensures |Polls(m, uid, n, size)| == n + 2
    ensures Polls(m, uid, n, size)[0] == Percent(0)
    ensures forall k :: 0 <= k <= n ==> Polls(m, uid, n, size)[k] == Percent(k * 100 / size)
    ensures forall k :: 0 <= k <= n ==> 0 <= Polls(m, uid, n, size)[k].p <= 100
    ensures forall i, j :: 0 <= i <= j <= n ==> Polls(m, uid, n, size)[i].p <= Polls(m, uid, n, size)[j].p
    ensures Polls(m, uid, n, size)[n + 1] == Finished
    ensures n == size ==> Polls(m, uid, n, size)[n] == Percent(100)
  {
    var vs := MyWorker.Progression(n);
    var seen := Snapshots(m, Tag(uid, vs), uid);
    var polls := Polls(m, uid, n, size);
    SnapshotsTag(m, uid, vs);
    MyWorker.ProgressionShape(n);
    assert seen == [None] + Present(vs);
    forall k | 0 <= k <= n
      ensures polls[k] == Percent(k * 100 / size)
      ensures 0 <= polls[k].p <= 100
    {
      if k > 0 {
        assert seen[k] == Some(Count(k));
      }
      PercentBounds(k, size);
    }
    forall i, j | 0 <= i <= j <= n
      ensures polls[i].p <= polls[j].p
    {
      PercentMonotone(i, j, size);
    }
    assert seen[n + 1] == Some(Done);
    if n == size {
      PercentEndpoints(size);
    }
  }

  /**
   * A poller of any other uid is shown the same outcome throughout the run:
   * the worker's writes never reach another task's entry.
   */
  lemma PollsOtherUid(m: map<Uid, Entry>, uid: Uid, other: Uid, n: nat, size: int)
    requires other != uid
    ensures var seen := Snapshots(m, Tag(uid, MyWorker.Progression(n)), other);
      |seen| == n + 2 &&
      forall i :: 0 <= i < |seen| ==> Progress(seen[i], size) == Progress(Lookup(m, other), size)
  {
    MyWorker.ProgressionShape(n);
    SnapshotsOther(m, uid, MyWorker.Progression(n), other);
  }

  /**
   * The page as dispatched by `index`: ten elements, so polling shows 0%,
   * 10%, ..., 100% and then "Done!"; after the third element has started it
   * shows 30%.
   */
  lemma IndexScenario(m: map<Uid, Entry>, uid: Uid)
    requires uid !in m
    ensures |Polls(m, uid, |IndexData()|, |IndexData()|)| == 12
    ensures forall k :: 0 <= k <= 10 ==> Polls(m, uid, |IndexData()|, |IndexData()|)[k] == Percent(10 * k)
    ensures Polls(m, uid, |IndexData()|, |IndexData()|)[3] == Percent(30)
    ensures Polls(m, uid, |IndexData()|, |IndexData()|)[11] == Finished
  {
    PollsProgression(m, uid, 10, 10);
    forall k | 0 <= k <= 10
      ensures k * 100 / 10 == 10 * k
    {
      assert k * 100 == (10 * k) * 10;
    }
  }

  /**
   * The whole page: `index` dispatches the worker over its data on a fresh
   * uid, and each `progress` request reads the store at some point of the run.
   * Run here as the worker followed by one final poll, which shows "Done!".
   */
  method IndexThenPoll(store: Store, uid: Uid) returns (ghost steps: seq<MyWorker.Step>, last: Outcome)
    requires store.Valid()
    modifies store
    ensures store.Valid() && store.origin == old(store.origin)
    ensures steps == MyWorker.Steps(10)
    ensures store.history == old(store.history) + Tag(uid, MyWorker.Progression(10))
    ensures store.entries == old(store.entries)[uid := Done]
    ensures |Snapshots(store.origin, store.history, uid)| == |store.history| + 1
    ensures PollsOf(Snapshots(store.origin, store.history, uid)[|old(store.history)|..], 10)
         == Polls(old(store.entries), uid, 10, 10)
    ensures last == Finished
  {
    var data := IndexData();
    steps := MyWorker.DoSomethingFun(store, uid, data);
    last := ProgressAction(store, uid, |data|);
  }
}
