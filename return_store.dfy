/**
 * The Workling return store: a process-wide mapping from a task's uid to the
 * latest value written for it. Workers call `set(uid, value)`, the progress
 * action calls `get(uid)`. Here it is a plain map together with the history of
 * writes made to it, so that what a reader could observe over time can be
 * stated and proved.
 */
module ReturnStore {

  datatype Option<+T> = None | Some(value: T)

  /** The correlation handle the dispatcher hands out for a task. */
  type Uid = string

  /** A stored value: the 1-based position of the item being processed, or "DONE". */
  datatype Entry = Count(n: int) | Done

  /** One call of `set`. */
  datatype Write = Write(key: Uid, value: Entry)

  /** `get` on a map: a missing key reads as nil. */
  function Lookup(m: map<Uid, Entry>, key: Uid): Option<Entry>
  {
    if key in m then Some(m[key]) else None
  }

  /** The store after the writes of `h`, in order, starting from `m`. */
  function Replay(m: map<Uid, Entry>, h: seq<Write>): map<Uid, Entry>
    decreases |h|
  {
    if h == [] then m else Replay(m[h[0].key := h[0].value], h[1..])
  }

  /**
   * What a reader of `key` can see: the value before the first write of `h`
   * and after each write, in order.
   */
  function Snapshots(m: map<Uid, Entry>, h: seq<Write>, key: Uid): seq<Option<Entry>>
    decreases |h|
  {
    [Lookup(m, key)] + if h == [] then [] else Snapshots(m[h[0].key := h[0].value], h[1..], key)
  }

  /** The writes of the values `vs`, in order, all under `key`. */
  function Tag(key: Uid, vs: seq<Entry>): (h: seq<Write>)
    ensures |h| == |vs|
    ensures forall i :: 0 <= i < |vs| ==> h[i] == Write(key, vs[i])
  {
    seq(|vs|, i requires 0 <= i < |vs| => Write(key, vs[i]))
  }

  /** Each value of `vs`, as read back from the store. */
  function Present(vs: seq<Entry>): (r: seq<Option<Entry>>)
    ensures |r| == |vs|
    ensures forall i :: 0 <= i < |vs| ==> r[i] == Some(vs[i])
  {
    seq(|vs|, i requires 0 <= i < |vs| => Some(vs[i]))
  }

  /** Replaying a history in two parts is replaying it at once. */
  lemma {:induction false} ReplayAppend(m: map<Uid, Entry>, h1: seq<Write>, h2: seq<Write>)
    ensures Replay(m, h1 + h2) == Replay(Replay(m, h1), h2)
    decreases |h1|
  {
    if h1 != [] {
      assert (h1 + h2)[0] == h1[0];
      assert (h1 + h2)[1..] == h1[1..] + h2;
      ReplayAppend(m[h1[0].key := h1[0].value], h1[1..], h2);
    } else {
      assert h1 + h2 == h2;
    }
  }

  /**
   * Writing the values `vs` under `key` leaves the last of them under `key`
   * and every other key as it was.
   */
  lemma {:induction false} ReplayTag(m: map<Uid, Entry>, key: Uid, vs: seq<Entry>)
    requires vs != []
    ensures Replay(m, Tag(key, vs)) == m[key := vs[|vs| - 1]]
    decreases |vs|
  {
    var h := Tag(key, vs);
    if |vs| > 1 {
      assert h[1..] == Tag(key, vs[1..]);
      ReplayTag(m[key := vs[0]], key, vs[1..]);
      assert m[key := vs[0]][key := vs[|vs| - 1]] == m[key := vs[|vs| - 1]];
    } else {
      assert h[1..] == [];
    }
  }

  /** The last thing a reader sees is the value in the store after the whole history. */
  lemma {:induction false} SnapshotsLast(m: map<Uid, Entry>, h: seq<Write>, key: Uid)
    ensures |Snapshots(m, h, key)| == |h| + 1
    ensures Snapshots(m, h, key)[|h|] == Lookup(Replay(m, h), key)
    decreases |h|
  {
    if h != [] {
      SnapshotsLast(m[h[0].key := h[0].value], h[1..], key);
    }
  }

  /**
   * A reader of `key` during the writes of `vs` under `key` sees the old value
   * and then each written value, in the order written.
   */
  lemma {:induction false} SnapshotsTag(m: map<Uid, Entry>, key: Uid, vs: seq<Entry>)
    ensures Snapshots(m, Tag(key, vs), key) == [Lookup(m, key)] + Present(vs)
    decreases |vs|
  {
    var h := Tag(key, vs);
    if vs != [] {
      assert h[1..] == Tag(key, vs[1..]);
      SnapshotsTag(m[key := vs[0]], key, vs[1..]);
      assert Present(vs) == [Some(vs[0])] + Present(vs[1..]);
    }
  }

  /** A reader of any other key sees no change while `key` is written. */
  lemma {:induction false} SnapshotsOther(m: map<Uid, Entry>, key: Uid, vs: seq<Entry>, other: Uid)
    requires other != key
    ensures |Snapshots(m, Tag(key, vs), other)| == |vs| + 1
    ensures forall i :: 0 <= i <= |vs| ==> Snapshots(m, Tag(key, vs), other)[i] == Lookup(m, other)
    decreases |vs|
  {
    var h := Tag(key, vs);
    if vs != [] {
      assert h[1..] == Tag(key, vs[1..]);
      SnapshotsOther(m[key := vs[0]], key, vs[1..], other);
      assert Lookup(m[key := vs[0]], other) == Lookup(m, other);
    }
  }

  /**
   * From the first write of `h2` on, a reader sees the snapshots of `h2`
   * alone, taken from the store that `h1` left.
   */
  lemma {:induction false} SnapshotsSuffix(m: map<Uid, Entry>, h1: seq<Write>, h2: seq<Write>, key: Uid)
    ensures |Snapshots(m, h1 + h2, key)| == |h1| + |h2| + 1
    ensures Snapshots(m, h1 + h2, key)[|h1|..] == Snapshots(Replay(m, h1), h2, key)
    decreases |h1|
  {
    SnapshotsLast(m, h1 + h2, key);
    if h1 == [] {
      assert h1 + h2 == h2;
    } else {
      var m', t := m[h1[0].key := h1[0].value], h1[1..];
      assert (h1 + h2)[0] == h1[0] && (h1 + h2)[1..] == t + h2;
      SnapshotsSuffix(m', t, h2, key);
      var tail := Snapshots(m', t + h2, key);
      assert Snapshots(m, h1 + h2, key) == [Lookup(m, key)] + tail;
      assert ([Lookup(m, key)] + tail)[|h1|..] == tail[|t|..];
    }
  }

  /** `Workling.return`: the entries and every write made to them, in order. */
  class Store {
    var entries: map<Uid, Entry>
    /** Every write made, in order; kept for the proofs only. */
    ghost var history: seq<Write>
    /** The entries before the first recorded write. */
    ghost var origin: map<Uid, Entry>

    /** The entries are what the recorded writes made of the origin. */
    ghost predicate Valid()
      reads this
    {
      entries == Replay(origin, history)
    }

    constructor ()
      ensures Valid()
      ensures entries == map[] && history == []
    {
      entries := map[];
      history := [];
      origin := map[];
    }

    /** `set(key, value)`: overwrite the entry for `key`, nothing else. */
    method Set(key: Uid, value: Entry)
      requires Valid()
      modifies this
      ensures Valid() && origin == old(origin)
      ensures entries == old(entries)[key := value]
      ensures history == old(history) + [Write(key, value)]
    {
      ReplayAppend(origin, history, [Write(key, value)]);
      entries := entries[key := value];
      history := history + [Write(key, value)];
    }

    /** `get(key)`: the latest value written under `key`, or nil if there is none. */
    method Get(key: Uid) returns (r: Option<Entry>)
      requires Valid()
      ensures r.Some? <==> key in entries
      ensures r.Some? ==> r.value == entries[key]
      ensures |Snapshots(origin, history, key)| == |history| + 1
      ensures r == Snapshots(origin, history, key)[|history|]
    {
      SnapshotsLast(origin, history, key);
      r := if key in entries then Some(entries[key]) else None;
    }
  }
}
