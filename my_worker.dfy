/**
 * `MyWorker#do_something_fun`: walk the dispatched data in order, overwrite
 * the task's return-store entry with the 1-based position of each element
 * before that element's processing slot, and finally overwrite it with "DONE".
 */
module MyWorker {
  import opened ReturnStore

  /** One action of the worker, in the order it happens. */
  datatype Step =
    | Wrote(value: Entry)   // `Workling.return.set(uid, value)`
    | Worked(index: nat)    // the processing slot for the element at `index`

  /** The actions for the first `k` elements: the count is written, then the element is processed. */
  function ItemSteps(k: nat): seq<Step>
  {
    if k == 0 then [] else ItemSteps(k - 1) + [Wrote(Count(k)), Worked(k - 1)]
  }

  /** Every action of a run over `n` elements: the per-element actions, then the "DONE" write. */
  function Steps(n: nat): seq<Step>
  {
    ItemSteps(n) + [Wrote(Done)]
  }

  /** The values written, in order, by the actions `steps`. */
  function Written(steps: seq<Step>): seq<Entry>
    decreases |steps|
  {
    if steps == [] then []
    else (if steps[0].Wrote? then [steps[0].value] else []) + Written(steps[1..])
  }

  /** The counts 1, 2, ..., k, in order. */
  function Counts(k: nat): seq<Entry>
  {
    if k == 0 then [] else Counts(k - 1) + [Count(k)]
  }

  /** The values written for a run over `n` elements: 1, ..., n and then "DONE". */
  function Progression(n: nat): seq<Entry>
  {
    Counts(n) + [Done]
  }

  /** The k-th count written is k + 1, so the counts lie in [1, n] and go up by one. */
  lemma {:induction false} CountsAt(n: nat)
    ensures |Counts(n)| == n
    ensures forall i :: 0 <= i < n ==> Counts(n)[i] == Count(i + 1)
  {
    if n > 0 {
      CountsAt(n - 1);
    }
  }

  /** Filtering the writes out of two runs of actions filters each. */
  lemma {:induction false} WrittenAppend(s: seq<Step>, t: seq<Step>)
    ensures Written(s + t) == Written(s) + Written(t)
    decreases |s|
  {
    if s == [] {
      assert s + t == t;
    } else {
      assert (s + t)[0] == s[0];
      assert (s + t)[1..] == s[1..] + t;
      WrittenAppend(s[1..], t);
    }
  }

  /** The writes among the first k elements' actions are exactly the counts 1, ..., k. */
  lemma {:induction false} WrittenItemSteps(k: nat)
    ensures Written(ItemSteps(k)) == Counts(k)
  {
    if k > 0 {
      var tail := [Wrote(Count(k)), Worked(k - 1)];
      WrittenItemSteps(k - 1);
      WrittenAppend(ItemSteps(k - 1), tail);
      assert Written(tail) == [Count(k)] + Written([Worked(k - 1)]);
      assert Written([Worked(k - 1)]) == [] + Written([]);
    }
  }

  /**
   * A run over `n` elements writes exactly 1, ..., n and then "DONE"; for no
   * elements the only write is "DONE".
   */
  lemma WrittenSteps(n: nat)
    ensures Written(Steps(n)) == Progression(n)
    ensures n == 0 ==> Written(Steps(n)) == [Done]
  {
    WrittenItemSteps(n);
    WrittenAppend(ItemSteps(n), [Wrote(Done)]);
    assert Written([Wrote(Done)]) == [Done] + Written([]);
  }

  /**
   * "DONE" is written once and last: every earlier write is a count in [1, n]
   * one above the write before it.
   */
  lemma ProgressionShape(n: nat)
    ensures |Progression(n)| == n + 1
    ensures Progression(n)[n] == Done
    ensures forall i :: 0 <= i < n ==> Progression(n)[i] == Count(i + 1)
    ensures forall i :: 0 <= i < n ==> 1 <= Progression(n)[i].n <= n
    ensures forall i :: 0 < i < n ==> Progression(n)[i].n == Progression(n)[i - 1].n + 1
  {
    CountsAt(n);
  }

  /**
   * The count for the element at index i is written immediately before that
   * element's processing slot and after the previous element's slot, so it
   * means "element i + 1 has started".
   */
  lemma {:induction false} StepsOrder(n: nat)
    ensures |Steps(n)| == 2 * n + 1
    ensures forall i :: 0 <= i < n ==> Steps(n)[2 * i] == Wrote(Count(i + 1))
    ensures forall i :: 0 <= i < n ==> Steps(n)[2 * i + 1] == Worked(i)
    ensures Steps(n)[2 * n] == Wrote(Done)
  {
    if n > 0 {
      StepsOrder(n - 1);
      assert ItemSteps(n - 1) == Steps(n - 1)[..2 * (n - 1)];
    }
  }

  /**
   * `do_something_fun(:data => data, :uid => uid)`, acting on `store`. It
   * returns the actions it took, in order; its only writes are the values of
   * `Progression(|data|)` under `uid`, and it leaves `uid` at "DONE" and every
   * other entry as it was. A reader of `uid` during the run sees exactly the
   * snapshots of those writes taken over the store as the run found it.
   */
  method DoSomethingFun<D>(store: Store, uid: Uid, data: seq<D>) returns (ghost steps: seq<Step>)
    requires store.Valid()
    modifies store
    ensures store.Valid() && store.origin == old(store.origin)
    ensures steps == Steps(|data|)
    ensures Written(steps) == Progression(|data|)
    ensures store.history == old(store.history) + Tag(uid, Progression(|data|))
    ensures store.entries == old(store.entries)[uid := Done]
    ensures |Snapshots(store.origin, store.history, uid)| == |store.history| + 1
    ensures Snapshots(store.origin, store.history, uid)[|old(store.history)|..]
         == Snapshots(old(store.entries), Tag(uid, Progression(|data|)), uid)
  {
    ghost var start, before := store.entries, store.history;
    steps := [];
    var index := 0;
    while index < |data|
      invariant 0 <= index <= |data|
      invariant store.Valid() && store.origin == old(store.origin)
      invariant steps == ItemSteps(index)
      invariant store.history == old(store.history) + Tag(uid, Counts(index))
      invariant store.entries == if index == 0 then old(store.entries) else old(store.entries)[uid := Count(index)]
    {
      store.Set(uid, Count(index + 1));
      steps := steps + [Wrote(Count(index + 1))];
      // the element data[index] would be processed here
      steps := steps + [Worked(index)];
      assert Tag(uid, Counts(index + 1)) == Tag(uid, Counts(index)) + [Write(uid, Count(index + 1))];
      index := index + 1;
    }
    store.Set(uid, Done);
    steps := steps + [Wrote(Done)];
    WrittenSteps(|data|);
    assert Tag(uid, Progression(|data|)) == Tag(uid, Counts(|data|)) + [Write(uid, Done)];
    SnapshotsSuffix(store.origin, before, Tag(uid, Progression(|data|)), uid);
    assert Replay(store.origin, before) == start;
  }
}
