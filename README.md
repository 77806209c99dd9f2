# progress_bar: a verified model of the worker/poller progress protocol

The application starts a background job and shows a progress bar for it. The
`index` action hands the numbers 1..10 to `MyWorker#do_something_fun`. Workling
runs that method in the background and returns a uid. The worker walks its
data in order. For each element, it overwrites the Workling return-store entry
for the uid with the element's 1-based position. When the data is exhausted,
it overwrites the entry with `"DONE"`. The page polls the `progress` action with
the uid and the total `size`. That action reads the entry. On `"DONE"` it stops
polling and shows "Done!". Otherwise it shows `((count.to_f / size.to_f) * 100).to_i`
per cent.

The model has three modules, one per piece:

- `ReturnStore` (`return_store.dfy`) models `Workling.return`. The class `Store`
  holds a map from uid to `Entry` (`Count(n)` or `Done`). It also keeps a ghost
  history of the writes made to it, which exists for the proofs only. `Valid()` says the map is what the history made of its
  starting state. `Snapshots` gives what a reader of one uid can see over time:
  the value before the first write and after each write.
- `MyWorker` (`my_worker.dfy`) holds the worker loop as the method
  `DoSomethingFun`. It updates the store in place and returns the actions it
  took in order, as a ghost result. An action is a write or a processing slot. The method is proved
  against the specification functions `Steps` and `Progression`.
- `ThingsController` (`things_controller.dfy`) holds the `progress` computation
  as the pure function `Progress`, with its lemmas. It also has `index`'s data
  (`Range(1, 10)`) and the end-to-end statement of what a poller sees.

Facts about the code that shape the model:

- The count is written before the element's processing slot, so a count k
  means element k has started.
- A missing entry (`nil`) reads as 0%, because `nil.to_f` is 0.0.
- An entry of "DONE" shows "Done!" whatever the size, because the size is
  read only in the other branch.
- Any other entry with a size of 0 makes `to_i` raise `FloatDomainError`. The
  model gives that request the outcome `Raised`. A missing size parameter also
  reads as 0.
- There is no failure terminal state, because the code has none.

## Model

| member | source | states |
|---|---|---|
| `ReturnStore.Store.Set` | app/workers/my_worker.rb:7 | `set(uid, value)` overwrites the entry for `uid` only, appends the write to the history, and keeps the map equal to the replay of the history |
| `ReturnStore.Store.Get` | app/controllers/things_controller.rb:11 | `get(uid)` returns the stored value, or nil when the uid has none; this is the last value a reader of the uid can see in the history |
| `ReturnStore.ReplayAppend` | app/workers/my_worker.rb:4-13 | applying a history of writes in two parts gives the same store as applying it at once |
| `ReturnStore.ReplayTag` | app/workers/my_worker.rb:4-13 | a non-empty run of writes under one uid leaves the last value written under that uid and every other entry unchanged |
| `ReturnStore.SnapshotsLast` | app/controllers/things_controller.rb:11 | the last value a reader sees is the store's value after the whole history |
| `ReturnStore.SnapshotsTag` | app/workers/my_worker.rb:4-13 | while values are written under a uid, a reader of that uid sees the old value and then each written value, in the order written |
| `ReturnStore.SnapshotsSuffix` | app/workers/my_worker.rb:4-13 | from the first write of a later run on, a reader sees exactly that run's snapshots over the store as the run found it |
| `ReturnStore.SnapshotsOther` | app/workers/my_worker.rb:7-13 | while values are written under one uid, a reader of any other uid sees its old value throughout |
| `MyWorker.DoSomethingFun` | app/workers/my_worker.rb:3-14 | the worker's actions are exactly `Steps(|data|)`; its writes are exactly 1..N then "DONE", all under the task's uid; it leaves the uid at `Done`, every other entry unchanged, and the store valid; what a reader of the uid sees during the run is exactly the snapshots of those writes over the store as the run found it |
| `MyWorker.CountsAt` | app/workers/my_worker.rb:4-7 | the i-th count written is i + 1, so there are N counts, each in [1, N] |
| `MyWorker.WrittenItemSteps` | app/workers/my_worker.rb:4-11 | the writes made while walking the first k elements are exactly 1, ..., k |
| `MyWorker.WrittenSteps` | app/workers/my_worker.rb:4-13 | a run over N elements writes exactly 1, ..., N and then "DONE"; for empty data the only write is "DONE" |
| `MyWorker.ProgressionShape` | app/workers/my_worker.rb:4-13 | "DONE" is the last write and appears once; every earlier write is a count in [1, N], each one greater by one than the write before it |
| `MyWorker.StepsOrder` | app/workers/my_worker.rb:4-13 | the count i + 1 is written immediately before element i's processing slot and after element i - 1's slot; the last action is the "DONE" write |
| `ThingsController.Range` | app/controllers/things_controller.rb:3 | `(lo..hi).to_a` has hi - lo + 1 elements (none when lo > hi), and its i-th element is lo + i |
| `ThingsController.IndexData` | app/controllers/things_controller.rb:3 | `index` dispatches ten elements, the i-th being i + 1 |
| `ThingsController.Progress` | app/controllers/things_controller.rb:11-16 | the outcome is terminal exactly when the entry is "DONE", for every size; otherwise it raises exactly when the size is 0; a missing entry with a nonzero size gives 0%; for a positive size and a non-negative count, p is the floor of count * 100 / size |
| `ThingsController.PercentBounds` | app/controllers/things_controller.rb:16 | for 0 <= count <= size, the percentage lies in [0, 100] |
| `ThingsController.PercentEndpoints` | app/controllers/things_controller.rb:16 | a count of 0 gives 0% and a count equal to size gives 100% |
| `ThingsController.PercentMonotone` | app/controllers/things_controller.rb:16 | for a fixed positive size, a larger count never gives a smaller percentage |
| `ThingsController.ProgressAction` | app/controllers/things_controller.rb:11-16 | reading the store and deriving the outcome: terminal exactly when the uid's entry is `Done`; raises exactly when it is not and the size is 0; 0% when the uid has no entry and the size is nonzero |
| `ThingsController.PollsProgression` | app/controllers/things_controller.rb:11-16 | for a fresh uid and size >= N, the poller sees 0%, then count * 100 / size for each count written, non-decreasing and within [0, 100], and finally the terminal outcome; with size = N the last percentage is 100 |
| `ThingsController.PollsOtherUid` | app/controllers/things_controller.rb:11-16 | a poller of a different uid is shown the same outcome throughout the worker's run |
| `ThingsController.IndexScenario` | app/controllers/things_controller.rb:3-4 | for `index`'s ten elements, polling shows 0%, 10%, ..., 100% and then "Done!"; once the third element has started it shows 30% |
| `ThingsController.IndexThenPoll` | app/controllers/things_controller.rb:2-5 | dispatching the worker over `index`'s data writes 1..10 then "DONE" under the uid and changes no other entry; what a poller passing size 10 could be shown during the run is exactly `Polls` for the store as the run found it; a poll after the run shows "Done!" |

## Left out

- Workling's asynchronous dispatch and uid generation (`async_do_something_fun`) are library code. The uid is a parameter, taken fresh where a lemma needs it.
- Workling's return store is a cross-process store shared by concurrent readers and writers. It is modelled as one map. Its `get` is modelled as a read that does not change the store. Workling's own store code is not part of this model.
- Concurrency between the worker and pollers is not run. Instead, `Snapshots` and `Polls` list every value a poller could read between two writes.
- `sleep(1)` and the empty processing slot (app/workers/my_worker.rb:9-10) become the `Worked(index)` action, which changes nothing.
- The RJS page updates (`periodical.stop()`, `innerHTML`, `setStyle`), `respond_to`/`render :update`, and the parsing of `params[:uid]` and `params[:size]` are left out. `size` is an integer parameter.
- config/routes.rb is routing only.
- ThingsController.Progress: floating point is not modelled. The percentage uses exact arithmetic truncated toward zero, as `Float#to_i` truncates. The IEEE quotient can differ from it by one for some count/size pairs.
- ThingsController.Progress: the `FloatDomainError` raised for a size of 0 is the outcome `Raised`. What Rails then sends back to the page is not modelled. Negative sizes are allowed, as in the source.
- MyWorker.DoSomethingFun: `:data` is always supplied, as `index` supplies it. If `options` lacked `:data`, `nil.each_with_index` would raise `NoMethodError` before any write. The uid's entry would then never be written, and a poller would be shown 0% for ever. That path is not modelled.
- The stored value is either a count or "DONE", as the worker writes. Arbitrary other Ruby values in the store are not modelled.
- No failure state, cancellation or retry is modelled, because the code has none.
