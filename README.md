# Progress-tracking stream decorator

This project models `Progress<T>` from `src/progress.rs`. `Progress<T>` is a handle to a shared,
mutex-guarded cell (`ProgressInner`). The cell holds:

- a `name`;
- an advisory `total`;
- a byte counter `size`;
- a one-way `canceled` flag;
- the wrapped asynchronous stream `buf`.

The handle implements the wrapped stream's read, write and seek interfaces by forwarding to `buf`. Only
writes are counted, and only writes honour the cancel flag. `to_item` takes a snapshot as an `Item`
record (`src/item.rs`).

Files:

- `io.dfy` (module `Io`): the I/O vocabulary. It has `Poll`, `IoResult`, `IoError`, `SeekFrom`, the
  `u64`/`i64` widths, and `Delegated<T, R>`. `Delegated` is the wrapped stream's answer to a forwarded
  call: its new state and the poll result it returns.
- `item.dfy` (module `Item`): the `Item` snapshot record.
- `progress_spec.dfy` (module `ProgressSpec`): the cell as a sequential state machine.
  - Each operation is one atomic step (`Step`), because every operation runs under the cell's mutex.
  - `Run` replays any history of operations.
  - The lemmas state what every history satisfies: exact byte counting, monotone counter, terminal
    cancel, snapshots that never regress.
- `progress.dfy` (module `Progress`): the class `Progress<T>`.
  - Its mutable fields are those of `ProgressInner`.
  - It has one method per operation of the source. Each method states its new fields and result, and
    that they are exactly the matching `ProgressSpec.Step`.
  - A Dafny reference to the object stands for the `Arc` handle: cloning a handle is copying the
    reference, and all clones see the same fields.
- `scenarios.dfy` (module `Scenarios`): clients of the class.
  - `Replay` drives one object through any sequence of operations, one method call each. It proves
    the object ends in the record `Run` predicts and returns the replies `Run` predicts. Every lemma
    about `Run` therefore holds of the object.
  - Two scenarios run over an in-memory byte buffer. One writes "hello" through the decorator. The
    other cancels part-way through a transfer using a second handle.

How the model abstracts the source:

- **The wrapped stream.** `T` stays generic. Each passthrough receives the wrapped stream's behaviour
  for that call as a function from the current `buf` (and the call's arguments) to a `Delegated`
  answer. The model applies that function to the current `buf`.
- **The lock.** Acquiring the lock by polling the boxed lock future is modelled by a `Lock` parameter:
  `Acquired` runs the operation, and `Busy` returns `Pending` and changes nothing.
- **The async control calls.** `set_total`, `cancel` and `to_item` await the lock, so they always
  complete, and they are modelled without a `Lock` parameter.

Three behaviours of the code worth noting:

- The snapshot id is always supplied by the caller (`to_item(id)`); it is separate from the stored name.
- Only the write path reads the cancel flag. Read, flush, shutdown and both seek phases forward
  unconditionally, also after `cancel`.
- The cancel check runs on every poll of a write (src/progress.rs:97-100). A write whose wrapped
  stream answered `Pending` before a `cancel` is refused with the cancellation error when it is
  polled again (`ProgressSpec.WritesAfterCancelFail`).

## Model

| member | source | states |
|---|---|---|
| `Io.WriteCount` | src/progress.rs:103-105 | a write poll counts exactly `n` bytes for `Ready(Ok(n))`, and a positive count only for that; an error or `Pending` counts nothing |
| `ProgressSpec.SetTotal` | src/progress.rs:54-56 | `total` becomes the argument; every other field of the record is unchanged |
| `ProgressSpec.Cancel` | src/progress.rs:58-60 | `canceled` becomes true; every other field of the record is unchanged |
| `ProgressSpec.Snapshot` | src/progress.rs:62-71 | the snapshot carries the caller's id and the record's name, total, size and canceled flag |
| `ProgressSpec.Forward` | src/progress.rs:74-89 | a non-write passthrough (read, flush, shutdown, start_seek, poll_complete) with the lock obtained returns the wrapped stream's result unchanged and takes its new state, whatever the cancel flag; name, total, size and canceled never change; with the lock busy it returns `Pending` and changes nothing |
| `ProgressSpec.Write` | src/progress.rs:92-114 | busy lock: `Pending`, no change; canceled: the `Interrupted` "canceled" error, with the wrapped stream and the counter untouched; otherwise: the wrapped stream's result unchanged, and `size` grows by exactly the accepted count; name, total and canceled are kept |
| `ProgressSpec.Step` | src/progress.rs:42-173 | every operation keeps the name; it grows `size` by exactly the count its reply reports; it sets `canceled` iff it is a cancel or the flag was already set; a polling operation that finds the lock busy leaves the record unchanged |
| `ProgressSpec.Run` | src/progress.rs:32-34 | serialised by the mutex, a history yields one reply per operation, in order |
| `ProgressSpec.SizeCountsAcceptedWrites` | src/progress.rs:97-108 | after any history, `size` is its start value plus the sum of the byte counts of all successful writes reported to callers (no lost or double counting) |
| `ProgressSpec.SizeMonotone` | src/progress.rs:104 | no history decreases `size` |
| `ProgressSpec.NameKept` | src/progress.rs:43-52 | the name set at construction is never changed by any history |
| `ProgressSpec.CanceledIff` | src/progress.rs:58-60 | the cell ends canceled iff it started canceled or the history contains a cancel; nothing resets the flag |
| `ProgressSpec.TotalIsLastSet` | src/progress.rs:54-56 | `total` after a history is the argument of the most recent `set_total`, or the start value if there was none |
| `ProgressSpec.StateAtMonotone` | src/progress.rs:13-19 | between two points of a history `size` does not decrease, a set cancel flag stays set and the name is the same |
| `ProgressSpec.SnapshotsNeverRegress` | src/progress.rs:62-71 | of two snapshots in a history, the later one shows at least as many bytes, is canceled if the earlier one is, and has the same name |
| `ProgressSpec.WritesAfterCancelFail` | src/progress.rs:99-100 | every write that obtains the lock after a cancel returns the cancellation error and leaves the record unchanged |
| `ProgressSpec.CanceledSizeFrozen` | src/progress.rs:99-100 | from a canceled record no history changes `size`, and no reply reports accepted bytes |
| `ProgressSpec.CancelTwiceIsOnce` | src/progress.rs:58-60 | cancel twice in a row has the same effect as cancel once, in any history: the same final record and the same replies to every later operation |
| `Progress.Progress.constructor` | src/progress.rs:43-52 | a new cell has the given name and stream, `total = 0`, `size = 0` and is not canceled |
| `Progress.Progress.SetTotal` | src/progress.rs:54-56 | sets `total`, overwriting any earlier value; name, size, canceled and the stream are unchanged; equals the spec step |
| `Progress.Progress.Cancel` | src/progress.rs:58-60 | sets `canceled`; nothing else changes; equals the spec step |
| `Progress.Progress.ToItem` | src/progress.rs:62-71 | the snapshot has the given id and the current name, total, size and canceled; the matching spec step leaves the record unchanged |
| `Progress.Progress.PollRead` | src/progress.rs:74-89 | busy lock: `Pending`, no change; otherwise the wrapped stream's read result and new state, with counters and flag unchanged |
| `Progress.Progress.PollWrite` | src/progress.rs:92-114 | busy lock: `Pending`, no change; canceled: the cancellation error, stream untouched; otherwise the wrapped stream's result, and `size` grows by exactly the accepted count |
| `Progress.Progress.PollFlush` | src/progress.rs:116-128 | busy lock: `Pending`, no change; otherwise the wrapped stream's flush result and new state, also when canceled; counters unchanged |
| `Progress.Progress.PollShutdown` | src/progress.rs:130-142 | busy lock: `Pending`, no change; otherwise the wrapped stream's shutdown result and new state, also when canceled; counters unchanged |
| `Progress.Progress.StartSeek` | src/progress.rs:146-159 | busy lock: `Pending`, no change; otherwise the wrapped stream's start_seek result for the position and its new state; counters unchanged |
| `Progress.Progress.PollComplete` | src/progress.rs:161-173 | busy lock: `Pending`, no change; otherwise the wrapped stream's seek offset result and new state; counters unchanged |
| `Scenarios.Replay` | src/progress.rs:32-34 | any sequence of calls on one shared cell, each a critical section of its mutex, leaves the object in the record `Run` predicts and returns the replies `Run` predicts |
| `Scenarios.HelloPassthrough` | src/progress.rs:97-108 | writing "hello" into an in-memory buffer through the decorator: a busy lock gives `Pending`; the write returns 5; the buffer holds exactly "hello" and the count is 5; flushing still succeeds after a cancel |
| `Scenarios.CancelMidTransfer` | src/progress.rs:97-108 | with total 1000, a 400-byte write succeeds; after a cancel through a second handle, a 100-byte write fails with the cancellation error; the snapshot reads total 1000, size 400, canceled |

## Left out

- ProgressSpec.Write: `size` is an unbounded `nat`. The source's `size += n as u64` would panic (debug build) or wrap (release build) past 2^64 - 1; that is not modelled.
- Progress.Progress.PollWrite: same as above; `Item.size` is unbounded for the same reason.
- Progress.Progress.PollRead: the caller's `&mut [u8]` buffer is modelled as its capacity going in and the bytes read coming out. The source returns a byte count and fills the buffer in place.
- The async and locking machinery is not modelled: `Arc`, `tokio::sync::Mutex`, `Pin`, `Context`, waker registration, and re-boxing the lock future on every poll. Each operation is one atomic step, and a lock that is not ready is the `Busy` no-op.
- Waiting for the lock inside `set_total`, `cancel` and `to_item` (`.await`) is not modelled; these calls complete atomically.
- The real behaviour of the wrapped stream `T` (a file, `io::sink`, seek offsets) is foreign code. It is a per-call function parameter; the scenarios use an in-memory buffer.
- `Io.ErrorKind` is a subset of Rust's `std::io::ErrorKind`. Delegated errors pass through unchanged whatever their kind.
- `Clone` (src/progress.rs:36-40) has no member: copying a Dafny reference is the clone, and `Scenarios.CancelMidTransfer` uses two handles to one cell.
- The `println!` of the counter (src/progress.rs:106) is console output with no effect on state.
- The `Debug` impl (src/progress.rs:21-30) only formats.
- `src/main.rs` is not part of this model. It is a driver: it opens a file, runs `io::copy`, spawns tasks and prints snapshots every 100 ms.
