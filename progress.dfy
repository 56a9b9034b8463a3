/** The progress decorator: a shared cell holding a label, the expected
    total, the count of bytes written, a cancel flag and the wrapped stream.
    A Dafny reference to the cell plays the part of the reference-counted
    handle, so cloning a handle is copying the reference and every clone
    sees the same fields. Each method is one critical section of the cell's
    mutex and is tied to the matching step of `ProgressSpec`. */
module Progress {
  import opened Io
  import opened Item
  import opened ProgressSpec

  class Progress<T> {
    var name: string
    var total: u64
    var size: nat
    var canceled: bool
    var buf: T

    /** The record these fields hold. */
    function State(): ProgressInner<T>
      reads this
    {
      ProgressInner(name, total, size, canceled, buf)
    }

    /** A fresh cell around `buf`: no total yet, nothing written, active. */
    constructor (name: string, buf: T)
      ensures this.name == name && this.buf == buf
      ensures total == 0 && size == 0 && !canceled
    {
      this.name := name;
      this.total := 0;
      this.size := 0;
      this.canceled := false;
      this.buf := buf;
    }

    /** Records the expected total, replacing any earlier value. */
    method SetTotal(total: u64)
      modifies this
      ensures (State(), Done) == Step(old(State()), SetTotalOp(total))
      ensures this.total == total
      ensures name == old(name) && size == old(size) && canceled == old(canceled) && buf == old(buf)
    {
      this.total := total;
    }

    /** Marks the cell canceled; later writes through any handle fail. */
    method Cancel()
      modifies this
      ensures (State(), Done) == Step(old(State()), CancelOp)
      ensures canceled
      ensures name == old(name) && total == old(total) && size == old(size) && buf == old(buf)
    {
      canceled := true;
    }

    /** A snapshot of the cell labelled `id`; taking it changes nothing. */
    function ToItem(id: string): (it: Item)
      reads this
      ensures Step(State(), ToItemOp(id)) == (State(), ItemReply(it))
      ensures it.id == id && it.name == name && it.total == total && it.size == size && it.canceled == canceled
    {
      Snapshot(State(), id)
    }

    /** Reads through to the wrapped stream into a buffer of `capacity`
        bytes; nothing is counted. */
    method PollRead(lock: Lock, capacity: nat, read: (T, nat) -> Delegated<T, seq<byte>>)
      returns (r: Poll<IoResult<seq<byte>>>)
      modifies this
      ensures (State(), ReadReply(r)) == Step(old(State()), ReadOp(lock, capacity, read))
      ensures name == old(name) && total == old(total) && size == old(size) && canceled == old(canceled)
      ensures lock.Busy? ==> r == Pending && buf == old(buf)
      ensures lock.Acquired? ==> r == read(old(buf), capacity).poll && buf == read(old(buf), capacity).buf
    {
      if lock.Busy? {
        return Pending;
      }
      var d := read(buf, capacity);
      buf := d.buf;
      r := d.poll;
    }

    /** Writes through to the wrapped stream unless the cell is canceled,
        adding the accepted byte count to `size`. */
    method PollWrite(lock: Lock, data: seq<byte>, write: (T, seq<byte>) -> Delegated<T, nat>)
      returns (r: Poll<IoResult<nat>>)
      modifies this
      ensures (State(), WriteReply(r)) == Step(old(State()), WriteOp(lock, data, write))
      ensures name == old(name) && total == old(total) && canceled == old(canceled)
      ensures size == old(size) + WriteCount(r)
      ensures lock.Busy? ==> r == Pending && buf == old(buf)
      ensures lock.Acquired? && old(canceled) ==> r == Ready(Err(CANCELED_ERROR)) && buf == old(buf)
      ensures lock.Acquired? && !old(canceled) ==> r == write(old(buf), data).poll && buf == write(old(buf), data).buf
    {
      if lock.Busy? {
        return Pending;
      }
      if canceled {
        return Ready(Err(CANCELED_ERROR));
      }
      var d := write(buf, data);
      buf := d.buf;
      if d.poll.Ready? && d.poll.value.Ok? {
        size := size + d.poll.value.value;
      }
      r := d.poll;
    }

    /** Flushes the wrapped stream; works whether or not the cell is canceled. */
    method PollFlush(lock: Lock, flush: T -> Delegated<T, ()>) returns (r: Poll<IoResult<()>>)
      modifies this
      ensures (State(), UnitReply(r)) == Step(old(State()), FlushOp(lock, flush))
      ensures name == old(name) && total == old(total) && size == old(size) && canceled == old(canceled)
      ensures lock.Busy? ==> r == Pending && buf == old(buf)
      ensures lock.Acquired? ==> r == flush(old(buf)).poll && buf == flush(old(buf)).buf
    {
      if lock.Busy? {
        return Pending;
      }
      var d := flush(buf);
      buf := d.buf;
      r := d.poll;
    }

    /** Shuts the wrapped stream down; works whether or not the cell is canceled. */
    method PollShutdown(lock: Lock, shutdown: T -> Delegated<T, ()>) returns (r: Poll<IoResult<()>>)
      modifies this
      ensures (State(), UnitReply(r)) == Step(old(State()), ShutdownOp(lock, shutdown))
      ensures name == old(name) && total == old(total) && size == old(size) && canceled == old(canceled)
      ensures lock.Busy? ==> r == Pending && buf == old(buf)
      ensures lock.Acquired? ==> r == shutdown(old(buf)).poll && buf == shutdown(old(buf)).buf
    {
      if lock.Busy? {
        return Pending;
      }
      var d := shutdown(buf);
      buf := d.buf;
      r := d.poll;
    }

    /** Starts a seek of the wrapped stream to `position`. */
    method StartSeek(lock: Lock, position: SeekFrom, seek: (T, SeekFrom) -> Delegated<T, ()>)
      returns (r: Poll<IoResult<()>>)
      modifies this
      ensures (State(), UnitReply(r)) == Step(old(State()), StartSeekOp(lock, position, seek))
      ensures name == old(name) && total == old(total) && size == old(size) && canceled == old(canceled)
      ensures lock.Busy? ==> r == Pending && buf == old(buf)
      ensures lock.Acquired? ==> r == seek(old(buf), position).poll && buf == seek(old(buf), position).buf
    {
      if lock.Busy? {
        return Pending;
      }
      var d := seek(buf, position);
      buf := d.buf;
      r := d.poll;
    }

    /** Polls the wrapped stream for the offset a started seek reached. */
    method PollComplete(lock: Lock, complete: T -> Delegated<T, u64>) returns (r: Poll<IoResult<u64>>)
      modifies this
      ensures (State(), OffsetReply(r)) == Step(old(State()), CompleteOp(lock, complete))
      ensures name == old(name) && total == old(total) && size == old(size) && canceled == old(canceled)
      ensures lock.Busy? ==> r == Pending && buf == old(buf)
      ensures lock.Acquired? ==> r == complete(old(buf)).poll && buf == complete(old(buf)).buf
    {
      if lock.Busy? {
        return Pending;
      }
      var d := complete(buf);
      buf := d.buf;
      r := d.poll;
    }
  }
}
