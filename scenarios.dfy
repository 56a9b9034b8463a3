/** Clients of the decorator over an in-memory byte buffer, the way a copy
    loop and an observer use it: what they can conclude from the decorator's
    contracts alone. */
module Scenarios {
  import opened Io
  import opened Item
  import opened ProgressSpec
  import opened Progress

  /** An in-memory sink: a write appends all the bytes and reports them. */
  function MemWrite(b: seq<byte>, data: seq<byte>): (d: Delegated<seq<byte>, nat>)
    ensures d.buf == b + data && d.poll == Ready(Ok(|data|))
  {
    Delegated(b + data, Ready(Ok(|data|)))
  }

  /** Flushing an in-memory sink succeeds and changes nothing. */
  function MemFlush(b: seq<byte>): (d: Delegated<seq<byte>, ()>)
    ensures d.buf == b && d.poll == Ready(Ok(()))
  {
    Delegated(b, Ready(Ok(())))
  }

  const HELLO: seq<byte> := [0x68, 0x65, 0x6c, 0x6c, 0x6f]

  /** Writing "hello" through the decorator leaves exactly "hello" in the
      wrapped buffer and a count of 5; a write that finds the lock held does
      nothing; flushing still works after a cancel. */
  method HelloPassthrough()
    returns (pending: Poll<IoResult<nat>>, written: Poll<IoResult<nat>>, sink: seq<byte>, flushed: Poll<IoResult<()>>, item: Item)
    ensures pending == Pending
    ensures written == Ready(Ok(5))
    ensures sink == HELLO
    ensures flushed == Ready(Ok(()))
    ensures item == Item("id", "hello", 0, 5, true)
  {
    var pg := new Progress<seq<byte>>("hello", []);
    pending := pg.PollWrite(Busy, HELLO, MemWrite);
    written := pg.PollWrite(Acquired, HELLO, MemWrite);
    pg.Cancel();
    flushed := pg.PollFlush(Acquired, MemFlush);
    sink := pg.buf;
    item := pg.ToItem("id");
  }

  /** Expected total 1000; 400 bytes go through; an observer holding a
      cloned handle cancels; the next 100-byte write fails and the count
      stays at 400. */
  method CancelMidTransfer() returns (first: Poll<IoResult<nat>>, second: Poll<IoResult<nat>>, item: Item)
    ensures first == Ready(Ok(400))
    ensures second == Ready(Err(CANCELED_ERROR))
    ensures item == Item("id", "test", 1000, 400, true)
  {
    var pg := new Progress<seq<byte>>("test", []);
    var observer := pg;
    pg.SetTotal(1000);
    first := pg.PollWrite(Acquired, seq(400, _ => 0), MemWrite);
    observer.Cancel();
    second := pg.PollWrite(Acquired, seq(100, _ => 0), MemWrite);
    item := observer.ToItem("id");
  }

  /** Drives one handle through a whole history of operations, one call per
      operation, as the tasks sharing the cell do one lock acquisition at a
      time. The object ends in the record `Run` predicts and the calls return
      the replies `Run` predicts, so every lemma about `Run` holds of the
      object. */
  method Replay<T>(pg: Progress<T>, ops: seq<Op<T>>) returns (replies: seq<Reply>)
    modifies pg
    ensures pg.State() == Run(old(pg.State()), ops).last
    ensures replies == Run(old(pg.State()), ops).replies
  {
    ghost var s0 := pg.State();
    replies := [];
    var i := 0;
    while i < |ops|
      invariant 0 <= i <= |ops|
      invariant pg.State() == Run(s0, ops[..i]).last
      invariant replies == Run(s0, ops[..i]).replies
    {
      var op := ops[i];
      var r: Reply;
      match op {
        case SetTotalOp(total) =>
          pg.SetTotal(total);
          r := Done;
        case CancelOp =>
          pg.Cancel();
          r := Done;
        case ToItemOp(id) =>
          r := ItemReply(pg.ToItem(id));
        case ReadOp(lock, capacity, read) =>
          var p := pg.PollRead(lock, capacity, read);
          r := ReadReply(p);
        case WriteOp(lock, data, write) =>
          var p := pg.PollWrite(lock, data, write);
          r := WriteReply(p);
        case FlushOp(lock, flush) =>
          var p := pg.PollFlush(lock, flush);
          r := UnitReply(p);
        case ShutdownOp(lock, shutdown) =>
          var p := pg.PollShutdown(lock, shutdown);
          r := UnitReply(p);
        case StartSeekOp(lock, position, seek) =>
          var p := pg.StartSeek(lock, position, seek);
          r := UnitReply(p);
        case CompleteOp(lock, complete) =>
          var p := pg.PollComplete(lock, complete);
          r := OffsetReply(p);
      }
      assert ops[..i + 1] == ops[..i] + [op];
      RunAppend(s0, ops[..i], [op]);
      replies := replies + [r];
      i := i + 1;
    }
    assert ops[..i] == ops;
  }
}
