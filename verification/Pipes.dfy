/** Pipes (kvfs.py, `Pipe`): a bounded byte queue with counted ends. */
module Pipes {
  import opened Words

  const PIPE_SIZE: int := 4096

  datatype PipeValue = PipeValue(buf: seq<Byte>, readers: int, writers: int)
  {
    function Space(): int {
      PIPE_SIZE - 1 - |buf|
    }
  }

  const EMPTY_PIPE: PipeValue := PipeValue([], 0, 0)

  /** What a read or write of a pipe comes to. */
  datatype Transfer = Moved(pipe: PipeValue, data: seq<Byte>) | WouldBlock | Broken

  /** Up to n bytes; the end of file only when drained and without writers. */
  function ReadPipe(p: PipeValue, n: nat): Transfer {
    if p.buf != [] then
      var k := Min(n, |p.buf|);
      Moved(p.(buf := p.buf[k..]), p.buf[..k])
    else if p.writers == 0 then Moved(p, [])
    else WouldBlock
  }

  /** The accepted prefix of data; it may be shorter than data. */
  function WritePipe(p: PipeValue, data: seq<Byte>): Transfer {
    if p.readers == 0 then Broken
    else if data == [] then Moved(p, [])
    else if p.Space() <= 0 then WouldBlock
    else
      var k := Min(|data|, p.Space());
      Moved(p.(buf := p.buf + data[..k]), data[..k])
  }

  /** A pipe with everything it ever accepted and delivered. */
  datatype Traffic = Traffic(pipe: PipeValue, accepted: seq<Byte>, delivered: seq<Byte>)

  /** Nothing is lost, duplicated or reordered, and the buffer keeps within its page. */
  predicate Conserved(t: Traffic) {
    t.accepted == t.delivered + t.pipe.buf && |t.pipe.buf| <= PIPE_SIZE - 1
  }

  datatype PipeOp = Read(n: nat) | Write(data: seq<Byte>) | Count(readers: int, writers: int)

  /** One operation of some process; blocked and failing calls leave the pipe as it was. */
  function Apply(t: Traffic, op: PipeOp): Traffic {
    match op
    case Read(n) =>
      var r := ReadPipe(t.pipe, n);
      if r.Moved? then Traffic(r.pipe, t.accepted, t.delivered + r.data) else t
    case Write(data) =>
      var r := WritePipe(t.pipe, data);
      if r.Moved? then Traffic(r.pipe, t.accepted + r.data, t.delivered) else t
    case Count(readers, writers) => t.(pipe := t.pipe.(readers := readers, writers := writers))
  }

  function ApplyAll(t: Traffic, ops: seq<PipeOp>): Traffic
    decreases |ops|
  {
    if |ops| == 0 then t else ApplyAll(Apply(t, ops[0]), ops[1..])
  }

  lemma OpConserves(t: Traffic, op: PipeOp)
    requires Conserved(t)
    ensures Conserved(Apply(t, op))
  {
    match op
    case Read(n) =>
      var k := Min(n, |t.pipe.buf|);
      assert t.delivered + t.pipe.buf == (t.delivered + t.pipe.buf[..k]) + t.pipe.buf[k..];
    case Write(data) =>
    case Count(_, _) =>
  }

  /** Over any interleaving of reads, writes and descriptor changes, the bytes delivered followed by
      the buffer are the bytes accepted. */
  lemma {:induction false} PipesConserve(t: Traffic, ops: seq<PipeOp>)
    requires Conserved(t)
    ensures Conserved(ApplyAll(t, ops))
    decreases |ops|
  {
    if |ops| > 0 {
      OpConserves(t, ops[0]);
      PipesConserve(Apply(t, ops[0]), ops[1..]);
    }
  }

  /** A read with a positive count returns nothing exactly at the end of file; a write of some data
      fails exactly without readers and blocks exactly when the page is full; each moves a prefix,
      never an empty one otherwise, and as much as was asked for and there is (4095 bytes at most in the
      pipe). */
  lemma PipeOutcomes(p: PipeValue, n: nat, data: seq<Byte>)
    requires n > 0 && data != [] && |p.buf| <= PIPE_SIZE - 1
    ensures ReadPipe(p, n).WouldBlock? <==> p.buf == [] && p.writers != 0
    ensures ReadPipe(p, n).Moved? && ReadPipe(p, n).data == [] <==> p.buf == [] && p.writers == 0
    ensures ReadPipe(p, n).Moved? ==> p.buf == ReadPipe(p, n).data + ReadPipe(p, n).pipe.buf
    ensures WritePipe(p, data).Broken? <==> p.readers == 0
    ensures WritePipe(p, data).WouldBlock? <==> p.readers != 0 && |p.buf| == PIPE_SIZE - 1
    ensures WritePipe(p, data).Moved? ==>
      WritePipe(p, data).data != [] && WritePipe(p, data).data <= data
    ensures ReadPipe(p, n).Moved? ==> ReadPipe(p, n).data == p.buf[..Min(n, |p.buf|)]
    ensures WritePipe(p, data).Moved? ==>
      && |WritePipe(p, data).data| == Min(|data|, 4095 - |p.buf|)
      && WritePipe(p, data).pipe.buf == p.buf + WritePipe(p, data).data
    ensures ReadPipe(p, n).Moved? ==> ReadPipe(p, n).pipe == p.(buf := ReadPipe(p, n).pipe.buf)
    ensures WritePipe(p, data).Moved? ==> WritePipe(p, data).pipe == p.(buf := WritePipe(p, data).pipe.buf)
  {
  }

  // ---- The object ------------------------------------------------------------------

  class Pipe {
    var buf: seq<Byte>
    var readers: int
    var writers: int

    function Value(): PipeValue
      reads this
    {
      PipeValue(buf, readers, writers)
    }

    constructor ()
      ensures Value() == EMPTY_PIPE
    {
      buf, readers, writers := [], 0, 0;
    }

    /** None means that the caller has to block. */
    method Read(n: nat) returns (r: Option<seq<Byte>>)
      modifies this`buf
      ensures var t := ReadPipe(old(Value()), n);
        if t.Moved? then r == Some(t.data) && Value() == t.pipe else r == None && Value() == old(Value())
    {
      if buf != [] {
        var k := Min(n, |buf|);
        r := Some(buf[..k]);
        buf := buf[k..];
        return;
      }
      return if writers == 0 then Some([]) else None;
    }

    method Write(data: seq<Byte>) returns (t: Transfer)
      modifies this`buf
      ensures t == WritePipe(old(Value()), data)
      ensures Value() == if t.Moved? then t.pipe else old(Value())
    {
      if readers == 0 { return Broken; }
      if data == [] { return Moved(Value(), []); }
      var room := PIPE_SIZE - 1 - |buf|;
      if room <= 0 { return WouldBlock; }
      var chunk := data[..Min(|data|, room)];
      buf := buf + chunk;
      t := Moved(Value(), chunk);
    }
  }
}
