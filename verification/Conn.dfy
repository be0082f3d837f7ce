/** The `conn_t` object: its queue of chunks, addressed by a head and by the address of its last link. */
module Connections {
  import opened Bytes
  import opened OutputQueue
  import opened Segments

  /** `chunk_t`. */
  class Chunk {
    var next: Chunk?
    var used: nat
    const buf: seq<byte>

    constructor (buf: seq<byte>)
      ensures this.buf == buf && next == null && used == 0
    {
      this.buf := buf;
      next, used := null, 0;
    }

    /** The unwritten part. */
    function Rest(): seq<byte>
      requires used <= |buf|
      reads this`used
    {
      buf[used..]
    }

    /** A successful `write` of up to `count` bytes of the chunk. */
    method Write(count: nat) returns (part: seq<byte>)
      requires used < |buf|
      modifies this`used
      ensures used <= |buf|
      ensures if count < |old(Rest())| then used < |buf| && part == old(Rest())[..count] && Rest() == old(Rest())[count..]
              else used == |buf| && part == old(Rest())
    {
      var n := Min(count, |buf| - used);
      part := buf[used..][..n];
      used := used + n;
    }
  }

  type DataBuf = s: seq<byte> | |s| <= MAX_DATA

  /** The outcomes of `conn_input`: -1, or the characters read, possibly none. */
  datatype InputResult = Eof | Chars(buf: DataBuf)

  class Conn {
    var initSeqno: u32
    var theirInitSeqno: u32
    var seqno: u32
    var nextSeqno: u32
    var ackno: u32

    var readEof: bool
    var wroteEof: bool
    var wroteErr: bool
    var deleteMe: bool

    var outQueue: Chunk?
    /** The chunk whose `next` field `out_queue_tail` addresses; null when it addresses `out_queue`. */
    var outQueueTail: Chunk?

    /**
     The queue in order, the unwritten parts of its chunks, the bytes that `write` has taken, and the
     segments whose encoding `conn_send` took.
     */
    ghost var chunks: seq<Chunk>
    ghost var rests: seq<seq<byte>>
    ghost var written: seq<byte>
    ghost var sent: seq<Segment>

    /** The queue is a list without sharing that ends at the link that the tail addresses. */
    ghost predicate Linked()
      reads this`chunks, this`outQueue, this`outQueueTail, chunks`next
    {
      && (forall i, j :: 0 <= i < j < |chunks| ==> chunks[i] != chunks[j])
      && outQueue == (if chunks == [] then null else chunks[0])
      && outQueueTail == (if chunks == [] then null else chunks[|chunks| - 1])
      && (forall i :: 0 <= i < |chunks| - 1 ==> chunks[i].next == chunks[i + 1])
      && (chunks != [] ==> chunks[|chunks| - 1].next == null)
    }

    /** From the `k`th chunk on, the unwritten parts are what the chunks say. */
    ghost predicate Filled(k: nat)
      reads this`chunks, this`rests, chunks`used
    {
      && |rests| == |chunks|
      && (forall i :: k <= i < |chunks| ==> chunks[i].used < |chunks[i].buf| && rests[i] == chunks[i].Rest())
    }

    ghost predicate Valid()
      reads this`chunks, this`rests, this`outQueue, this`outQueueTail, chunks`next, chunks`used
    {
      Linked() && Filled(0)
    }

    lemma HeadIs()
      requires Valid()
      ensures outQueue == null <==> rests == []
      ensures outQueue != null ==> chunks != [] && outQueue == chunks[0]
      ensures outQueue != null ==> forall i :: 1 <= i < |chunks| ==> chunks[i] != outQueue
    {
    }

    ghost function Queue(): Outq
      reads this
    {
      Outq(written, rests, wroteEof, wroteErr)
    }

    /** `conn_setup` on a zeroed object, with the value of `rand()`, and the queue part of `conn_add`. */
    constructor (random: u32)
      ensures Valid() && Queue() == EMPTY && sent == [] && fresh(chunks)
      ensures initSeqno == nextSeqno == random && theirInitSeqno == seqno == ackno == 0
      ensures !readEof && !deleteMe
    {
      initSeqno, theirInitSeqno, seqno, nextSeqno, ackno := random, 0, 0, random, 0;
      readEof, wroteEof, wroteErr, deleteMe := false, false, false, false;
      outQueue, outQueueTail := null, null;
      chunks, rests, written, sent := [], [], [], [];
    }

    /** `conn_send`; `ok` says whether `sendto` succeeds. Loss and the other faults belong to the channel. */
    method Send(segment: CtcpSegment, ghost value: Segment, ok: bool) returns (r: int)
      requires !deleteMe && segment.Raw() == Encode(value)
      modifies this`sent
      ensures sent == if ok then old(sent) + [value] else old(sent)
      ensures r < 0 <==> !ok
    {
      if !ok {
        return -1;
      }
      sent := sent + [value];
      r := HDR + |segment.data|;
    }

    /** `conn_input`: end of file is sticky. */
    method Input(input: InputResult) returns (result: InputResult)
      requires !deleteMe
      modifies this`readEof
      ensures readEof == (old(readEof) || input.Eof?)
      ensures result == if readEof then Eof else input
    {
      if readEof {
        return Eof;
      }
      readEof := input.Eof?;
      result := input;
    }

    /** `conn_bufspace`. */
    method Bufspace() returns (space: nat)
      requires Valid()
      ensures space == Queue().Space()
    {
      var chunk := outQueue;
      var used := 0;
      ghost var i := 0;
      while chunk != null
        invariant 0 <= i <= |chunks|
        invariant chunk == if i < |chunks| then chunks[i] else null
        invariant used == |Flatten(rests[..i])|
        decreases |chunks| - i
      {
        assert rests[..i + 1] == rests[..i] + [rests[i]];
        FlattenSnoc(rests[..i], rests[i]);
        used := used + (|chunk.buf| - chunk.used);
        chunk := chunk.next;
        i := i + 1;
      }
      assert rests[..i] == rests;
      space := if used > MAX_BUF_SPACE then 0 else MAX_BUF_SPACE - used;
    }

    /** Links a new chunk where the tail points. */
    method Append(buf: seq<byte>)
      requires Valid() && buf != []
      modifies this`outQueue, this`outQueueTail, this`chunks, this`rests, chunks
      ensures Valid() && |chunks| == |old(chunks)| + 1 && fresh(chunks[|old(chunks)|])
      ensures chunks[..|old(chunks)|] == old(chunks)
      ensures rests == old(rests) + [buf]
    {
      hide Linked;
      var chunk := new Chunk(buf);
      Link(chunk);
      rests := rests + [buf];
    }

    method Link(chunk: Chunk)
      requires Linked() && chunk !in chunks && chunk.next == null
      modifies this`outQueue, this`outQueueTail, this`chunks, chunks`next
      ensures Linked() && chunks == old(chunks) + [chunk]
    {
      if outQueueTail == null {
        outQueue := chunk;
      } else {
        outQueueTail.next := chunk;
      }
      outQueueTail := chunk;
      chunks := chunks + [chunk];
    }

    /** `conn_output`; `w` is the outcome of its `write`. */
    method Output(buf: seq<byte>, w: WriteResult) returns (r: int)
      requires Valid() && !deleteMe
      modifies this`outQueue, this`outQueueTail, this`chunks, this`rests, this`written, this`wroteEof, this`wroteErr, chunks
      ensures Valid()
      ensures |chunks| == |old(chunks)| || (|chunks| == |old(chunks)| + 1 && fresh(chunks[|old(chunks)|]))
      ensures chunks[..|old(chunks)|] == old(chunks)
      ensures (Queue(), r) == Put(old(Queue()), buf, w)
    {
      hide Valid, Outq.Pending, Outq.All;
      if wroteEof {
        return 0;
      }
      if |buf| == 0 {
        wroteEof := true;
        return 0;
      }
      if wroteErr {
        return -1;
      }
      var space := Bufspace();
      if space == 0 {
        return 0;
      }
      r := WriteOrQueue(buf, w);
    }

    /** The part of `conn_output` that takes the buffer. */
    method WriteOrQueue(buf: seq<byte>, w: WriteResult) returns (r: int)
      requires Valid() && !wroteEof && buf != [] && !wroteErr && Queue().Space() != 0
      modifies this`outQueue, this`outQueueTail, this`chunks, this`rests, this`written, this`wroteErr, chunks
      ensures Valid()
      ensures |chunks| == |old(chunks)| || (|chunks| == |old(chunks)| + 1 && fresh(chunks[|old(chunks)|]))
      ensures chunks[..|old(chunks)|] == old(chunks)
      ensures (Queue(), r) == Put(old(Queue()), buf, w)
    {
      HeadIs();
      hide Valid, Outq.Space;
      var left := buf;
      if outQueue == null {
        left := WriteNow(buf, w);
        if wroteErr {
          return -1;
        }
      }
      if left != [] {
        assert [] + [left] == [left];
        Append(left);
      }
      r := |buf|;
    }

    /** The immediate `write` of `conn_output`: what it did not take is returned. */
    method WriteNow(buf: seq<byte>, w: WriteResult) returns (left: seq<byte>)
      requires rests == [] && !wroteEof && !wroteErr && buf != []
      modifies this`written, this`wroteErr
      ensures wroteErr == w.Failed?
      ensures var (q, r) := Put(old(Queue()), buf, w);
        Queue() == q.(queue := []) && (r == -1 <==> w.Failed?) && (!w.Failed? ==> q.queue == if left == [] then [] else [left])
    {
      left := buf;
      match w
      case Failed =>
        wroteErr := true;
      case Again =>
        assert [] + [buf] == [buf];
      case Wrote(count) =>
        var n := Min(count, |buf|);
        written := written + buf[..n];
        left := buf[n..];
    }

    /** A successful `write` of up to `count` bytes of the first chunk. */
    method WriteChunk(count: nat) returns (part: seq<byte>)
      requires Valid() && outQueue != null
      modifies outQueue`used
      ensures Linked() && Filled(1) && outQueue == chunks[0] && outQueue.used <= |outQueue.buf|
      ensures if count < |rests[0]|
              then outQueue.used < |outQueue.buf| && part == rests[0][..count] && outQueue.Rest() == rests[0][count..]
              else outQueue.used == |outQueue.buf| && part == rests[0]
    {
      HeadIs();
      hide Linked, Chunk.Rest;
      part := outQueue.Write(count);
    }

    /** The first chunk leaves the queue. */
    method Unlink()
      requires Linked() && Filled(1) && outQueue != null
      modifies this`outQueue, this`outQueueTail, this`chunks, this`rests
      ensures Valid() && chunks == old(chunks)[1..] && rests == old(rests)[1..]
    {
      ghost var was, parts := chunks, rests;
      outQueue := outQueue.next;
      if outQueue == null {
        outQueueTail := null;
      }
      chunks, rests := chunks[1..], rests[1..];
      assert forall i :: 0 <= i < |chunks| ==> chunks[i] == was[i + 1] && rests[i] == parts[i + 1];
    }

    /** The first chunk has become shorter. */
    ghost method Shorten()
      requires Linked() && Filled(1) && outQueue != null && outQueue.used < |outQueue.buf|
      modifies this`rests
      ensures Valid() && rests == old(rests)[0 := outQueue.Rest()]
    {
      hide Chunk.Rest;
      rests := rests[0 := outQueue.Rest()];
    }

    /** One successful `write` of `conn_drain`, and the unlinking of a chunk that it completes. */
    method WriteHead(count: nat) returns (complete: bool)
      requires Valid() && outQueue != null
      modifies this`outQueue, this`outQueueTail, this`chunks, this`rests, this`written, outQueue`used
      ensures Valid() && chunks == if complete then old(chunks)[1..] else old(chunks)
      ensures complete <==> count >= |old(rests)[0]|
      ensures Queue() == HeadWritten(old(Queue()), count)
    {
      HeadIs();
      hide Linked, Filled, Chunk.Rest, Outq.All, Outq.Pending;
      var part := WriteChunk(count);
      written := written + part;
      if outQueue.used < |outQueue.buf| {
        Shorten();
        return false;
      }
      Unlink();
      return true;
    }

    /** `conn_drain` without its callback; `ws` are the outcomes of its calls to `write`. */
    method Drain(ws: seq<WriteResult>)
      requires Valid()
      modifies this`outQueue, this`outQueueTail, this`chunks, this`rests, this`written, this`wroteErr, chunks
      ensures Valid() && (forall c :: c in chunks ==> c in old(chunks))
      ensures Queue() == Drained(old(Queue()), ws)
    {
      hide Valid, HeadWritten, DrainLoop;
      if wroteErr {
        return;
      }
      ghost var goal := DrainLoop(Queue(), ws);
      var i := 0;
      assert ws[0..] == ws;
      while outQueue != null
        invariant 0 <= i <= |ws| && Valid() && !wroteErr
        invariant forall c :: c in chunks ==> c in old(chunks)
        invariant DrainLoop(Queue(), ws[i..]) == goal
        decreases |chunks|
      {
        HeadIs();
        DrainLoopTurn(Queue(), ws, i);
        if i == |ws| || ws[i].Again? {
          break;
        }
        if ws[i].Failed? {
          wroteErr := true;
          break;
        }
        assert outQueue in old(chunks);
        var complete := WriteHead(ws[i].n);
        if !complete {
          break;
        }
        i := i + 1;
      }
      HeadIs();
      DrainLoopTurn(Queue(), ws, i);
      assert Queue() == goal;
      if wroteEof && !wroteErr && outQueue == null {
        wroteErr := true;
      }
    }
  }
}
