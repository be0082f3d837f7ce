/** The output queue of a connection: `conn_bufspace`, `conn_drain` and `conn_output` of `ctcp_sys_internal.c`. */
module OutputQueue {
  import opened Bytes

  const MAX_BUF_SPACE := 8192

  /** The outcomes of `write`; a count beyond what was offered stands for all of it. */
  datatype WriteResult = Wrote(n: nat) | Again | Failed

  /** What a queue holds: the bytes `write` has taken, the unwritten part of every queued chunk, and the flags. */
  datatype Outq = Outq(written: seq<byte>, queue: seq<seq<byte>>, wroteEof: bool, wroteErr: bool) {
    function Pending(): seq<byte> { Flatten(queue) }

    /** All the output so far, written or not. */
    function All(): seq<byte> { written + Pending() }

    function Space(): (space: nat)
      ensures space <= MAX_BUF_SPACE
    {
      if |Pending()| > MAX_BUF_SPACE then 0 else MAX_BUF_SPACE - |Pending()|
    }

    predicate NoEmptyChunk() {
      forall i :: 0 <= i < |queue| ==> queue[i] != []
    }
  }

  const EMPTY := Outq([], [], false, false)

  /** `conn_output`: the new queue and the value returned. */
  function Put(q: Outq, buf: seq<byte>, w: WriteResult): (Outq, int) {
    if q.wroteEof then (q, 0)
    else if buf == [] then (q.(wroteEof := true), 0)
    else if q.wroteErr then (q, -1)
    else if q.Space() == 0 then (q, 0)
    else if q.queue != [] || w.Again? then (q.(queue := q.queue + [buf]), |buf|)
    else if w.Failed? then (q.(wroteErr := true), -1)
    else
      var n := Min(w.n, |buf|);
      (q.(written := q.written + buf[..n], queue := if n < |buf| then [buf[n..]] else []), |buf|)
  }

  /** Up to `count` bytes of the first chunk are written; a chunk written to its end leaves the queue. */
  function HeadWritten(q: Outq, count: nat): Outq
    requires q.queue != []
  {
    var chunk := q.queue[0];
    if count < |chunk| then q.(written := q.written + chunk[..count], queue := q.queue[0 := chunk[count..]])
    else q.(written := q.written + chunk, queue := q.queue[1..])
  }

  /** The loop of `conn_drain`, with the outcomes of its calls to `write`; none left means that it would block. */
  function DrainLoop(q: Outq, ws: seq<WriteResult>): Outq
    decreases |ws|
  {
    if q.queue == [] || ws == [] || ws[0].Again? then q
    else if ws[0].Failed? then q.(wroteErr := true)
    else
      var q' := HeadWritten(q, ws[0].n);
      if ws[0].n < |q.queue[0]| then q' else DrainLoop(q', ws[1..])
  }

  /** One turn of the loop. */
  lemma DrainLoopTurn(q: Outq, ws: seq<WriteResult>, i: nat)
    requires i <= |ws|
    ensures q.queue == [] || i == |ws| || ws[i].Again? ==> DrainLoop(q, ws[i..]) == q
    ensures q.queue != [] && i < |ws| && ws[i].Failed? ==> DrainLoop(q, ws[i..]) == q.(wroteErr := true)
    ensures q.queue != [] && i < |ws| && ws[i].Wrote? ==>
      var q' := HeadWritten(q, ws[i].n);
      DrainLoop(q, ws[i..]) == if ws[i].n < |q.queue[0]| then q' else DrainLoop(q', ws[i + 1..])
  {
    if i < |ws| {
      assert ws[i..][0] == ws[i] && ws[i..][1..] == ws[i + 1..];
    }
  }

  /** `conn_drain`. */
  function Drained(q: Outq, ws: seq<WriteResult>): Outq {
    if q.wroteErr then q
    else
      var q' := DrainLoop(q, ws);
      if q'.wroteEof && q'.queue == [] then q'.(wroteErr := true) else q'
  }

  /** Whatever is still queued is missing from what is written. */
  lemma AllIsWritten(q: Outq)
    ensures q.written == q.All() <==> q.Pending() == []
    ensures q.(wroteErr := true).All() == q.All() && q.(wroteErr := true).Pending() == q.Pending()
  {
    assert |q.All()| == |q.written| + |q.Pending()|;
  }

  /** `conn_output` takes a whole buffer or none of it. */
  lemma PutAllOrNothing(q: Outq, buf: seq<byte>, w: WriteResult)
    requires q.NoEmptyChunk()
    ensures var (q', r) := Put(q, buf, w);
      && q'.NoEmptyChunk()
      && (r == -1 || r == 0 || r == |buf|)
      && q'.All() == q.All() + (if r > 0 then buf else [])
      && (r == -1 ==> q'.wroteErr)
      && (r == 0 && buf != [] ==> q.wroteEof || q.Space() == 0)
      && |q'.Pending()| <= |q.Pending()| + (if r > 0 then |buf| else 0)
  {
    FlattenSnoc(q.queue, buf);
    var (q', r) := Put(q, buf, w);
    if q.queue == [] && w.Wrote? && r > 0 {
      var n := Min(w.n, |buf|);
      assert q'.queue != [] ==> q'.queue[1..] == [];
      assert buf == buf[..n] + buf[n..];
    }
  }

  /** `conn_output` takes the buffer: there is no EOF and no error yet, there is room, and `write` does not fail. */
  predicate TakesBuffer(q: Outq, buf: seq<byte>, w: WriteResult) {
    && !q.wroteEof && buf != [] && !q.wroteErr && |q.Pending()| < MAX_BUF_SPACE
    && !(q.queue == [] && w.Failed?)
  }

  /** It returns an error: there was one before, or its own `write` fails. */
  predicate FailsOn(q: Outq, buf: seq<byte>, w: WriteResult) {
    && !q.wroteEof && buf != []
    && (q.wroteErr || (|q.Pending()| < MAX_BUF_SPACE && q.queue == [] && w.Failed?))
  }

  /**
   All that `conn_output` does: what it returns, the flags, how much is written at once, which is
   something only if nothing was queued, and that the rest is queued behind what was there.
   */
  lemma PutIs(q: Outq, buf: seq<byte>, w: WriteResult)
    requires q.NoEmptyChunk()
    ensures var (q', r) := Put(q, buf, w);
      var now := if TakesBuffer(q, buf, w) && q.queue == [] && w.Wrote? then Min(w.n, |buf|) else 0;
      && r == (if TakesBuffer(q, buf, w) then |buf| else if FailsOn(q, buf, w) then -1 else 0)
      && q'.wroteEof == (q.wroteEof || buf == [])
      && q'.wroteErr == (q.wroteErr || FailsOn(q, buf, w))
      && q'.All() == q.All() + (if TakesBuffer(q, buf, w) then buf else [])
      && q.written <= q'.written && |q'.written| == |q.written| + now
      && q.queue <= q'.queue && |q'.queue| == |q.queue| + if TakesBuffer(q, buf, w) && now < |buf| then 1 else 0
  {
    PutAllOrNothing(q, buf, w);
    hide Outq.All, Outq.Pending;
    assert [] + [buf] == [buf];
  }

  lemma PutFails(q: Outq, buf: seq<byte>, w: WriteResult)
    ensures Put(q, buf, w).1 < 0 ==> Put(q, buf, w).0 == q.(wroteErr := true)
  {
  }

  lemma PutWrites(q: Outq, buf: seq<byte>, w: WriteResult)
    ensures q.written <= Put(q, buf, w).0.written
  {
  }

  /** `conn_drain` only moves bytes from the front of the queue to the output. */
  lemma {:induction false} DrainLoopConserves(q: Outq, ws: seq<WriteResult>)
    requires q.NoEmptyChunk()
    ensures var q' := DrainLoop(q, ws);
      && q'.NoEmptyChunk()
      && q'.All() == q.All()
      && q.written <= q'.written
      && |q'.Pending()| <= |q.Pending()|
      && q'.wroteEof == q.wroteEof
    decreases |ws|
  {
    if q.queue == [] || ws == [] || !ws[0].Wrote? {
    } else {
      HeadWrittenConserves(q, ws[0].n);
      if ws[0].n >= |q.queue[0]| {
        DrainLoopConserves(HeadWritten(q, ws[0].n), ws[1..]);
      }
    }
  }

  lemma HeadWrittenConserves(q: Outq, count: nat)
    requires q.NoEmptyChunk() && q.queue != []
    ensures var q' := HeadWritten(q, count);
      && q'.NoEmptyChunk()
      && q'.All() == q.All()
      && q.written <= q'.written
      && |q'.Pending()| <= |q.Pending()|
  {
    var chunk := q.queue[0];
    if count < |chunk| {
      assert chunk == chunk[..count] + chunk[count..];
      assert HeadWritten(q, count).queue[1..] == q.queue[1..];
    }
  }

  lemma DrainConserves(q: Outq, ws: seq<WriteResult>)
    requires q.NoEmptyChunk()
    ensures var q' := Drained(q, ws);
      && q'.NoEmptyChunk()
      && q'.All() == q.All()
      && q.written <= q'.written
      && |q'.Pending()| <= |q.Pending()|
      && q'.wroteEof == q.wroteEof
  {
    DrainLoopConserves(q, ws);
  }

  /** `write` takes all of the `i`th chunk. */
  predicate TakesChunk(q: Outq, ws: seq<WriteResult>, i: nat)
    requires i < |q.queue| && i < |ws|
  {
    ws[i].Wrote? && ws[i].n >= |q.queue[i]|
  }

  /** The bytes of the first chunk of `rest` that the next `write` takes without finishing it. */
  function PartTaken(rest: seq<seq<byte>>, ws: seq<WriteResult>): nat {
    if rest != [] && ws != [] && ws[0].Wrote? then ws[0].n else 0
  }

  /**
   What `conn_drain` writes, by the outcomes of its calls to `write` alone: after `k` calls that took
   whole chunks it stops, at the end of the queue or at the first outcome that is not of that kind.
   */
  predicate DrainsUpTo(q: Outq, ws: seq<WriteResult>, q': Outq, k: nat) {
    && k <= |q.queue| && k <= |ws|
    && (forall i :: 0 <= i < k ==> TakesChunk(q, ws, i))
    && (k < |q.queue| && k < |ws| ==> !TakesChunk(q, ws, k))
    && var rest, part := q.queue[k..], PartTaken(q.queue[k..], ws[k..]);
    && q'.written == q.written + Flatten(q.queue[..k]) + (if rest == [] then [] else rest[0][..part])
    && q'.queue == (if rest == [] then [] else [rest[0][part..]] + rest[1..])
    && q'.wroteErr == (q.wroteErr || (rest != [] && k < |ws| && ws[k].Failed?))
    && q'.wroteEof == q.wroteEof
  }

  lemma StopsAtOnce(q: Outq, ws: seq<WriteResult>)
    requires q.queue == [] || ws == [] || !ws[0].Wrote? || ws[0].n < |q.queue[0]|
    ensures DrainsUpTo(q, ws, DrainLoop(q, ws), 0)
  {
    assert q.queue[..0] == [] && q.queue[0..] == q.queue && ws[0..] == ws;
    assert q.written + [] == q.written;
    if q.queue != [] {
      assert [q.queue[0]] + q.queue[1..] == q.queue;
      assert q.queue[0][0..] == q.queue[0];
      assert ws != [] && ws[0].Wrote? ==> [q.queue[0][ws[0].n..]] + q.queue[1..] == q.queue[0 := q.queue[0][ws[0].n..]];
    }
  }

  /** One chunk more before the others. */
  lemma OneChunkMore(q: Outq, ws: seq<WriteResult>, q1: Outq, q': Outq, k: nat)
    requires q.queue != [] && ws != [] && TakesChunk(q, ws, 0)
    requires q1 == q.(written := q.written + q.queue[0], queue := q.queue[1..]) && DrainsUpTo(q1, ws[1..], q', k)
    ensures DrainsUpTo(q, ws, q', k + 1)
  {
    var ws1 := ws[1..];
    assert q.queue[k + 1..] == q1.queue[k..] && ws[k + 1..] == ws1[k..];
    var front := q.queue[..k + 1];
    assert front[0] == q.queue[0] && front[1..] == q1.queue[..k];
    assert q1.written + Flatten(q1.queue[..k]) == q.written + Flatten(front);
    forall i | 0 <= i < k + 1
      ensures TakesChunk(q, ws, i)
    {
      assert i > 0 ==> TakesChunk(q1, ws1, i - 1) && q.queue[i] == q1.queue[i - 1] && ws[i] == ws1[i - 1];
    }
    assert k + 1 < |q.queue| && k + 1 < |ws| ==> q.queue[k + 1] == q1.queue[k] && ws[k + 1] == ws1[k];
    hide Flatten;
  }

  lemma {:induction false} DrainLoopIs(q: Outq, ws: seq<WriteResult>) returns (k: nat)
    ensures DrainsUpTo(q, ws, DrainLoop(q, ws), k)
    decreases |ws|
  {
    hide DrainsUpTo;
    if q.queue == [] || ws == [] || !ws[0].Wrote? || ws[0].n < |q.queue[0]| {
      StopsAtOnce(q, ws);
      k := 0;
    } else {
      var q1 := HeadWritten(q, ws[0].n);
      k := DrainLoopIs(q1, ws[1..]);
      OneChunkMore(q, ws, q1, DrainLoop(q1, ws[1..]), k);
      k := k + 1;
    }
  }

  /** `conn_drain`: after an error it does nothing; an EOF with nothing left to write counts as one. */
  lemma DrainIs(q: Outq, ws: seq<WriteResult>) returns (k: nat)
    ensures q.wroteErr ==> Drained(q, ws) == q
    ensures !q.wroteErr ==>
      var q' := Drained(q, ws);
      var err := q'.wroteEof && q'.queue == [];
      && (err ==> q'.wroteErr)
      && DrainsUpTo(q, ws, if err then q'.(wroteErr := false) else q', k)
  {
    k := DrainLoopIs(q, ws);
  }

  /** Enough full writes empty the queue, and then everything is written. */
  lemma DrainEmpties(q: Outq, ws: seq<WriteResult>)
    requires !q.wroteErr && |ws| >= |q.queue| && forall i :: 0 <= i < |q.queue| ==> TakesChunk(q, ws, i)
    ensures var q' := Drained(q, ws);
      && q'.queue == [] && q'.written == q.All() && q'.wroteErr == q'.wroteEof == q.wroteEof
  {
    var k := DrainIs(q, ws);
    assert k == |q.queue|;
    assert q.queue[..k] == q.queue && q.queue[k..] == [];
  }

  /** A call on the queue. */
  datatype Op = PutOp(buf: seq<byte>, w: WriteResult) | DrainOp(ws: seq<WriteResult>)

  /** A run of calls, with the buffers accepted in it. */
  function RunOps(q: Outq, ops: seq<Op>): (Outq, seq<byte>)
    decreases |ops|
  {
    if ops == [] then (q, [])
    else
      match ops[0]
      case PutOp(buf, w) =>
        var (q1, r) := Put(q, buf, w);
        var (q2, accepted) := RunOps(q1, ops[1..]);
        (q2, (if r > 0 then buf else []) + accepted)
      case DrainOp(ws) =>
        RunOps(Drained(q, ws), ops[1..])
  }

  /** What was written, followed by what is still queued, is what was accepted: over every run. */
  lemma {:induction false} RunConserves(q: Outq, ops: seq<Op>)
    requires q.NoEmptyChunk()
    ensures var (q', accepted) := RunOps(q, ops);
      && q'.NoEmptyChunk()
      && q'.All() == q.All() + accepted
      && q.written <= q'.written
    decreases |ops|
  {
    hide Put, Drained, Outq.All, Outq.Pending, Outq.Space, Outq.NoEmptyChunk;
    if ops == [] {
    } else {
      match ops[0]
      case PutOp(buf, w) =>
        PutAllOrNothing(q, buf, w);
        PutWrites(q, buf, w);
        RunConserves(Put(q, buf, w).0, ops[1..]);
      case DrainOp(ws) =>
        DrainConserves(q, ws);
        RunConserves(Drained(q, ws), ops[1..]);
    }
  }

  /** Every buffer in the run passes the test that `ctcp_output` makes first, or is the empty buffer of an EOF. */
  predicate Guarded(q: Outq, ops: seq<Op>)
    decreases |ops|
  {
    ops == [] ||
    match ops[0]
    case PutOp(buf, w) => |buf| <= q.Space() && Guarded(Put(q, buf, w).0, ops[1..])
    case DrainOp(ws) => Guarded(Drained(q, ws), ops[1..])
  }

  /** The guard of `ctcp_output` bounds the queue: the space reported is exactly what is missing to 8192 bytes. */
  lemma {:induction false} GuardedRunIsBounded(q: Outq, ops: seq<Op>)
    requires q.NoEmptyChunk() && |q.Pending()| <= MAX_BUF_SPACE && Guarded(q, ops)
    ensures var q' := RunOps(q, ops).0;
      |q'.Pending()| <= 8192 && q'.Space() == 8192 - |q'.Pending()|
    decreases |ops|
  {
    hide Put, Drained, Outq.Pending, Outq.NoEmptyChunk;
    if ops == [] {
    } else {
      match ops[0]
      case PutOp(buf, w) =>
        PutAllOrNothing(q, buf, w);
        GuardedRunIsBounded(Put(q, buf, w).0, ops[1..]);
      case DrainOp(ws) =>
        DrainConserves(q, ws);
        GuardedRunIsBounded(Drained(q, ws), ops[1..]);
    }
  }
}
