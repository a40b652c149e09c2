/**
 * A FIFO as the kernel keeps it, a queue of bytes. Writers put whole 1024-byte buffers, each
 * write being atomic (POSIX write(), PIPE_BUF); readers take up to 1024 bytes.
 */
module Fifo {
  import opened Bytes
  import opened Lists
  import opened PackageCodec

  datatype Op = Write(frame: Frame) | Read

  /** `read(fd, buffer, 1024)` on the bytes that are there; nothing there means another try. */
  function TakeBytes(bytes: seq<Byte>): (r: (seq<Byte>, seq<Byte>)) {
    if |bytes| <= FRAME then (bytes, []) else (bytes[..FRAME], bytes[FRAME..])
  }

  /** The bytes left after a run of operations by any processes, and what each successful read returned. */
  function RunBytes(ops: seq<Op>): (seq<Byte>, seq<seq<Byte>>) {
    if ops == [] then ([], [])
    else
      var (bytes, got) := RunBytes(ops[..|ops| - 1]);
      match ops[|ops| - 1]
      case Write(f) => (bytes + f, got)
      case Read =>
        var (taken, left) := TakeBytes(bytes);
        (left, if taken == [] then got else got + [taken])
  }

  /** The frames put by the writers, in the order of their writes. */
  function Written(ops: seq<Op>): seq<Frame> {
    if ops == [] then []
    else
      Written(ops[..|ops| - 1]) + match ops[|ops| - 1] case Write(f) => [f] case Read => []
  }

  lemma {:induction false} FlattenLength(frames: seq<Frame>)
    ensures |Flatten(frames)| == FRAME * |frames|
  {
    if frames != [] {
      FlattenLength(frames[1..]);
    }
  }

  /**
   * Alignment: whatever the interleaving, the FIFO holds a whole number of frames, every read
   * that returns anything returns one frame, and the frames read so far followed by those still
   * queued are the frames written, in the order of writing.
   */
  lemma {:induction false} FramesStayAligned(ops: seq<Op>) returns (got: seq<Frame>, queued: seq<Frame>)
    ensures RunBytes(ops).1 == got
    ensures RunBytes(ops).0 == Flatten(queued)
    ensures got + queued == Written(ops)
  {
    if ops == [] {
      got, queued := [], [];
    } else {
      var op := ops[|ops| - 1];
      got, queued := FramesStayAligned(ops[..|ops| - 1]);
      if op.Write? {
        FlattenAppend(queued, op.frame);
        assert got + (queued + [op.frame]) == (got + queued) + [op.frame];
        queued := queued + [op.frame];
      } else if queued != [] {
        FlattenLength(queued);
        FlattenLength(queued[1..]);
        var head: seq<Byte> := queued[0];
        var rest: seq<Byte> := Flatten(queued[1..]);
        assert Flatten(queued) == head + rest;
        assert (head + rest)[..FRAME] == head && (head + rest)[FRAME..] == rest;
        assert rest == [] ==> head + rest == head;
        assert TakeBytes(Flatten(queued)) == (queued[0], Flatten(queued[1..]));
        assert got + queued == (got + [queued[0]]) + queued[1..];
        got, queued := got + [queued[0]], queued[1..];
      }
    }
  }

  /** A write puts its frame behind what is queued; nobody reads anything by it. */
  lemma WriteQueues(ops: seq<Op>, f: Frame)
    ensures RunBytes(ops + [Write(f)]) == (RunBytes(ops).0 + f, RunBytes(ops).1)
    ensures Written(ops + [Write(f)]) == Written(ops) + [f] && Written(ops + [Read]) == Written(ops)
  {
    assert (ops + [Write(f)])[..|ops|] == ops && (ops + [Read])[..|ops|] == ops;
  }

  /** A read takes the frame that was written first of those queued, and exactly that; on an empty FIFO, nothing. */
  lemma ReadTakesFirst(ops: seq<Op>, queued: seq<Frame>)
    requires RunBytes(ops).0 == Flatten(queued)
    ensures queued != [] ==> RunBytes(ops + [Read]) == (Flatten(queued[1..]), RunBytes(ops).1 + [queued[0]])
    ensures queued == [] ==> RunBytes(ops + [Read]) == ([], RunBytes(ops).1)
  {
    assert (ops + [Read])[..|ops|] == ops;
    if queued != [] {
      FlattenLength(queued);
      var head: seq<Byte>, rest: seq<Byte> := queued[0], Flatten(queued[1..]);
      assert Flatten(queued) == head + rest;
      assert (head + rest)[..FRAME] == head && (head + rest)[FRAME..] == rest;
      assert |head + rest| == FRAME ==> rest == [] && head + rest == head;
    }
  }

  /** How many of the reads found something in the FIFO. */
  function FoundBytes(ops: seq<Op>): nat {
    if ops == [] then 0
    else
      var before := ops[..|ops| - 1];
      FoundBytes(before) + if ops[|ops| - 1].Read? && RunBytes(before).0 != [] then 1 else 0
  }

  /** Every read that finds anything returns one frame, and no other does. */
  lemma {:induction false} EveryReadReturns(ops: seq<Op>)
    ensures |RunBytes(ops).1| == FoundBytes(ops)
  {
    if ops != [] {
      var before := ops[..|ops| - 1];
      EveryReadReturns(before);
      if ops[|ops| - 1].Read? {
        var got, queued := FramesStayAligned(before);
        ReadTakesFirst(before, queued);
        assert ops == before + [Read];
        if queued != [] {
          FlattenLength(queued);
        }
      }
    }
  }

  /** The same FIFO as a queue of frames: what is queued, and what has been read. */
  function RunFrames(ops: seq<Op>): (seq<Frame>, seq<Frame>) {
    if ops == [] then ([], [])
    else
      var (queued, got) := RunFrames(ops[..|ops| - 1]);
      match ops[|ops| - 1]
      case Write(f) => (queued + [f], got)
      case Read => if queued == [] then (queued, got) else (queued[1..], got + [queued[0]])
  }

  /** The queue of bytes is a queue of frames, whoever writes and reads in whatever order. */
  lemma {:induction false} BytesAreFrames(ops: seq<Op>)
    ensures RunBytes(ops) == (Flatten(RunFrames(ops).0), RunFrames(ops).1)
  {
    if ops != [] {
      var before, last := ops[..|ops| - 1], ops[|ops| - 1];
      BytesAreFrames(before);
      var queued := RunFrames(before).0;
      match last {
        case Write(f) => FlattenAppend(queued, f);
        case Read =>
          assert ops == before + [Read];
          ReadTakesFirst(before, queued);
      }
    }
  }
}
