/** `JsonlStream` (src/io.rs): the JSON Lines read framer.

    The read path is specified in two layers. `Step` says what one iteration of
    `read_item`'s loop does with the pending bytes and what one `read` returned;
    `Run` folds `Step` over the reads of one call. `JsonlStream.ReadItem` is
    proved to behave as `Run` over exactly the reads it performed, and the
    lemmas below state what `Run` means: conservation of bytes, where the line
    ends, and what is retained on each kind of failure. */
module Io {
  import opened Json
  import opened Transport

  const INITIAL_CAPACITY: nat := 1024

  /** The buffer's length after `k` doublings of src/io.rs:26-28. */
  function Capacity(k: nat): (r: nat)
    ensures r >= INITIAL_CAPACITY
  {
    if k == 0 then INITIAL_CAPACITY else 2 * Capacity(k - 1)
  }

  /** The index of the first `\n` of `s`, if any. */
  function FirstNewline(s: seq<byte>): (r: Option<nat>)
    ensures r.Some? ==> r.value < |s| && s[r.value] == NEWLINE && NEWLINE !in s[..r.value]
    ensures r.None? <==> NEWLINE !in s
  {
    if s == [] then None
    else if s[0] == NEWLINE then Some(0)
    else match FirstNewline(s[1..])
      case None => None
      case Some(j) =>
        assert s[..j + 1] == [s[0]] + s[1..][..j];
        Some(j + 1)
  }

  /** Where one iteration of the read loop leaves the call. */
  datatype Frame<T> =
    | More(pending: seq<byte>)
      // no newline among the new bytes: read again
    | Line(line: seq<byte>, value: T, pending: seq<byte>)
      // `line` decoded; `pending` is the compacted leftover
    | BadLine(line: seq<byte>, error: Error, pending: seq<byte>)
      // `line` failed to decode; nothing was compacted away
    | Stop(error: Error, pending: seq<byte>)
      // the read failed or returned zero bytes

  /** One iteration of the loop of src/io.rs:25-49, on the pending bytes
      `read_buf[..read_buf_offset]` and what the read returned. Only the new
      bytes are scanned; the decoded slice runs from the start of the buffer. */
  function Step<T>(pending: seq<byte>, o: ReadOutcome, decode: seq<byte> -> Result<T, Error>): Frame<T>
  {
    match o
    case Failed(kind) => Stop(IoError(kind), pending)
    case Got(bytes) =>
      if bytes == [] then Stop(IoError(UnexpectedEof), pending)
      else match FirstNewline(bytes)
        case None => More(pending + bytes)
        case Some(j) =>
          var line := pending + bytes[..j];
          match decode(line)
          case Success(v) => Line(line, v, bytes[j + 1..])
          case Failure(e) => BadLine(line, e, pending + bytes)
  }

  /** The loop over a sequence of reads: it stops at the first step that is not `More`. */
  function Run<T>(pending: seq<byte>, outs: seq<ReadOutcome>, decode: seq<byte> -> Result<T, Error>): Frame<T>
    decreases |outs|
  {
    if outs == [] then More(pending)
    else match Step(pending, outs[0], decode)
      case More(p) => Run(p, outs[1..], decode)
      case done => done
  }

  /** What `read_item` returns once the loop has stopped. */
  function ResultOf<T>(f: Frame<T>): Result<T, Error>
    requires !f.More?
  {
    match f
    case Line(_, v, _) => Success(v)
    case BadLine(_, e, _) => Failure(e)
    case Stop(e, _) => Failure(e)
  }

  /** One more read after reads that all continued the loop is one more step. */
  lemma {:induction false} RunSnoc<T>(p: seq<byte>, outs: seq<ReadOutcome>, o: ReadOutcome, decode: seq<byte> -> Result<T, Error>)
    requires Run(p, outs, decode).More?
    ensures Run(p, outs + [o], decode) == Step(Run(p, outs, decode).pending, o, decode)
    decreases |outs|
  {
    if outs == [] {
      assert outs + [o] == [o];
    } else {
      assert (outs + [o])[1..] == outs[1..] + [o];
      RunSnoc(Step(p, outs[0], decode).pending, outs[1..], o, decode);
    }
  }

  /** While the loop continues, every read delivered at least one byte, none of
      them a newline, and every byte is retained after the old pending ones. */
  lemma {:induction false} RunMore<T>(p: seq<byte>, outs: seq<ReadOutcome>, decode: seq<byte> -> Result<T, Error>)
    requires Run(p, outs, decode).More?
    ensures Run(p, outs, decode).pending == p + Received(outs)
    ensures NEWLINE !in Received(outs)
    ensures forall k :: 0 <= k < |outs| ==> outs[k].Got? && outs[k].bytes != []
    decreases |outs|
  {
    if outs != [] {
      var q := Step(p, outs[0], decode).pending;
      RunMore(q, outs[1..], decode);
      assert q + Received(outs[1..]) == p + Received(outs);
      forall k | 0 <= k < |outs|
        ensures outs[k].Got? && outs[k].bytes != []
      {
        if k > 0 {
          assert outs[k] == outs[1..][k - 1];
        }
      }
    }
  }

  /** What one iteration does, stated without reference to how the newline is found. */
  lemma StepMeaning<T>(q: seq<byte>, o: ReadOutcome, decode: seq<byte> -> Result<T, Error>)
    ensures match Step(q, o, decode)
      case More(p) =>
        o.Got? && o.bytes != [] && NEWLINE !in o.bytes && p == q + o.bytes
      case Line(line, v, p) =>
        && o.Got? && q + o.bytes == line + [NEWLINE] + p
        && |q| <= |line| && NEWLINE !in line[|q|..]
        && decode(line) == Success(v)
      case BadLine(line, e, p) =>
        && o.Got? && p == q + o.bytes && line + [NEWLINE] <= p
        && |q| <= |line| && NEWLINE !in line[|q|..]
        && decode(line) == Failure(e)
      case Stop(e, p) =>
        && p == q
        && (o.Got? ==> o.bytes == [] && e == IoError(UnexpectedEof))
        && (o.Failed? ==> e == IoError(o.kind))
  {
    if o.Got? && o.bytes != [] && FirstNewline(o.bytes).Some? {
      var c, j := o.bytes, FirstNewline(o.bytes).value;
      var line := q + c[..j];
      LineSplit(q, c, j);
      assert Step(q, o, decode) == match decode(line)
        case Success(v) => Line(line, v, c[j + 1..])
        case Failure(e) => BadLine(line, e, q + c);
      if decode(line).Failure? {
        assert (q + c)[..|line| + 1] == line + [NEWLINE];
      }
    }
  }

  /** Where the first newline `c[j]` of newly read bytes `c` splits the pending bytes. */
  lemma LineSplit(q: seq<byte>, c: seq<byte>, j: nat)
    requires FirstNewline(c) == Some(j)
    ensures var line := q + c[..j];
      && q + c == line + [NEWLINE] + c[j + 1..]
      && |q| <= |line| && line[|q|..] == c[..j] && NEWLINE !in line[|q|..]
  {
    SplitAt(q, c, j);
    assert (q + c[..j])[|q|..] == c[..j];
  }

  /** Conservation on success, over a whole call of `read_item` whose reads were
      `init + [last]` (all of `init` continued the loop): the old pending bytes
      followed by everything read are the decoded line, its newline and the new
      pending bytes, and the newline ending the line is the first one among the
      bytes this call read. */
  lemma ReadItemLine<T>(p: seq<byte>, init: seq<ReadOutcome>, last: ReadOutcome, decode: seq<byte> -> Result<T, Error>)
    requires Run(p, init, decode).More?
    requires Run(p, init + [last], decode).Line?
    ensures var f := Run(p, init + [last], decode);
      && p + Received(init + [last]) == f.line + [NEWLINE] + f.pending
      && |p| <= |f.line| && NEWLINE !in f.line[|p|..]
      && decode(f.line) == Success(f.value)
  {
    RunSnoc(p, init, last, decode);
    RunMore(p, init, decode);
    ReceivedAppend(init, last);
    var q := Run(p, init, decode).pending;
    var f := Step(q, last, decode);
    StepMeaning(q, last, decode);
    assert q == p + Received(init) && f == Run(p, init + [last], decode);
    Assoc(p, Received(init), last.bytes);
    NewlineFreeTail(p, Received(init), last.bytes, f.line, f.pending);
  }

  /** A decode failure ends the call before compaction: every byte read stays pending,
      the rejected line and its newline at the front. */
  lemma ReadItemBadLine<T>(p: seq<byte>, init: seq<ReadOutcome>, last: ReadOutcome, decode: seq<byte> -> Result<T, Error>)
    requires Run(p, init, decode).More?
    requires Run(p, init + [last], decode).BadLine?
    ensures var f := Run(p, init + [last], decode);
      && f.pending == p + Received(init + [last]) && f.line + [NEWLINE] <= f.pending
      && |p| <= |f.line| && NEWLINE !in f.line[|p|..]
      && decode(f.line) == Failure(f.error)
  {
    RunSnoc(p, init, last, decode);
    RunMore(p, init, decode);
    ReceivedAppend(init, last);
    var q := Run(p, init, decode).pending;
    var f := Step(q, last, decode);
    assert q == p + Received(init) && f == Run(p, init + [last], decode);
    var c, j := last.bytes, FirstNewline(last.bytes).value;
    LineSplit(q, c, j);
    StepMeaning(q, last, decode);
    assert f.line == q + c[..j];
    Assoc(p, Received(init), c);
    NewlineFreeTail(p, Received(init), c, f.line, c[j + 1..]);
  }

  /** A failed read or a read of zero bytes ends the call with every byte read so far
      retained, the error being the transport's or `UnexpectedEof`. */
  lemma ReadItemStop<T>(p: seq<byte>, init: seq<ReadOutcome>, last: ReadOutcome, decode: seq<byte> -> Result<T, Error>)
    requires Run(p, init, decode).More?
    requires Run(p, init + [last], decode).Stop?
    ensures var f := Run(p, init + [last], decode);
      && f.pending == p + Received(init + [last]) && NEWLINE !in Received(init + [last])
      && f.error == match last
        case Got(_) => IoError(UnexpectedEof)
        case Failed(kind) => IoError(kind)
  {
    RunSnoc(p, init, last, decode);
    RunMore(p, init, decode);
    ReceivedAppend(init, last);
    StepMeaning(Run(p, init, decode).pending, last, decode);
  }

  lemma SplitAt(q: seq<byte>, c: seq<byte>, j: nat)
    requires j < |c| && c[j] == NEWLINE
    ensures q + c == (q + c[..j]) + [NEWLINE] + c[j + 1..]
  {
    assert c == c[..j] + [NEWLINE] + c[j + 1..];
  }

  /** Sequence bookkeeping for `ReadItemLine` and `ReadItemBadLine`: a line that extends the pending
      bytes `p + r` has no newline after `p` when neither `r` nor its own tail has one. */
  lemma NewlineFreeTail(p: seq<byte>, r: seq<byte>, c: seq<byte>, line: seq<byte>, rest: seq<byte>)
    requires (p + r) + c == line + [NEWLINE] + rest && |p + r| <= |line|
    requires NEWLINE !in r && NEWLINE !in line[|p + r|..]
    ensures NEWLINE !in line[|p|..]
  {
    var q := p + r;
    assert line[..|q|] == (line + [NEWLINE] + rest)[..|q|] == q;
    assert line == p + (r + line[|q|..]) by {
      assert line == line[..|q|] + line[|q|..];
    }
    assert line[|p|..] == r + line[|q|..];
  }

  /** src/io.rs:25-41 as written: a complete line already among the pending bytes is
      not looked at. A failed or empty read ends the call with that line still pending,
      and a read that brings a newline decodes a slice that spans the older newline. */
  lemma StaleLineIsNotExamined<T>(q: seq<byte>, o: ReadOutcome, decode: seq<byte> -> Result<T, Error>)
    requires NEWLINE in q
    ensures (o.Failed? || o == Got([])) ==> Step(q, o, decode).Stop?
    ensures (o.Failed? || o == Got([])) ==> Step(q, o, decode).pending == q
    ensures Step(q, o, decode).Line? || Step(q, o, decode).BadLine? ==> NEWLINE in Step(q, o, decode).line
  {
    var f := Step(q, o, decode);
    if f.Line? || f.BadLine? {
      var j := FirstNewline(o.bytes).value;
      assert f.line == q + o.bytes[..j];
      var i :| 0 <= i < |q| && q[i] == NEWLINE;
      assert f.line[i] == NEWLINE;
    }
  }

  /** src/io.rs:43-45 as written: a decode failure leaves the bad line and its newline
      at the front of the buffer. Throughout the next `read_item` call they stay
      there: they begin the line that call decodes, and they stay pending unless
      that decode succeeds. */
  lemma BadLineStays<T>(p: seq<byte>, init: seq<ReadOutcome>, last: ReadOutcome, next: seq<ReadOutcome>,
                        decode: seq<byte> -> Result<T, Error>)
    requires Run(p, init, decode).More?
    requires Run(p, init + [last], decode).BadLine?
    ensures var bad := Run(p, init + [last], decode);
      var f := Run(bad.pending, next, decode);
      && ((f.Line? || f.BadLine?) ==> bad.line + [NEWLINE] <= f.line)
      && (!f.Line? ==> bad.line + [NEWLINE] <= f.pending)
  {
    ReadItemBadLine(p, init, last, decode);
    var bad := Run(p, init + [last], decode);
    PrefixKept(bad.line + [NEWLINE], bad.pending, next, decode);
  }

  /** Bytes at the front of the pending region stay at the front for a whole call:
      they begin any line it decodes and, unless that line decodes, the bytes it
      leaves pending. */
  lemma {:induction false} PrefixKept<T>(front: seq<byte>, p: seq<byte>, outs: seq<ReadOutcome>,
                                        decode: seq<byte> -> Result<T, Error>)
    requires front <= p
    ensures var f := Run(p, outs, decode);
      && ((f.Line? || f.BadLine?) ==> front <= f.line)
      && (!f.Line? ==> front <= f.pending)
    decreases |outs|
  {
    if outs != [] {
      var o := outs[0];
      StepMeaning(p, o, decode);
      match Step(p, o, decode)
      case More(q) =>
        PrefixTrans(front, p, q);
        PrefixKept(front, q, outs[1..], decode);
      case Line(line, _, rest) =>
        PrefixOfLonger(p, o.bytes, line, [NEWLINE] + rest);
        PrefixTrans(front, p, line);
      case BadLine(line, _, rest) =>
        PrefixOfLonger(p, o.bytes, line, [NEWLINE] + rest[|line| + 1..]);
        PrefixTrans(front, p, line);
        PrefixTrans(front, p, rest);
      case Stop(_, _) =>
    }
  }

  lemma PrefixOfLonger(a: seq<byte>, b: seq<byte>, c: seq<byte>, d: seq<byte>)
    requires a + b == c + d && |a| <= |c|
    ensures a <= c
  {
    assert c[..|a|] == (c + d)[..|a|] == (a + b)[..|a|] == a;
  }

  lemma PrefixTrans(a: seq<byte>, b: seq<byte>, c: seq<byte>)
    requires a <= b && b <= c
    ensures a <= c
  {
    assert c[..|a|] == c[..|b|][..|a|];
  }

  /** The events a `JsonlStream` records for the call layer. */
  datatype Event = Write(item: Value) | Read(outs: seq<ReadOutcome>)

  class JsonlStream {
    const inner: Channel
    var readBuf: array<byte>
    var readBufOffset: nat
    /** How many times the buffer has been doubled. */
    ghost var doublings: nat
    /** Every `write_item` and `read_item` call so far, in order. */
    ghost var trace: seq<Event>

    ghost predicate Valid()
      reads this, readBuf
    {
      && readBufOffset <= readBuf.Length
      && readBuf.Length == Capacity(doublings)
    }

    /** The bytes received but not yet returned as part of a line. */
    ghost function Pending(): seq<byte>
      reads this, readBuf
      requires Valid()
    {
      readBuf[..readBufOffset]
    }

    /** `JsonlStream::new`: a 1024-byte buffer with nothing pending. */
    constructor (inner: Channel)
      ensures Valid() && fresh(readBuf)
      ensures this.inner == inner && readBuf.Length == INITIAL_CAPACITY && doublings == 0
      ensures Pending() == [] && trace == []
    {
      this.inner := inner;
      readBuf := new byte[INITIAL_CAPACITY];
      readBufOffset := 0;
      doublings := 0;
      trace := [];
    }

    /** `write_item`: hands the item to the channel; the read state is untouched. */
    method WriteItem(item: Value) returns (r: Result<(), Error>)
      requires Valid()
      modifies this, inner
      ensures Valid() && readBuf == old(readBuf) && readBufOffset == old(readBufOffset)
      ensures doublings == old(doublings) && Pending() == old(Pending())
      ensures trace == old(trace) + [Write(item)]
      ensures r == match old(inner.NextWrite())
        case Success(_) => Success(())
        case Failure(kind) => Failure(IoError(kind))
      ensures inner.log == old(inner.log) && inner.deliveries == old(inner.deliveries)
      ensures inner.sent == old(inner.sent) + (if r.Success? then [item] else [])
      ensures inner.answers == if old(inner.answers) == [] then [] else old(inner.answers)[1..]
    {
      var w := inner.Write(item);
      trace := trace + [Write(item)];
      r := match w
        case Success(_) => Success(())
        case Failure(kind) => Failure(IoError(kind));
    }

    /** `read_buf.resize(2 * len, 0)` of src/io.rs:26-28, on a full buffer. */
    method Grow()
      requires Valid() && readBufOffset == readBuf.Length
      modifies this
      ensures Valid() && fresh(readBuf) && readBuf.Length == 2 * old(readBuf.Length)
      ensures readBufOffset == old(readBufOffset) && Pending() == old(Pending())
      ensures doublings == old(doublings) + 1 && trace == old(trace)
    {
      var grown := new byte[2 * readBuf.Length];
      forall k | 0 <= k < readBuf.Length {
        grown[k] := readBuf[k];
      }
      assert grown[..readBufOffset] == readBuf[..readBufOffset];
      readBuf, doublings := grown, doublings + 1;
    }

    /** `copy_within(from..offset, 0)` followed by `offset -= from` (src/io.rs:44-45):
        the pending bytes lose their first `from` bytes. */
    method Compact(from: nat)
      requires Valid() && from <= readBufOffset
      modifies readBuf, `readBufOffset
      ensures Valid() && readBufOffset == old(readBufOffset) - from
      ensures Pending() == old(Pending())[from..]
    {
      ghost var rest := readBuf[from..readBufOffset];
      forall k | 0 <= k < readBufOffset - from {
        readBuf[k] := readBuf[from + k];
      }
      readBufOffset := readBufOffset - from;
      assert readBuf[..readBufOffset] == rest;
    }

    /** src/io.rs:43-46, at the first newline `readBuf[i]` of the bytes just read
        (`chunk`, after the older pending bytes `before`): decode the bytes before it
        and, when that succeeds, drop the line and its newline from the buffer. */
    method TakeLine<T>(i: nat, decode: seq<byte> -> Result<T, Error>, ghost before: seq<byte>, ghost chunk: seq<byte>)
      returns (r: Result<T, Error>)
      requires Valid() && Pending() == before + chunk
      requires |before| <= i < readBufOffset && readBuf[i] == NEWLINE
      requires forall k :: 0 <= k < i - |before| ==> chunk[k] != NEWLINE
      modifies readBuf, `readBufOffset
      ensures Valid()
      ensures var f := Step(before, Got(chunk), decode);
        !f.More? && r == ResultOf(f) && Pending() == f.pending
    {
      ghost var j := i - |before|;
      StepAtNewline(before, chunk, j, decode);
      TakePrefix(before, chunk, j);
      assert readBuf[..i] == Pending()[..|before| + j];
      var item := decode(readBuf[..i]);
      if item.Failure? {
        return Failure(item.error);
      }
      DropPrefix(before, chunk, j + 1);
      ghost var buf := Pending();
      Compact(i + 1);
      assert Pending() == buf[|before| + (j + 1)..];
      return Success(item.value);
    }

    /** src/io.rs:38-48: takes the `n` bytes just read into the spare part of the buffer
        as pending and scans them for a newline; one step of the read loop. `None`
        means no newline was found and the loop goes on. */
    method ScanNew<T>(n: nat, decode: seq<byte> -> Result<T, Error>, ghost before: seq<byte>, ghost chunk: seq<byte>)
      returns (r: Option<Result<T, Error>>)
      requires Valid() && 0 < n && readBufOffset + n <= readBuf.Length
      requires before == Pending() && chunk == readBuf[readBufOffset..readBufOffset + n]
      modifies readBuf, `readBufOffset
      ensures Valid()
      ensures var f := Step(before, Got(chunk), decode);
        && (r.None? <==> f.More?) && (r.Some? ==> r.value == ResultOf(f)) && Pending() == f.pending
      ensures r.None? ==> readBufOffset == old(readBufOffset) + n
    {
      var oldOffset := readBufOffset;
      readBufOffset := readBufOffset + n;
      assert Pending() == before + chunk;
      for i := oldOffset to readBufOffset
        invariant forall k :: 0 <= k < i - oldOffset ==> chunk[k] != NEWLINE
      {
        if readBuf[i] == NEWLINE {
          var item := TakeLine(i, decode, before, chunk);
          return Some(item);
        }
      }
      StepWithoutNewline(before, chunk, decode);
      return None;
    }

    /** One iteration of the loop of src/io.rs:25-49: grow the buffer if it is full,
        read once into its spare part, scan the new bytes. `None` means the loop goes on. */
    method Iterate<T>(decode: seq<byte> -> Result<T, Error>, ghost before: seq<byte>, ghost stream: seq<byte>)
      returns (done: Option<Result<T, Error>>, ghost o: ReadOutcome)
      requires Valid() && before == Pending() && stream == inner.Stream()
      modifies this, readBuf, inner
      ensures Valid() && (readBuf == old(readBuf) || fresh(readBuf))
      ensures inner.log == old(inner.log) + [o]
      ensures var f := Step(before, o, decode);
        && (done.None? <==> f.More?) && (done.Some? ==> done.value == ResultOf(f))
        && Pending() == f.pending
        && stream == (if o.Got? then o.bytes else []) + inner.Stream()
        && (done.None? ==> inner.Remaining() < old(inner.Remaining()))
      ensures trace == old(trace) && inner.answers == old(inner.answers) && inner.sent == old(inner.sent)
      ensures old(readBuf.Length) <= readBuf.Length
      ensures readBuf.Length > old(readBuf.Length) ==> readBuf.Length == 2 * old(readBufOffset)
      ensures readBuf.Length != old(readBuf.Length) ==>
        old(readBufOffset) == old(readBuf.Length) && readBuf.Length == 2 * old(readBuf.Length)
    {
      ghost var remaining, log := inner.Remaining(), inner.log;
      if readBufOffset == readBuf.Length {
        Grow();
      }
      assert Pending() == before;
      assert inner.Stream() == stream && inner.Remaining() == remaining && inner.log == log;
      var res := inner.Read(readBuf, readBufOffset);
      if res.Failure? {
        o := Failed(res.error);
        assert Pending() == before && inner.log == log + [o];
        return Some(Failure(IoError(res.error))), o;
      }
      o := Got(readBuf[readBufOffset..readBufOffset + res.value]);
      assert Pending() == before && inner.log == log + [o];
      if res.value == 0 {
        return Some(Failure(IoError(UnexpectedEof))), o;
      }
      ghost var after, left := inner.Stream(), inner.Remaining();
      assert stream == o.bytes + after && left < remaining;
      done := ScanNew(res.value, decode, before, o.bytes);
      assert inner.Stream() == after && inner.Remaining() == left && inner.log == log + [o];
    }

    /** `Iterate` as one more read of the call: the reads so far, `seg`, all continued
        the loop, and the call with `seg + [o]` is where this iteration leaves it. */
    method Advance<T>(decode: seq<byte> -> Result<T, Error>, ghost start: seq<byte>, ghost seg: seq<ReadOutcome>,
                      ghost stream: seq<byte>, ghost log: seq<ReadOutcome>)
      returns (done: Option<Result<T, Error>>, ghost o: ReadOutcome)
      requires Valid() && Run(start, seg, decode) == More(Pending())
      requires stream == Received(seg) + inner.Stream() && inner.log == log + seg
      modifies this, readBuf, inner
      ensures Valid() && (readBuf == old(readBuf) || fresh(readBuf))
      ensures inner.log == log + (seg + [o]) && (seg + [o])[..|seg|] == seg
      ensures var f := Run(start, seg + [o], decode);
        && (done.None? <==> f.More?) && (done.Some? ==> done.value == ResultOf(f))
        && Pending() == f.pending
      ensures stream == Received(seg + [o]) + inner.Stream() && |Received(seg)| <= |Received(seg + [o])|
      ensures done.None? ==> inner.Remaining() < old(inner.Remaining())
      ensures trace == old(trace) && inner.answers == old(inner.answers) && inner.sent == old(inner.sent)
      ensures old(readBuf.Length) <= readBuf.Length
      ensures readBuf.Length > old(readBuf.Length) ==> readBuf.Length <= 2 * (|start| + |Received(seg + [o])|)
    {
      RunMore(start, seg, decode);
      done, o := Iterate(decode, Pending(), inner.Stream());
      RunSnoc(start, seg, o, decode);
      ReceivedAppend(seg, o);
      Assoc(Received(seg), if o.Got? then o.bytes else [], inner.Stream());
      Assoc(log, seg, [o]);
      assert (seg + [o])[..|seg|] == seg;
    }

    /** `read_item`: reads until the newly read bytes contain a newline, decodes the
        bytes before it, and moves the bytes after it to the front of the buffer.
        The reads it performed are the new entries of the channel's log; the call is
        `Run` over them, every read but the last continuing the loop. */
    method ReadItem<T>(decode: seq<byte> -> Result<T, Error>) returns (r: Result<T, Error>, ghost outs: seq<ReadOutcome>)
      requires Valid()
      modifies this, readBuf, inner
      ensures Valid() && (readBuf == old(readBuf) || fresh(readBuf))
      ensures outs != [] && inner.log == old(inner.log) + outs
      ensures Run(old(Pending()), outs[..|outs| - 1], decode).More?
      ensures var f := Run(old(Pending()), outs, decode);
        !f.More? && r == ResultOf(f) && Pending() == f.pending
      ensures trace == old(trace) + [Read(outs)]
      ensures old(inner.Stream()) == Received(outs) + inner.Stream()
      ensures old(readBuf.Length) <= readBuf.Length
      ensures readBuf.Length > old(readBuf.Length) ==>
        readBuf.Length <= 2 * (|old(Pending())| + |Received(outs)|)
      ensures inner.answers == old(inner.answers) && inner.sent == old(inner.sent)
    {
      ghost var start := Pending();
      outs := [];
      while true
        invariant Valid()
        invariant readBuf == old(readBuf) || fresh(readBuf)
        invariant inner.log == old(inner.log) + outs
        invariant Run(start, outs, decode) == More(Pending())
        invariant old(inner.Stream()) == Received(outs) + inner.Stream()
        invariant trace == old(trace)
        invariant inner.answers == old(inner.answers) && inner.sent == old(inner.sent)
        invariant old(readBuf.Length) <= readBuf.Length
        invariant readBuf.Length > old(readBuf.Length) ==>
          readBuf.Length <= 2 * (|start| + |Received(outs)|)
        decreases inner.Remaining()
      {
        ghost var seg := outs;
        var done;
        ghost var o;
        done, o := Advance(decode, start, seg, old(inner.Stream()), old(inner.log));
        outs := seg + [o];
        if done.Some? {
          trace := trace + [Read(outs)];
          return done.value, outs;
        }
      }
    }
  }

  /** A read whose bytes hold a newline, the first at `j`, ends the loop: the
      bytes before it are decoded and those after it are kept. */
  lemma StepAtNewline<T>(before: seq<byte>, chunk: seq<byte>, j: nat, decode: seq<byte> -> Result<T, Error>)
    requires j < |chunk| && chunk[j] == NEWLINE
    requires forall k :: 0 <= k < j ==> chunk[k] != NEWLINE
    ensures Step(before, Got(chunk), decode) == match decode(before + chunk[..j])
      case Success(v) => Line(before + chunk[..j], v, chunk[j + 1..])
      case Failure(e) => BadLine(before + chunk[..j], e, before + chunk)
  {
    FoundNewline(chunk, j);
  }

  /** A read of bytes without a newline continues the loop with them appended. */
  lemma StepWithoutNewline<T>(before: seq<byte>, chunk: seq<byte>, decode: seq<byte> -> Result<T, Error>)
    requires chunk != [] && forall k :: 0 <= k < |chunk| ==> chunk[k] != NEWLINE
    ensures Step(before, Got(chunk), decode) == More(before + chunk)
  {
  }

  lemma TakePrefix(a: seq<byte>, b: seq<byte>, j: nat)
    requires j <= |b|
    ensures (a + b)[..|a| + j] == a + b[..j]
  {
  }

  lemma DropPrefix(a: seq<byte>, b: seq<byte>, j: nat)
    requires j <= |b|
    ensures (a + b)[|a| + j..] == b[j..]
  {
  }

  /** The index at which the scan of src/io.rs:41-42 stops is the first newline. */
  lemma {:induction false} FoundNewline(c: seq<byte>, j: nat)
    requires j < |c| && c[j] == NEWLINE
    requires forall k :: 0 <= k < j ==> c[k] != NEWLINE
    ensures FirstNewline(c) == Some(j)
    decreases j
  {
    if j > 0 {
      assert c[0] != NEWLINE;
      FoundNewline(c[1..], j - 1);
    }
  }
}
