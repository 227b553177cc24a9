/** A stand-in for the byte channel `S: Read + Write` that `JsonlStream` wraps
    (a `TcpStream` in the crate's tests). The peer's behaviour is a script:
    what each successive read delivers and how each write is answered. */
module Transport {
  import opened Json

  /** One answer of the operating system to a read: a run of bytes (handed out
      at most a buffer-full at a time; an empty run is an end of stream) or an error. */
  datatype Delivery = Chunk(bytes: seq<byte>) | Fault(kind: IoErrorKind)

  /** How a write is answered. */
  datatype WriteAnswer = Accept | Refuse(kind: IoErrorKind)

  /** What one call of `read` returned: `Got([])` is a read of zero bytes. */
  datatype ReadOutcome = Got(bytes: seq<byte>) | Failed(kind: IoErrorKind)

  /** The bytes the chunks of a script still hold, in order. */
  function Pending(ds: seq<Delivery>): seq<byte>
  {
    if ds == [] then []
    else (if ds[0].Chunk? then ds[0].bytes else []) + Pending(ds[1..])
  }

  /** The bytes a sequence of reads delivered, in order. */
  function Received(outs: seq<ReadOutcome>): seq<byte>
  {
    if outs == [] then []
    else (if outs[0].Got? then outs[0].bytes else []) + Received(outs[1..])
  }

  lemma {:induction false} ReceivedAppend(outs: seq<ReadOutcome>, o: ReadOutcome)
    ensures Received(outs + [o]) == Received(outs) + (if o.Got? then o.bytes else [])
  {
    var last := if o.Got? then o.bytes else [];
    if outs == [] {
      assert outs + [o] == [o];
      assert Received([o]) == last + Received([]);
    } else {
      var head := if outs[0].Got? then outs[0].bytes else [];
      assert (outs + [o])[0] == outs[0];
      assert (outs + [o])[1..] == outs[1..] + [o];
      ReceivedAppend(outs[1..], o);
      Assoc(head, Received(outs[1..]), last);
    }
  }

  lemma Assoc<X>(a: seq<X>, b: seq<X>, c: seq<X>)
    ensures a + (b + c) == (a + b) + c
  {
  }

  class Channel {
    var deliveries: seq<Delivery>
    var answers: seq<WriteAnswer>
    /** The values the peer has accepted, in order. */
    var sent: seq<Value>
    /** Every read so far and what it returned. */
    ghost var log: seq<ReadOutcome>

    constructor (deliveries: seq<Delivery>, answers: seq<WriteAnswer>)
      ensures this.deliveries == deliveries && this.answers == answers
      ensures sent == [] && log == []
    {
      this.deliveries := deliveries;
      this.answers := answers;
      sent := [];
      log := [];
    }

    /** The input stream: the bytes that later reads can still deliver. */
    ghost function Stream(): seq<byte>
      reads this
    {
      Pending(deliveries)
    }

    /** A measure that every read delivering at least one byte decreases. */
    ghost function Remaining(): nat
      reads this
    {
      |deliveries| + |Stream()|
    }

    /** How the next write will be answered (an exhausted script accepts). */
    function NextWrite(): Result<(), IoErrorKind>
      reads this
    {
      if answers == [] || answers[0].Accept? then Success(()) else Failure(answers[0].kind)
    }

    /** `Read::read(&mut buf[from..])`: zero bytes (end of stream), an error, or
        between one and `buf.Length - from` bytes taken from the front of the stream. */
    method Read(buf: array<byte>, from: nat) returns (r: Result<nat, IoErrorKind>)
      requires from <= buf.Length
      modifies this, buf
      ensures answers == old(answers) && sent == old(sent)
      ensures r.Success? ==> from + r.value <= buf.Length
      ensures r.Success? ==>
        && buf[..from] == old(buf[..from])
        && log == old(log) + [Got(buf[from..from + r.value])]
        && old(Stream()) == buf[from..from + r.value] + Stream()
        && (r.value > 0 ==> Remaining() < old(Remaining()))
      ensures r.Failure? ==>
        && buf[..] == old(buf[..])
        && log == old(log) + [Failed(r.error)]
        && Stream() == old(Stream())
    {
      if deliveries == [] {
        assert buf[from..from + 0] == [];
        log := log + [Got([])];
        return Success(0);
      }
      ghost var stream, remaining := Stream(), Remaining();
      match deliveries[0]
      case Fault(kind) =>
        deliveries := deliveries[1..];
        log := log + [Failed(kind)];
        r := Failure(kind);
      case Chunk(bytes) =>
        var rest := deliveries[1..];
        assert stream == bytes + Pending(rest);
        var n := Fill(buf, from, bytes);
        if n == |bytes| {
          deliveries := rest;
        } else {
          deliveries := [Chunk(bytes[n..])] + rest;
          assert deliveries[1..] == rest;
        }
        assert Stream() == bytes[n..] + Pending(rest);
        assert bytes == bytes[..n] + bytes[n..];
        Assoc(bytes[..n], bytes[n..], Pending(rest));
        log := log + [Got(bytes[..n])];
        r := Success(n);
    }

    /** Copies as much of `bytes` as fits into `buf[from..]`. */
    static method Fill(buf: array<byte>, from: nat, bytes: seq<byte>) returns (n: nat)
      requires from <= buf.Length
      modifies buf
      ensures n == if |bytes| <= buf.Length - from then |bytes| else buf.Length - from
      ensures buf[..from] == old(buf[..from]) && buf[from..from + n] == bytes[..n]
    {
      n := if |bytes| <= buf.Length - from then |bytes| else buf.Length - from;
      forall k | 0 <= k < n {
        buf[from + k] := bytes[k];
      }
    }

    /** The write that `write_item` performs: the peer accepts the item or refuses it. */
    method Write(item: Value) returns (r: Result<(), IoErrorKind>)
      modifies this
      ensures r == old(NextWrite())
      ensures deliveries == old(deliveries) && log == old(log)
      ensures answers == if old(answers) == [] then [] else old(answers)[1..]
      ensures sent == old(sent) + (if r.Success? then [item] else [])
    {
      r := NextWrite();
      if answers != [] {
        answers := answers[1..];
      }
      if r.Success? {
        sent := sent + [item];
      }
    }
  }
}
