/** The call layer of src/rpc.rs: a request is written as one JSON Lines item and,
    unless nothing in it expects an answer, one item is read back.

    The `Request` trait that the crate's requests implement is not part of this
    model; a request type is described by three parameters: how it is written
    (`encode`), whether it is a notification (`isNotification`), and how its
    response is parsed (`decode`). */
module Rpc {
  import opened Json
  import opened Transport
  import opened Io
  import Types

  /** `requests.iter().all(|r| r.is_notification())`: true of the empty batch. */
  function AllNotifications<Req>(requests: seq<Req>, isNotification: Req -> bool): (b: bool)
    ensures b <==> forall i :: 0 <= i < |requests| ==> isNotification(requests[i])
    decreases |requests|
  {
    if requests == [] then true
    else if !isNotification(requests[0]) then false
    else
      var rest := AllNotifications(requests[1..], isNotification);
      assert forall i :: 1 <= i < |requests| ==> requests[1..][i - 1] == requests[i];
      rest
  }

  /** A slice of requests is serialised as one JSON array. */
  function EncodeBatch<Req>(requests: seq<Req>, encode: Req -> Value): Value
  {
    Arr(seq(|requests|, i requires 0 <= i < |requests| => encode(requests[i])))
  }

  /** What `call` returns after its read: the read's result wrapped in `Some`. */
  function Answered<Resp>(r: Result<Resp, Error>): Result<Option<Resp>, Error>
  {
    match r
    case Success(v) => Success(Some(v))
    case Failure(e) => Failure(e)
  }

  /** `RpcClient<S>`: the only state is the stream it owns. */
  class RpcClient {
    const stream: JsonlStream

    ghost predicate Valid()
      reads this, stream, stream.readBuf
    {
      stream.Valid()
    }

    /** `RpcClient::new`: a fresh stream over the transport, nothing pending. */
    constructor (transport: Channel)
      ensures Valid() && fresh(stream) && fresh(stream.readBuf)
      ensures stream.inner == transport && stream.readBuf.Length == INITIAL_CAPACITY
      ensures stream.Pending() == [] && stream.trace == []
    {
      stream := new JsonlStream(transport);
    }

    /** `call`: one write of the request; then, for a request that is not a
        notification, one `read_item`. A failed write returns its error and reads
        nothing. `outs` are the reads the call performed. */
    method Call<Req, Resp>(request: Req, encode: Req -> Value, isNotification: Req -> bool,
                           decode: seq<byte> -> Result<Resp, Error>)
      returns (r: Result<Option<Resp>, Error>, ghost outs: seq<ReadOutcome>)
      requires Valid()
      modifies stream, stream.readBuf, stream.inner
      ensures Valid() && (stream.readBuf == old(stream.readBuf) || fresh(stream.readBuf))
      ensures stream.inner.sent ==
        old(stream.inner.sent) + (if old(stream.inner.NextWrite()).Success? then [encode(request)] else [])
      ensures stream.inner.log == old(stream.inner.log) + outs
      ensures old(stream.inner.Stream()) == Received(outs) + stream.inner.Stream()
      ensures stream.inner.answers ==
        if old(stream.inner.answers) == [] then [] else old(stream.inner.answers)[1..]
      ensures old(stream.inner.NextWrite()).Failure? ==>
        && r == Failure(IoError(old(stream.inner.NextWrite()).error))
        && outs == [] && stream.trace == old(stream.trace) + [Write(encode(request))]
        && stream.Pending() == old(stream.Pending())
      ensures old(stream.inner.NextWrite()).Success? && isNotification(request) ==>
        && r == Success(None)
        && outs == [] && stream.trace == old(stream.trace) + [Write(encode(request))]
        && stream.Pending() == old(stream.Pending())
      ensures old(stream.inner.NextWrite()).Success? && !isNotification(request) ==>
        && stream.trace == old(stream.trace) + [Write(encode(request)), Read(outs)]
        && outs != []
        && var f := Run(old(stream.Pending()), outs, decode);
        && !f.More? && r == Answered(ResultOf(f)) && stream.Pending() == f.pending
    {
      var w := stream.WriteItem(encode(request));
      if w.Failure? {
        return Failure(w.error), [];
      }
      if isNotification(request) {
        return Success(None), [];
      }
      var response;
      response, outs := stream.ReadItem(decode);
      r := Answered(response);
    }

    /** `batch_call`: the whole batch is one write; when every request is a
        notification (the empty batch included) the result is empty and nothing is
        read; otherwise one `read_item` parses the response array. */
    method BatchCall<Req, Resp>(requests: seq<Req>, encode: Req -> Value, isNotification: Req -> bool,
                                decode: seq<byte> -> Result<seq<Resp>, Error>)
      returns (r: Result<seq<Resp>, Error>, ghost outs: seq<ReadOutcome>)
      requires Valid()
      modifies stream, stream.readBuf, stream.inner
      ensures Valid() && (stream.readBuf == old(stream.readBuf) || fresh(stream.readBuf))
      ensures stream.inner.sent ==
        old(stream.inner.sent) + (if old(stream.inner.NextWrite()).Success? then [EncodeBatch(requests, encode)] else [])
      ensures stream.inner.log == old(stream.inner.log) + outs
      ensures old(stream.inner.Stream()) == Received(outs) + stream.inner.Stream()
      ensures stream.inner.answers ==
        if old(stream.inner.answers) == [] then [] else old(stream.inner.answers)[1..]
      ensures old(stream.inner.NextWrite()).Failure? ==>
        && r == Failure(IoError(old(stream.inner.NextWrite()).error))
        && outs == [] && stream.trace == old(stream.trace) + [Write(EncodeBatch(requests, encode))]
        && stream.Pending() == old(stream.Pending())
      ensures old(stream.inner.NextWrite()).Success? && AllNotifications(requests, isNotification) ==>
        && r == Success([])
        && outs == [] && stream.trace == old(stream.trace) + [Write(EncodeBatch(requests, encode))]
        && stream.Pending() == old(stream.Pending())
      ensures old(stream.inner.NextWrite()).Success? && !AllNotifications(requests, isNotification) ==>
        && stream.trace == old(stream.trace) + [Write(EncodeBatch(requests, encode)), Read(outs)]
        && outs != []
        && var f := Run(old(stream.Pending()), outs, decode);
        && !f.More? && r == ResultOf(f) && stream.Pending() == f.pending
    {
      var w := stream.WriteItem(EncodeBatch(requests, encode));
      if w.Failure? {
        return Failure(w.error), [];
      }
      if AllNotifications(requests, isNotification) {
        return Success([]), [];
      }
      r, outs := stream.ReadItem(decode);
    }
  }

  /** The batch of src/lib.rs:118-140, two requests around a notification, expects
      an answer; a batch of notifications alone, or no requests at all, does not. */
  lemma BatchNeedsAnswer()
    ensures var one := Types.RequestObject(Types.V2, "foo", None, Some(Types.Number(1)));
      var two := Types.RequestObject(Types.V2, "bar", Some(Types.Array([])), Some(Types.String("2")));
      var note := Types.RequestObject(Types.V2, "baz", Some(Types.Object(map[])), None);
      && !AllNotifications([one, note, two], Types.IsNotification)
      && AllNotifications([note, note], Types.IsNotification)
      && AllNotifications([], Types.IsNotification)
  {
    var one := Types.RequestObject(Types.V2, "foo", None, Some(Types.Number(1)));
    var two := Types.RequestObject(Types.V2, "bar", Some(Types.Array([])), Some(Types.String("2")));
    var note := Types.RequestObject(Types.V2, "baz", Some(Types.Object(map[])), None);
    assert !Types.IsNotification([one, note, two][0]);
    assert Types.IsNotification([note, note][0]) && Types.IsNotification([note, note][1]);
  }
}
