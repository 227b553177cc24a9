# jsonlrpc in Dafny

This project models the core of `jsonlrpc`, a Rust crate for JSON-RPC 2.0 over a
byte stream framed as JSON Lines: one JSON value per line, each line ended by `\n`.
The model has three parts.

- **The read framer `JsonlStream::read_item`** (`io.dfy`, module `Io`).
  - `JsonlStream` is a class with a growable `array<byte>` buffer and a fill cursor.
  - `ReadItem` runs the loop of the source. It doubles a full buffer, reads into the spare tail, and scans only the new bytes for `\n`. It decodes the bytes from the start of the buffer up to that newline, then shifts the leftover bytes to the front.
  - Each piece of the loop is its own method, proved against pure specifications: `Grow`, `Compact`, `TakeLine`, `ScanNew` and `Iterate`.
    - `Step` is what one iteration does with the pending bytes and the result of one `read`.
    - `Run` is `Step` folded over the reads of one call.
  - `ReadItem` is proved to be `Run` over exactly the reads it performed. Lemmas state what `Run` means:
    - conservation: old pending bytes plus the bytes read equal the line, plus `\n`, plus the new pending bytes;
    - the line holds no newline after the old pending bytes;
    - what is kept on an I/O error, at end of stream and after a decode error;
    - two consequences of the code as written: a complete line already pending is not examined, and a line that fails to decode stays pending until a decode succeeds, the next line found beginning with it.
- **The JSON-RPC 2.0 message types** (`types.dfy`, module `Types`).
  - `ErrorCode` with its constants and its range predicates.
  - Encoding and decoding at the level of JSON values, following the serde attributes of each type. The attributes are renaming, `untagged`, `default` and `skip_serializing_if`.
  - Round trips, the shape of what decodes, which optional keys are written, and how an untagged response chooses its variant.
- **The call layer `RpcClient`** (`rpc.dfy`, module `Rpc`).
  - `Call` and `BatchCall` write once and then read at most once.
  - The ghost trace of the stream records every `Write` and `Read` event. Each method's contract states the full trace for each of three cases: a failed write, a notification (or a batch of only notifications), and a request that expects an answer.

Two modules support these parts.
- `json.dfy` (module `Json`) holds bytes, `Option`, `Result`, the JSON value type and the error categories of `serde_json`.
- `transport.dfy` (module `Transport`) holds `Channel`, a scripted stand-in for the transport `S: Read + Write`. Every read returns one of three things: zero bytes (end of stream), an error, or between one byte and the spare capacity, taken from the front of a script of deliveries. A ghost log records each read's outcome.

## Parameters in place of foreign code

- `serde_json::from_slice` becomes the parameter `decode: seq<byte> -> Result<T, Error>`. It is an arbitrary function, generic like the Rust `T`.
- The `Request` trait is not part of this model. A request type is described at each call by three parameters:
  - `encode`, its JSON value;
  - `isNotification`, its `is_notification`;
  - `decode`, the parser of its response.
- For `RequestObject`, `Types.IsNotification` is "the id is `None`".
- `write_item` is not defined in the source files modelled here. `JsonlStream.WriteItem` hands the value to the channel in one step and records a `Write` event.

## Consequences of the code as written

- **Pending lines.** `read_item` always reads before it scans, and it scans only the newly read bytes (src/io.rs:25-41). A complete line already among the pending bytes is therefore not returned.
  - `Io.StaleLineIsNotExamined` states what follows. A failed or empty read ends the call with that line still pending. A read that brings a newline decodes a slice that spans the older line.
- **Decode failures.** A decode error returns before `copy_within` (src/io.rs:43-45), so the bad line and its newline stay at the front of the buffer.
  - `Io.ReadItemBadLine` and `Io.BadLineStays` state that the bad line stays pending until a decode succeeds, and that the next line found begins with it. The JSON value parser decides whether that longer line decodes; if it does, the bad line is dropped with it.
- **Notifications in `call`.** `call` returns `Ok(None)` for a notification without reading (src/rpc.rs:22-24).
- **Server-error codes.** `is_server_error` rejects -32050, which section 5.1 of JSON-RPC 2.0 puts in the server-error range; as written it holds for no code (see Findings).

## Model

| member | source | states |
|---|---|---|
| Transport.Channel.Read | src/io.rs:30-33 | a read returns zero bytes, an error, or at most the spare capacity; the bytes it returns come off the front of the input stream and are logged; the buffer before `from` is unchanged, and an error changes nothing in it |
| Transport.ReceivedAppend | src/io.rs:39 | the bytes of one more read follow the bytes of the earlier reads |
| Io.Capacity | src/io.rs:16 | the buffer is never shorter than the initial 1024 bytes |
| Io.FirstNewline | src/io.rs:41-42 | the found index holds `\n` and no earlier byte does; `None` exactly when there is no `\n` |
| Io.RunSnoc | src/io.rs:25-49 | one more read after reads that continued the loop is one more iteration |
| Io.RunMore | src/io.rs:38-48 | while the loop continues, every read brought at least one byte and no newline, and all of them are kept after the old pending bytes |
| Io.StepMeaning | src/io.rs:30-46 | one iteration: an error or a zero read stops with the pending bytes unchanged; new bytes without `\n` are appended; otherwise the line is the old pending bytes plus the new bytes before the first `\n`, and the leftover after it is kept on success, while everything is kept on a decode error |
| Io.StepAtNewline | src/io.rs:41-46 | the first newline among the new bytes ends the iteration with exactly the decode of the bytes before it |
| Io.StepWithoutNewline | src/io.rs:39-48 | new bytes without a newline are all retained and the loop continues |
| Io.ReadItemLine | src/io.rs:41-46 | on success, old pending bytes plus the bytes read equal line, `\n` and new pending; the line has no `\n` after the old pending bytes and decodes to the result |
| Io.ReadItemBadLine | src/io.rs:43 | on a decode error nothing is compacted: the pending bytes are all old pending plus all read bytes, and they begin with the bad line and its `\n` |
| Io.ReadItemStop | src/io.rs:30-36 | on an I/O error or a zero read, every byte is retained, and the error is the transport's or `UnexpectedEof` |
| Io.StaleLineIsNotExamined | src/io.rs:25-41 | a complete line already pending is not returned: a failed or empty read stops with it pending, and a later line spans it |
| Io.BadLineStays | src/io.rs:43-45 | after a call that ends in a decode error, the next `read_item` call, over any number of reads, decodes a line that begins with the bad line and its `\n`, and leaves them pending unless that decode succeeds |
| Io.PrefixKept | src/io.rs:25-46 | bytes at the front of the pending region begin any line a call decodes and, unless that line decodes, the bytes the call leaves pending |
| Io.JsonlStream.constructor | src/io.rs:13-19 | a 1024-byte buffer, nothing pending, an empty trace |
| Io.JsonlStream.WriteItem | src/rpc.rs:21 | one write event; the read state is untouched; the channel's next write answer becomes the result and is used up |
| Io.JsonlStream.Grow | src/io.rs:26-28 | only a full buffer grows, to exactly twice its length, keeping the pending bytes |
| Io.JsonlStream.Compact | src/io.rs:44-45 | the bytes after the line move to the front and the offset drops by the line length plus one |
| Io.JsonlStream.TakeLine | src/io.rs:42-46 | at the first new `\n` the result is the decode of the buffer before it; on success the pending bytes are those after it, and on failure the pending bytes are unchanged |
| Io.JsonlStream.ScanNew | src/io.rs:38-48 | only the newly read range is scanned; the outcome is `Step` of the read; without a newline the offset advances by the read size |
| Io.JsonlStream.Iterate | src/io.rs:26-48 | one loop iteration equals `Step` on the read it performed, which is logged; the buffer changes length only when it was full, and then exactly doubles |
| Io.JsonlStream.Advance | src/io.rs:25-49 | one more iteration of a call is `Run` on the reads so far plus this one |
| Io.JsonlStream.ReadItem | src/io.rs:21-50 | the call equals `Run` over the reads it made (all but the last continuing); result, new pending bytes and trace follow from it; the bytes read are the front of the input stream; the buffer never shrinks and grows at most to twice the bytes it held; it is the old array or a fresh one, so calls can follow one another |
| Types.ErrorCode.New | src/types.rs:160-166 | `get(new(c)) == c` |
| Types.NamedCodesArePreDefined | src/types.rs:154-170 | the five named codes are pre-defined; -31000 is not |
| Types.IsServerErrorNeverHolds | src/types.rs:172-174 | `is_server_error` as written is false for every code |
| Types.ServerErrorCounterexample | src/types.rs:172-174 | -32050 is in the server-error range but `is_server_error` rejects it |
| Types.ServerErrorsArePreDefined | src/types.rs:168-174 | with the intended bounds every server error is pre-defined, and the named codes are not server errors |
| Types.DecodeString | src/types.rs:74 | exactly strings decode, to themselves |
| Types.DecodeVersion | src/types.rs:5-10 | only the string `"2.0"` decodes; anything else is a `Data` error |
| Types.VersionRoundTrip | src/types.rs:5-10 | the version decodes from its encoding |
| Types.DecodeId | src/types.rs:26-31 | an id decodes from an integer within i64 or a string, and encodes back to the same value; null, booleans, floats, out-of-range integers, arrays and objects fail |
| Types.IdRoundTrip | src/types.rs:26-31 | an id decodes from its encoding |
| Types.DecodeParams | src/types.rs:47-52 | parameters decode from exactly arrays and objects, and encode back to the same value |
| Types.ParamsRoundTrip | src/types.rs:47-52 | parameters decode from their encoding |
| Types.EncodeRequest | src/types.rs:70-81 | an encoded request is an object with `jsonrpc` and `method`, plus `params` and `id` exactly when present |
| Types.RequestFields | src/types.rs:70-81 | each key of an encoded request holds the encoding of its field |
| Types.RequestRoundTrip | src/types.rs:70-81 | decode(encode(r)) == r for every request |
| Types.MissingOrNullIdIsNotification | src/types.rs:79-80 | an object with no `id`, or `"id": null`, and no `params`, decodes to a notification without parameters whatever other keys it has |
| Types.RequestDecodeNormalises | src/types.rs:70-81 | whatever a request decodes from holds every key of its re-encoding with the same values |
| Types.DecodeCode | src/types.rs:150-151 | a code decodes from exactly the integers within i32, and encodes back to the same value |
| Types.CodeRoundTrip | src/types.rs:150-151 | a code decodes from its encoding |
| Types.ErrorObjectRoundTrip | src/types.rs:126-134 | decode(encode(e)) == e for every error object whose data is not a present `null` |
| Types.NullDataIsLost | src/types.rs:132-133 | `data: Some(null)` reads back as `None` |
| Types.ResponseVariantByFields | src/types.rs:97-110 | a response decodes as `Ok` only with `result` and a non-null `id`; as `Err` only with `error` and when `Ok` fails; it fails only when both fail |
| Types.ResponseRoundTrip | src/types.rs:97-110 | decode(encode(r)) == r for both variants, including `Err` with no id (written as `null`) |
| Rpc.AllNotifications | src/rpc.rs:36 | true exactly when every request is a notification, hence true of the empty batch |
| Rpc.RpcClient.constructor | src/rpc.rs:11-15 | a fresh stream over the transport with nothing pending and an empty trace |
| Rpc.RpcClient.Call | src/rpc.rs:17-28 | exactly one write first; a write error returns with no read; a notification returns `None` with no read; otherwise exactly one `read_item`, whose result is returned in `Some`; the bytes consumed from the input are exactly those of the reads made; one write answer is used up; the read buffer is the old array or a fresh one |
| Rpc.RpcClient.BatchCall | src/rpc.rs:30-42 | one write of the whole batch; a write error returns with no read; a batch of notifications alone (or empty) returns an empty vector with no read; otherwise exactly one `read_item`; the bytes consumed from the input are exactly those of the reads made; one write answer is used up; the read buffer is the old array or a fresh one |
| Rpc.BatchNeedsAnswer | src/lib.rs:118-140 | the batch of the crate's test (two requests around a notification) expects an answer; notifications alone and the empty batch do not |

## Left out

- The transport is a script of deliveries and write answers, not a socket: TCP, blocking and retries are I/O.
- `serde_json` text parsing and printing are foreign code. JSON is modelled as values, and `from_slice` as the `decode` parameter.
- Floating-point numbers are `real`. Integer width beyond the `i32` and `i64` bounds of codes and ids is not modelled.
- serde accepts some alternate input forms that are not modelled: a struct given as a JSON array, and a unit variant given as a one-entry map.
- Duplicate keys are not modelled, because an object is a map here. serde rejects a repeated known field of a struct with a `Data` error, and a `Value` object keeps the last entry.
- The `FromStr` and `Display` impls are one-line wrappers over `serde_json`.
- `write_item`, its buffering and flushing are not defined in the modelled source.
- `MaybeBatch`, the `Request` trait and `cast` are not defined in the modelled source. Requests are described by the parameters above.
- `inner`, `inner_mut` and `into_inner` are plain accessors.
- These members carry no contract of their own; the members named with each state what they mean:
  - `ErrorCode.Get` and `ErrorCode.IsPreDefined`: `ErrorCode.New`, `NamedCodesArePreDefined` and `ServerErrorsArePreDefined`;
  - `ErrorCode.IsServerError` (as written): `IsServerErrorNeverHolds` and `ServerErrorCounterexample`; `ErrorCode.IsServerErrorIntended`: `ServerErrorsArePreDefined`;
  - the encoders, the field helpers `Required`, `Optional`, `AnyValue` and `Skipped`: the round-trip lemmas and `EncodeRequest`;
  - `DecodeRequest`: `RequestRoundTrip`, `MissingOrNullIdIsNotification` and `RequestDecodeNormalises`;
  - `DecodeError`: `ErrorObjectRoundTrip` and `NullDataIsLost`;
  - `DecodeOk`, `DecodeErr` and `DecodeResponse`: `ResponseVariantByFields` and `ResponseRoundTrip`;
  - `Io.Step`, `Io.Run` and `Io.ResultOf`: `StepMeaning`, `StepAtNewline`, `StepWithoutNewline`, `RunSnoc`, `RunMore`, `ReadItemLine`, `ReadItemBadLine`, `ReadItemStop` and `PrefixKept`;
  - `Rpc.EncodeBatch` and `Rpc.Answered`: the contracts of `Call` and `BatchCall`.
  - `Types.IsNotification`: `BatchNeedsAnswer`, which applies it to the test batch.
- `read_item`'s loop ends because every read that continues it consumes the scripted input. Against a real peer that never sends a newline, the call would not return.
- The buffer's `usize` arithmetic cannot overflow in the model. The length doublings are unbounded.
- Types.ErrorObjectRoundTrip: does not round-trip `data: Some(null)`, because serde reads `"data": null` back as `None`. `Types.NullDataIsLost` states what happens instead.
- Types.ResponseRoundTrip: restricted to error objects whose data is not a present `null`, for the same reason.

## Findings

| source | as written | input that shows it | evidently intended | confidence | as-written member | corrected member |
|---|---|---|---|---|---|---|
| src/types.rs:172-174 | `-32000 <= c && c <= -32099`, which no integer satisfies | `ErrorCode(-32050)`: inside the server-error range of section 5.1 of JSON-RPC 2.0, yet `is_server_error` is false | `-32099 <= c && c <= -32000` | high (proved; not executed) | Types.ServerErrorCounterexample | Types.ServerErrorsArePreDefined |
