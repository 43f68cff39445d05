/** Reading and writing TCP streams: crates/common/src/net/stream_utils.rs. */
module Streams {
  import opened Types

  const TCP_READ_BLOCK_SIZE := 1024

  type Chunk = b: Bytes | |b| <= TCP_READ_BLOCK_SIZE

  /** What one `read` call returns. `Ended` stands for the three error kinds taken as end of stream. */
  datatype ReadCall = Got(chunk: Chunk) | NothingNow | Ended | Broken

  datatype StreamError = StreamEof | WouldBlock | OtherError

  datatype ReadResult = Data(data: Bytes) | ReadFailed(error: StreamError)

  /** What `write_all` did: all of it, or some bytes and then an error. */
  datatype WriteCall = Wrote | Partly(count: nat, error: StreamError)

  /** What the stream gave up during one read, and what the caller gets of it. */
  datatype ReadEffect = ReadEffect(consumed: Bytes, result: ReadResult)

  /** Reading: whole blocks are collected until a shorter one, or nothing, or an error. */
  function ReadAll(calls: seq<ReadCall>): ReadEffect {
    if calls == [] then ReadEffect([], Data([]))
    else match calls[0]
      case NothingNow => ReadEffect([], Data([]))
      case Ended => ReadEffect([], ReadFailed(StreamEof))
      case Broken => ReadEffect([], ReadFailed(OtherError))
      case Got(chunk) =>
        if |chunk| < TCP_READ_BLOCK_SIZE then ReadEffect(chunk, Data(chunk))
        else After(chunk, ReadAll(calls[1..]))
  }

  /** A read that had already collected some bytes. */
  function After(buffer: Bytes, e: ReadEffect): ReadEffect {
    ReadEffect(buffer + e.consumed, match e.result case Data(data) => Data(buffer + data) case _ => e.result)
  }

  lemma AfterAfter(a: Bytes, b: Bytes, e: ReadEffect)
    ensures After(a, After(b, e)) == After(a + b, e)
  {
    assert a + (b + e.consumed) == a + b + e.consumed;
    if e.result.Data? {
      assert a + (b + e.result.data) == a + b + e.result.data;
    }
  }

  /** The loop of `read_tcp_stream` (and of `read_tls_conn`, which has the same shape). */
  method ReadTcpStream(calls: seq<ReadCall>) returns (result: ReadResult, consumed: Bytes)
    ensures ReadEffect(consumed, result) == ReadAll(calls)
  {
    var buffer: Bytes := [];
    assert ReadAll(calls) == After(buffer, ReadAll(calls[0..]));
    for i := 0 to |calls|
      invariant ReadAll(calls) == After(buffer, ReadAll(calls[i..]))
    {
      match calls[i] {
        case NothingNow =>
          assert buffer + [] == buffer;
          return Data(buffer), buffer;
        case Ended =>
          assert buffer + [] == buffer;
          return ReadFailed(StreamEof), buffer;
        case Broken =>
          assert buffer + [] == buffer;
          return ReadFailed(OtherError), buffer;
        case Got(chunk) =>
          if |chunk| < TCP_READ_BLOCK_SIZE {
            buffer := buffer + chunk;
            return Data(buffer), buffer;
          }
          AfterAfter(buffer, chunk, ReadAll(calls[i + 1..]));
          assert calls[i..][1..] == calls[i + 1..];
          buffer := buffer + chunk;
      }
    }
    assert buffer + [] == buffer;
    return Data(buffer), buffer;
  }

  function Concat(calls: seq<ReadCall>): Bytes {
    if calls == [] then []
    else (if calls[0].Got? then calls[0].chunk else []) + Concat(calls[1..])
  }

  /** A read returns exactly the bytes it consumed, unless it fails; and it consumes them in stream order. */
  lemma {:induction false} ReadReturnsConsumed(calls: seq<ReadCall>)
    ensures var e := ReadAll(calls);
            && (e.result.Data? ==> e.result.data == e.consumed)
            && e.consumed <= Concat(calls)
            && (e.result.ReadFailed? ==> !e.result.error.WouldBlock?)
  {
    if calls != [] && calls[0].Got? {
      ReadReturnsConsumed(calls[1..]);
    }
  }

  /** The first `n` calls each got a whole block, and the next one, if there is one, did not. */
  ghost predicate WholeBlocks(calls: seq<ReadCall>, n: nat) {
    && n <= |calls|
    && (forall i :: 0 <= i < n ==> calls[i].Got? && |calls[i].chunk| == TCP_READ_BLOCK_SIZE)
    && (n < |calls| && calls[n].Got? ==> |calls[n].chunk| < TCP_READ_BLOCK_SIZE)
  }

  /**
   * Reading goes on over whole blocks and ends with the first call that got less: with a last part or with
   * nothing more it returns all it got, with an end or an error it fails with that.
   */
  lemma {:induction false} ReadsWholeBlocks(calls: seq<ReadCall>, n: nat)
    requires WholeBlocks(calls, n)
    ensures var (e, blocks) := (ReadAll(calls), Concat(calls[..n]));
            if n == |calls| || calls[n].NothingNow? then e == ReadEffect(blocks, Data(blocks))
            else match calls[n]
              case Got(last) => e == ReadEffect(blocks + last, Data(blocks + last))
              case Ended => e == ReadEffect(blocks, ReadFailed(StreamEof))
              case _ => e == ReadEffect(blocks, ReadFailed(OtherError))
  {
    if n > 0 {
      ReadsWholeBlocks(calls[1..], n - 1);
      var (block, rest) := (calls[0].chunk, Concat(calls[1..][..n - 1]));
      assert calls[..n][1..] == calls[1..][..n - 1] && calls[..n][0] == calls[0];
      assert Concat(calls[..n]) == block + rest;
      assert ReadAll(calls) == After(block, ReadAll(calls[1..]));
      if n < |calls| && calls[n].Got? {
        assert calls[1..][n - 1] == calls[n];
        assert block + (rest + calls[n].chunk) == block + rest + calls[n].chunk;
      }
    } else {
      assert calls[..0] == [] && Concat([]) == [];
      if calls != [] && calls[0].Got? {
        assert [] + calls[0].chunk == calls[0].chunk;
      }
    }
  }

  /** The bytes of `data` that a write put on the stream. */
  function Accepted(data: Bytes, w: WriteCall): (b: Bytes)
    ensures b <= data
    ensures |b| == if w.Wrote? || w.count > |data| then |data| else w.count
  {
    match w
    case Wrote => data
    case Partly(count, _) => if count < |data| then data[..count] else data
  }
}
