/** `print_chunked_body` of example/doc/http_examples.hpp: chunks are put together again by two
    callbacks of the parser, however it slices them. */
module ChunkPrinter {
  import opened Octets

  /** The parser past the header: the bodies of the chunks before the last one, none of which is
      empty since a size of zero marks the last chunk. */
  class ChunkParser {
    const chunks: seq<seq<Octet>>
    var next: nat
    var done: bool
    /** The input or the parser reported an error. */
    var failed: bool

    ghost predicate Valid()
      reads this
    {
      next <= |chunks| && (done ==> next == |chunks|) && forall i | 0 <= i < |chunks| :: chunks[i] != []
    }

    /** A message without a body is complete with its header. */
    constructor (chunks: seq<seq<Octet>>, done: bool)
      requires (done ==> chunks == []) && forall i | 0 <= i < |chunks| :: chunks[i] != []
      ensures Valid() && this.chunks == chunks && next == 0 && this.done == done && !failed
    {
      this.chunks, next := chunks, 0;
      this.done, failed := done, false;
    }

    /** The environment decides whether an operation fails, and `failed` remembers that one did. */
    method Fails() returns (now: bool)
      modifies this`failed
      ensures failed == (old(failed) || now)
    {
      now := *;
      failed := failed || now;
    }
  }

  class Printer {
    /** The largest std::size_t. */
    const maxSize: nat
    var chunk: seq<Octet>
    var printed: seq<seq<Octet>>
    /** The sizes given to the header callback. */
    var sizes: seq<nat>

    constructor (maxSize: nat)
      ensures this.maxSize == maxSize && chunk == [] && printed == [] && sizes == []
    {
      this.maxSize, chunk, printed, sizes := maxSize, [], [], [];
    }

    /** Called before the body of every chunk, and for the last chunk with size 0.  `parsed` tells
        whether the extensions of the chunk could be parsed, which comes first. */
    method OnHeader(size: nat, parsed: bool) returns (ec: Error)
      modifies this`chunk, this`sizes
      ensures sizes == old(sizes) + [size]
      ensures ec == if !parsed then IoError else if size > maxSize then BodyLimit else NoError
      ensures chunk == if ec == NoError then [] else old(chunk)
    {
      sizes := sizes + [size];
      if !parsed {
        return IoError;
      }
      if size > maxSize {
        return BodyLimit;
      }
      chunk := [];
      return NoError;
    }

    /** Called with a piece of a chunk of which `remain` octets are left, the piece included. */
    method OnBody(remain: nat, body: seq<Octet>) returns (n: nat, ec: Error)
      modifies this`chunk
      ensures n == |body| && chunk == old(chunk) + body
      ensures ec == if remain == |body| then EndOfChunk else NoError
    {
      ec := if remain == |body| then EndOfChunk else NoError;
      chunk := chunk + body;
      n := |body|;
    }

    /** `read`: parses until a callback reports an error, which for a chunk it does at its end. */
    method Read(p: ChunkParser) returns (ec: Error)
      requires p.Valid() && !p.done
      modifies this`chunk, this`sizes, p
      ensures p.Valid() && (p.done <==> ec == NoError)
      ensures ec == EndOfChunk ==>
                && old(p.next) < |p.chunks| && p.next == old(p.next) + 1 && chunk == p.chunks[old(p.next)]
                && sizes == old(sizes) + [|chunk|]
      ensures ec == NoError ==> p.next == old(p.next) == |p.chunks| && sizes == old(sizes) + [0]
      ensures ec in {NoError, EndOfChunk, BodyLimit, IoError} && old(sizes) <= sizes
      ensures p.failed == (old(p.failed) || ec == IoError)
      ensures ec == EndOfChunk ==> |chunk| <= maxSize
      ensures ec == BodyLimit ==> p.next == old(p.next) < |p.chunks| && |p.chunks[p.next]| > maxSize
    {
      var fails := p.Fails();
      if fails {
        return IoError;
      }
      fails := p.Fails();
      var parsed := !fails;
      if p.next == |p.chunks| {
        ec := OnHeader(0, parsed);
        if ec != NoError {
          return;
        }
        fails := p.Fails();
        if fails {
          return IoError;
        }
        p.done := true;
        return;
      }
      var data := p.chunks[p.next];
      ec := OnHeader(|data|, parsed);
      if ec != NoError {
        return;
      }
      var pos := 0;
      while ec == NoError
        invariant 0 <= pos <= |data| && chunk == data[..pos] && sizes == old(sizes) + [|data|]
        invariant ec == if pos == |data| then EndOfChunk else NoError
        invariant p.failed == old(p.failed) && p.next == old(p.next) && p.done == old(p.done)
        decreases |data| - pos
        modifies this`chunk, p`failed
      {
        fails := p.Fails();
        if fails {
          return IoError;
        }
        var k: nat :| 0 < k <= |data| - pos;
        var n;
        n, ec := OnBody(|data| - pos, data[pos..pos + k]);
        assert data[..pos + k] == data[..pos] + data[pos..pos + k];
        pos := pos + n;
      }
      p.next := p.next + 1;
    }

    /** Prints every chunk once, whole and in order, with the size its header announced. */
    method PrintChunks(p: ChunkParser) returns (ec: Error)
      requires p.Valid() && p.next == 0 && printed == [] && sizes == [] && !p.failed
      modifies this, p
      ensures printed <= p.chunks
      ensures ec == NoError ==> printed == p.chunks
      ensures ec == NoError && !old(p.done) ==> |sizes| == |printed| + 1 && sizes[|printed|] == 0
      ensures forall i | 0 <= i < |printed| :: i < |sizes| && sizes[i] == |printed[i]|
      ensures ec in {NoError, BodyLimit, IoError} && (ec == IoError <==> p.failed)
      ensures forall i | 0 <= i < |printed| :: |printed[i]| <= maxSize
      ensures ec == BodyLimit ==> |printed| < |p.chunks| && |p.chunks[|printed|]| > maxSize
    {
      ec := NoError;
      while !p.done
        invariant p.Valid() && ec == NoError && !p.failed
        invariant forall i | 0 <= i < p.next :: |p.chunks[i]| <= maxSize
        invariant printed == p.chunks[..p.next]
        invariant |sizes| == p.next + (if p.done && !old(p.done) then 1 else 0)
        invariant forall i | 0 <= i < p.next :: sizes[i] == |p.chunks[i]|
        invariant p.done && !old(p.done) ==> sizes[p.next] == 0
        decreases |p.chunks| - p.next, !p.done
      {
        ec := Read(p);
        if ec == NoError {
          continue;
        } else if ec != EndOfChunk {
          return;
        }
        ec := NoError;
        printed := printed + [chunk];
      }
    }
  }
}
