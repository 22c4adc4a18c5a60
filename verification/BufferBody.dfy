/** `buffer_body` of include/beast/http/buffer_body.hpp, and the two loops of
    example/doc/http_examples.hpp that pass a body through a small buffer. */
module BufferBody {

  import opened Octets

  /** A pointer is a block of memory and an offset into it. */
  class Value {
    var block: array?<Octet>
    var at: nat
    var size: nat
    var more: bool

    ghost predicate Valid()
      reads this
    {
      block != null ==> at + size <= block.Length
    }

    constructor ()
      ensures Valid() && block == null && size == 0 && more
    {
      block, at, size, more := null, 0, 0, true;
    }

    ghost function Memory(): set<object>
      reads this
    {
      if block == null then {} else {block}
    }
  }

  /** `reader::put`: copies what there is room for, and says how much that was. */
  method Put(body: Value, buffers: seq<seq<Octet>>) returns (n: nat, ec: Error)
    requires body.Valid()
    modifies body, body.Memory()
    ensures body.Valid() && body.block == old(body.block) && body.more == old(body.more)
    ensures n == if body.block == null then 0 else Min(old(body.size), |Flatten(buffers)|)
    ensures body.at == old(body.at) + n && body.size == old(body.size) - n
    ensures ec == if body.block != null && n == |Flatten(buffers)| then NoError else NeedBuffer
    ensures body.block != null ==>
              body.block[..] == old(body.block[..body.at]) + Flatten(buffers)[..n] + old(body.block[body.at..])[n..]
  {
    if body.block == null {
      return 0, NeedBuffer;
    }
    var octets := Flatten(buffers);
    n := Min(body.size, |octets|);
    var block, at := body.block, body.at;
    forall i | 0 <= i < n {
      block[at + i] := octets[i];
    }
    body.at := at + n;
    body.size := body.size - n;
    ec := if n == |octets| then NoError else NeedBuffer;
  }

  class Writer {
    const body: Value
    var toggle: bool

    constructor (body: Value)
      ensures this.body == body && !toggle
    {
      this.body := body;
      toggle := false;
    }

    /** `writer::get`: the buffer once, then no more of it. */
    method Get() returns (r: Option<(seq<Octet>, bool)>, ec: Error)
      requires body.Valid()
      modifies this
      ensures r.Some? <==> !old(toggle) && body.block != null
      ensures r.Some? ==> body.block != null && r.value == (body.block[body.at..body.at + body.size], body.more)
      ensures toggle == if r.Some? then true else old(toggle) && !body.more
      ensures ec == if r.None? && body.more then NeedBuffer else NoError
    {
      if toggle {
        if body.more {
          toggle := false;
          return None, NeedBuffer;
        }
        return None, NoError;
      }
      if body.block != null {
        toggle := true;
        return Some((body.block[body.at..body.at + body.size], body.more)), NoError;
      }
      return None, if body.more then NeedBuffer else NoError;
    }
  }

  /** A parser past the header of a message whose body is `wire`. */
  class Parser {
    const wire: seq<Octet>
    var pos: nat
    var done: bool
    /** The input or the parser reported an error. */
    var failed: bool

    ghost predicate Valid()
      reads this
    {
      pos <= |wire| && (done ==> pos == |wire|)
    }

    /** A message without a body is complete with its header. */
    constructor (wire: seq<Octet>, done: bool)
      requires done ==> wire == []
      ensures this.wire == wire && pos == 0 && this.done == done && !failed && Valid()
    {
      this.wire := wire;
      pos := 0;
      this.done := done;
      failed := false;
    }

    /** The environment decides whether an operation fails, and `failed` remembers that one did. */
    method Fails() returns (now: bool)
      modifies this`failed
      ensures failed == (old(failed) || now)
    {
      now := *;
      failed := failed || now;
    }
  }

  /** The parser presents a slice of the body, and presents again later what was not taken. */
  method PutSlice(p: Parser, body: Value, k: nat) returns (n: nat, ec: Error)
    requires p.Valid() && !p.done && 0 < k <= |p.wire| - p.pos && body.Valid() && body.block != null
    modifies p`pos, body, body.block
    ensures body.Valid() && body.block == old(body.block) && body.more == old(body.more) && n <= k
    ensures p.pos == old(p.pos) + n && body.at == old(body.at) + n && body.size == old(body.size) - n
    ensures ec == NoError ==> n == k
    ensures ec != NoError ==> ec == NeedBuffer && body.size == 0 && p.pos < |p.wire|
    ensures body.block[..body.at] == old(body.block[..body.at]) + p.wire[old(p.pos)..p.pos]
  {
    var slice := p.wire[p.pos..p.pos + k];
    FlattenOne(slice);
    n, ec := Put(body, [slice]);
    p.pos := p.pos + n;
    assert slice[..n] == p.wire[old(p.pos)..p.pos];
    assert body.block[..body.at] == body.block[..][..body.at];
  }

  /** `read`: slices of any size until the message is complete or there is an error. */
  method Read(p: Parser, body: Value) returns (ec: Error)
    requires p.Valid() && body.Valid() && body.block != null
    modifies p, body, body.block
    ensures p.Valid() && body.Valid() && body.block == old(body.block) && body.more == old(body.more)
    ensures old(p.pos) <= p.pos
    ensures body.at == old(body.at) + (p.pos - old(p.pos)) && body.size == old(body.size) - (p.pos - old(p.pos))
    ensures body.block[..body.at] == old(body.block[..body.at]) + p.wire[old(p.pos)..p.pos]
    ensures ec == NoError ==> p.done
    ensures ec == NeedBuffer ==> !p.done && body.size == 0 && p.pos < |p.wire|
    ensures ec in {NoError, NeedBuffer, IoError} && p.failed == (old(p.failed) || ec == IoError)
  {
    ghost var before, pos0 := body.block[..body.at], p.pos;
    while !p.done
      invariant p.Valid() && body.Valid() && body.block == old(body.block) && body.more == old(body.more)
      invariant pos0 <= p.pos
      invariant body.at == old(body.at) + (p.pos - pos0) && body.size == old(body.size) - (p.pos - pos0)
      invariant body.block[..body.at] == before + p.wire[pos0..p.pos] && p.failed == old(p.failed)
      decreases |p.wire| - p.pos, !p.done
    {
      var fails := p.Fails();
      if fails {
        return IoError;
      }
      if p.pos == |p.wire| {
        p.done := true;
      } else {
        var k: nat :| 0 < k <= |p.wire| - p.pos;
        ghost var pos1 := p.pos;
        var n;
        n, ec := PutSlice(p, body, k);
        assert p.wire[pos0..p.pos] == p.wire[pos0..pos1] + p.wire[pos1..p.pos];
        if ec != NoError {
          return;
        }
      }
    }
    return NoError;
  }

  // ---------------------------------------------------------------- the loops

  class Stream {
    var octets: seq<Octet>
    var failed: bool

    constructor ()
      ensures octets == [] && !failed
    {
      octets, failed := [], false;
    }

    /** The environment decides whether an operation fails, and `failed` remembers that one did. */
    method Fails() returns (now: bool)
      modifies this`failed
      ensures failed == (old(failed) || now)
    {
      now := *;
      failed := failed || now;
    }
  }

  /** `write`: takes buffers from the body writer until there is an error, or none, or one that is
      not to be followed by more.  An error of the stream may leave a buffer partly written. */
  method Write(output: Stream, sr: Writer) returns (ec: Error, done: bool)
    requires sr.body.Valid()
    modifies output, sr
    ensures old(output.octets) <= output.octets
    ensures ec == NoError ==> done
    ensures ec != IoError ==>
              output.octets == old(output.octets)
                + (if old(sr.toggle) || sr.body.block == null then []
                   else sr.body.block[sr.body.at..sr.body.at + sr.body.size])
    ensures ec != IoError ==> ec == if sr.body.more then NeedBuffer else NoError
    ensures ec == NeedBuffer ==> !done && !sr.toggle
    ensures ec == IoError && sr.body.block != null ==>
              output.octets <= old(output.octets) + sr.body.block[sr.body.at..sr.body.at + sr.body.size]
    ensures ec == IoError && sr.body.block == null ==> output.octets == old(output.octets)
    ensures ec in {NoError, NeedBuffer, IoError} && output.failed == (old(output.failed) || ec == IoError)
    ensures ec != NoError ==> !done
  {
    ghost var begun := sr.toggle;
    done := false;
    while true
      invariant begun || sr.body.block == null ==> output.octets == old(output.octets)
      invariant sr.toggle && !begun ==>
                  && sr.body.block != null && sr.body.more
                  && output.octets == old(output.octets) + sr.body.block[sr.body.at..sr.body.at + sr.body.size]
      invariant !sr.toggle ==> output.octets == old(output.octets)
      invariant (sr.toggle == begun || sr.toggle) && output.failed == old(output.failed)
      decreases !sr.toggle
    {
      var r;
      r, ec := sr.Get();
      if ec != NoError {
        return;
      }
      if r.None? {
        return NoError, true;
      }
      var (buffer, more) := r.value;
      var fails := output.Fails();
      if fails {
        var k: nat :| k <= |buffer|;
        output.octets := output.octets + buffer[..k];
        return IoError, false;
      }
      output.octets := output.octets + buffer;
      if !more {
        return NoError, true;
      }
    }
  }

  const RELAY_SIZE := 2048

  /** Rounds that pass `n` octets through a buffer of `size`, at least one. */
  function Rounds(n: nat, size: nat): nat
    requires 0 < size
  {
    if n <= size then 1 else 1 + Rounds(n - size, size)
  }

  lemma {:induction false} RoundsAt(n: nat, size: nat, k: nat)
    requires 0 < size && 0 < k && (k - 1) * size <= n <= k * size && (1 < k ==> (k - 1) * size < n)
    ensures Rounds(n, size) == k
  {
    if n > size {
      RoundsAt(n - size, size, k - 1);
    }
  }

  /** What both loops begin a round with: an empty buffer, and a read that may exhaust it. */
  method ReadIntoBuffer(p: Parser, body: Value, buf: array<Octet>) returns (ec: Error)
    requires p.Valid() && !p.done
    modifies p, body, buf
    ensures p.Valid() && body.Valid() && body.block == buf && body.more == old(body.more)
    ensures old(p.pos) <= p.pos && body.size == buf.Length - (p.pos - old(p.pos))
    ensures buf[..buf.Length - body.size] == p.wire[old(p.pos)..p.pos]
    ensures ec in {NoError, IoError} && p.failed == (old(p.failed) || ec == IoError)
    ensures ec == NoError && !p.done ==> body.size == 0 && p.pos < |p.wire|
  {
    body.block, body.at, body.size := buf, 0, buf.Length;
    ec := Read(p, body);
    if ec == NeedBuffer {
      ec := NoError;
    }
  }

  /** `relay`, from where the headers have been passed on.  Every octet of the body goes out once,
      in order, however the parser slices it; every round that leaves the message incomplete has
      moved a full buffer, so the number of rounds follows from the length alone.  The serializer is
      told where the body ends, so it is done too; a message that is complete with its header leaves it
      asking for a buffer.  Only an error of the input or of the output ends the relay early. */
  method Relay(output: Stream, p: Parser) returns (ec: Error, rounds: nat, done: bool)
    requires p.Valid() && p.pos == 0 && output.octets == [] && !p.failed && !output.failed
    modifies output, p
    ensures output.octets <= p.wire
    ensures ec == NoError ==> output.octets == p.wire && p.done && rounds == Rounds(|p.wire|, 2048)
    ensures ec == NoError ==> (done <==> !old(p.done))
    ensures ec in {NoError, IoError} && (ec == IoError <==> p.failed || output.failed)
  {
    var buf := new Octet[RELAY_SIZE];
    var body := new Value();
    var sr := new Writer(body);
    rounds, done := 0, false;
    while true
      invariant p.Valid() && fresh(body) && fresh(sr) && fresh(buf) && sr.body == body && !sr.toggle
      invariant rounds == 0 ==> body.more && p.done == old(p.done)
      invariant !p.failed && !output.failed && !done
      invariant rounds > 0 ==> !p.done && !old(p.done) && p.pos < |p.wire|
      invariant p.pos == rounds * RELAY_SIZE
      invariant output.octets == p.wire[..p.pos]
      decreases |p.wire| - p.pos, rounds == 0
    {
      ghost var pos0 := p.pos;
      if !p.done {
        ec := ReadIntoBuffer(p, body, buf);
        if ec != NoError {
          return;
        }
        body.size := RELAY_SIZE - body.size;
        body.block, body.at := buf, 0;
        body.more := !p.done;
      } else {
        body.block, body.size := null, 0;
      }
      assert p.wire[..p.pos] == p.wire[..pos0] + p.wire[pos0..p.pos];
      ec, done := Write(output, sr);
      if ec == NeedBuffer {
        ec := NoError;
      }
      if ec != NoError {
        return;
      }
      rounds := rounds + 1;
      if p.done || done {
        RoundsAt(|p.wire|, RELAY_SIZE, rounds);
        return;
      }
    }
  }

  const PRINT_SIZE := 512

  /** `read_and_print_body`, from where the header has been read. */
  method ReadAndPrint(os: Stream, p: Parser) returns (ec: Error, rounds: nat)
    requires p.Valid() && p.pos == 0 && os.octets == [] && !p.failed
    modifies os, p
    ensures os.octets <= p.wire
    ensures ec == NoError ==> os.octets == p.wire && p.done
    ensures ec == NoError ==> rounds == if old(p.done) then 0 else Rounds(|p.wire|, 512)
    ensures ec in {NoError, IoError} && (ec == IoError <==> p.failed)
  {
    ghost var empty := p.done;
    var body := new Value();
    rounds, ec := 0, NoError;
    while !p.done
      invariant p.Valid() && fresh(body) && ec == NoError && !p.failed
      invariant os.octets == p.wire[..p.pos]
      invariant !p.done ==> !empty && p.pos == rounds * PRINT_SIZE && (rounds > 0 ==> p.pos < |p.wire|)
      invariant p.done ==> rounds == if empty then 0 else Rounds(|p.wire|, PRINT_SIZE)
      decreases |p.wire| - p.pos, !p.done
    {
      var buf := new Octet[PRINT_SIZE];
      ghost var pos0 := p.pos;
      ec := ReadIntoBuffer(p, body, buf);
      if ec != NoError {
        return;
      }
      os.octets := os.octets + buf[..PRINT_SIZE - body.size];
      assert p.wire[..p.pos] == p.wire[..pos0] + p.wire[pos0..p.pos];
      rounds := rounds + 1;
      if p.done {
        RoundsAt(|p.wire|, PRINT_SIZE, rounds);
      }
    }
  }
}
