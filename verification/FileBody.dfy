/** `basic_file_body` of include/beast/http/basic_file_body.hpp and `basic_string_body` of
    include/beast/http/string_body.hpp, and a file read into a string through them. */
module FileBody {
  import opened Octets

  const BUFFER_SIZE := 4096

  /** An open file.  A read returns at least one octet, but perhaps fewer than asked for; a write
      that fails may have written some of the octets. */
  class File {
    var content: seq<Octet>
    var pos: nat
    var failed: bool
    /** How much the latest read asked for. */
    ghost var asked: nat

    ghost predicate Valid()
      reads this
    {
      pos <= |content|
    }

    constructor (content: seq<Octet>)
      ensures Valid() && this.content == content && pos == 0 && !failed
    {
      this.content, pos, failed, asked := content, 0, false, 0;
    }

    /** The environment decides whether an operation fails, and `failed` remembers that one did. */
    method Fails() returns (now: bool)
      modifies this`failed
      ensures failed == (old(failed) || now)
    {
      now := *;
      failed := failed || now;
    }

    method Read(amount: nat) returns (octets: seq<Octet>, ec: Error)
      requires Valid() && 0 < amount <= |content| - pos
      modifies this`pos, this`failed, this`asked
      ensures asked == amount
      ensures Valid() && ec in {NoError, IoError} && failed == (old(failed) || ec == IoError)
      ensures ec == NoError ==> 0 < |octets| <= amount && pos == old(pos) + |octets| && octets == content[old(pos)..pos]
      ensures ec != NoError ==> octets == [] && pos == old(pos)
    {
      asked := amount;
      var fails := Fails();
      if fails {
        return [], IoError;
      }
      var n: nat :| 0 < n <= amount;
      octets, ec := content[pos..pos + n], NoError;
      pos := pos + n;
    }

    method Append(octets: seq<Octet>) returns (n: nat, ec: Error)
      modifies this`content, this`failed
      ensures n <= |octets| && content == old(content) + octets[..n]
      ensures ec in {NoError, IoError} && failed == (old(failed) || ec == IoError)
      ensures ec == NoError ==> n == |octets|
    {
      var fails := Fails();
      if fails {
        n :| 0 <= n <= |octets|;
        ec := IoError;
      } else {
        n, ec := |octets|, NoError;
      }
      content := content + octets[..n];
    }
  }

  class Writer {
    const file: File
    var remain: nat

    ghost predicate Valid()
      reads this, file
    {
      file.Valid() && remain <= |file.content| - file.pos
    }

    /** `fileSize` was taken when the file was opened, and the file still has that many octets. */
    constructor (file: File, fileSize: nat)
      requires file.Valid() && fileSize <= |file.content| - file.pos
      ensures Valid() && this.file == file && remain == fileSize
    {
      this.file, remain := file, fileSize;
    }

    /** `writer::get`: the next octets of the file, at most a buffer of them and never none. */
    method Get() returns (r: Option<(seq<Octet>, bool)>, ec: Error)
      requires Valid()
      modifies this, file`pos, file`failed, file`asked
      ensures 0 < old(remain) ==> file.asked == Min(old(remain), 4096)
      ensures Valid() && ec in {NoError, IoError} && file.failed == (old(file.failed) || ec == IoError)
      ensures ec == NoError ==> (r.None? <==> old(remain) == 0)
      ensures r.Some? ==>
                && ec == NoError && 0 < |r.value.0| <= BUFFER_SIZE
                && file.pos == old(file.pos) + |r.value.0| && r.value.0 == file.content[old(file.pos)..file.pos]
                && remain == old(remain) - |r.value.0| && (r.value.1 <==> remain > 0)
      ensures r.None? ==> remain == old(remain) && file.pos == old(file.pos)
    {
      var amount := if remain > BUFFER_SIZE then BUFFER_SIZE else remain;
      if amount == 0 {
        return None, NoError;
      }
      var buf;
      buf, ec := file.Read(amount);
      if ec != NoError {
        return None, ec;
      }
      remain := remain - |buf|;
      return Some((buf, remain > 0)), NoError;
    }
  }

  /** `reader::put` of the file body: writes the buffers one by one. */
  method PutToFile(file: File, buffers: seq<seq<Octet>>) returns (written: nat, ec: Error)
    modifies file`content, file`failed
    ensures written <= |Flatten(buffers)| && file.content == old(file.content) + Flatten(buffers)[..written]
    ensures ec in {NoError, IoError} && (ec == NoError ==> written == |Flatten(buffers)|)
    ensures file.failed == (old(file.failed) || ec == IoError)
  {
    written, ec := 0, NoError;
    var i := 0;
    assert Flatten(buffers[..0]) == [];
    while i < |buffers|
      invariant 0 <= i <= |buffers| && ec == NoError && file.failed == old(file.failed)
      invariant written == |Flatten(buffers[..i])| && file.content == old(file.content) + Flatten(buffers[..i])
    {
      assert buffers[..i + 1] == buffers[..i] + [buffers[i]];
      FlattenAppend(buffers[..i], buffers[i]);
      FlattenSplit(buffers, i + 1);
      var n;
      n, ec := file.Append(buffers[i]);
      written := written + n;
      if ec != NoError {
        return;
      }
      i := i + 1;
    }
    assert buffers[..i] == buffers;
  }

  lemma {:induction false} FlattenSplit(buffers: seq<seq<Octet>>, i: nat)
    requires i <= |buffers|
    ensures Flatten(buffers) == Flatten(buffers[..i]) + Flatten(buffers[i..])
  {
    if i == 0 {
      assert buffers[0..] == buffers && buffers[..0] == [];
    } else {
      FlattenSplit(buffers[1..], i - 1);
      assert buffers[1..][..i - 1] == buffers[..i][1..] && buffers[1..][i - 1..] == buffers[i..];
    }
  }

  // ---------------------------------------------------------------- the string body

  class StringBody {
    var text: array<Octet>
    /** A resize of the string threw. */
    var threw: bool

    constructor ()
      ensures fresh(text) && text.Length == 0 && !threw
    {
      text, threw := new Octet[0], false;
    }

    /** `resize`, which throws if the string would be too long or memory runs out. */
    method Resize(length: nat) returns (ok: bool)
      requires text.Length <= length
      modifies this
      ensures threw == (old(threw) || !ok)
      ensures if ok then fresh(text) && text.Length == length && text[..old(text.Length)] == old(text[..])
              else text == old(text)
    {
      ok := *;
      if !ok {
        threw := true;
        return;
      }
      var grown := new Octet[length];
      forall k | 0 <= k < text.Length {
        grown[k] := text[k];
      }
      text := grown;
    }

    /** `reader::put` of the string body: grows the string, then copies buffer by buffer. */
    method Put(buffers: seq<seq<Octet>>) returns (n: nat, ec: Error)
      modifies this
      ensures ec in {NoError, BufferOverflow} && n == if ec == NoError then |Flatten(buffers)| else 0
      ensures text[..] == old(text[..]) + Flatten(buffers)[..n]
      ensures text == old(text) || fresh(text)
      ensures threw == (old(threw) || ec == BufferOverflow)
    {
      var extra := |Flatten(buffers)|;
      var size := text.Length;
      ghost var before := text[..];
      var ok := Resize(size + extra);
      if !ok {
        return 0, BufferOverflow;
      }
      var grown := text;
      var dest := size;
      var i := 0;
      assert Flatten(buffers[..0]) == [];
      while i < |buffers|
        invariant 0 <= i <= |buffers| && dest == size + |Flatten(buffers[..i])|
        invariant text == grown && fresh(grown) && dest <= text.Length && threw == old(threw)
        invariant text[..dest] == before + Flatten(buffers[..i])
      {
        assert buffers[..i + 1] == buffers[..i] + [buffers[i]];
        FlattenAppend(buffers[..i], buffers[i]);
        FlattenSplit(buffers, i + 1);
        var b := buffers[i];
        forall k | 0 <= k < |b| {
          grown[dest + k] := b[k];
        }
        assert text[..dest + |b|] == before + Flatten(buffers[..i + 1]);
        dest := dest + |b|;
        i := i + 1;
      }
      assert buffers[..i] == buffers;
      return extra, NoError;
    }
  }

  /** A serializer's loop over `get` feeding a parser's `put`: whatever short reads the file
      returns, the string grows by exactly the first `fileSize` octets of the file. */
  method CopyFileToString(file: File, fileSize: nat, body: StringBody) returns (ec: Error)
    requires file.Valid() && file.pos == 0 && fileSize <= |file.content| && !file.failed && !body.threw
    modifies file`pos, file`failed, file`asked, body
    ensures ec in {NoError, IoError, BufferOverflow}
    ensures (ec == IoError <==> file.failed) && (ec == BufferOverflow <==> body.threw)
    ensures ec == NoError ==> body.text[..] == old(body.text[..]) + file.content[..fileSize]
    ensures exists n :: 0 <= n <= fileSize && body.text[..] == old(body.text[..]) + file.content[..n]
  {
    var wr := new Writer(file, fileSize);
    ghost var before := body.text[..];
    var more := true;
    ec := NoError;
    assert file.content[..0] == [];
    while more
      invariant wr.Valid() && fresh(wr) && wr.file == file && ec == NoError && !file.failed && !body.threw
      invariant wr.remain == fileSize - file.pos && (!more ==> wr.remain == 0)
      invariant body.text[..] == before + file.content[..file.pos]
      invariant body.text == old(body.text) || fresh(body.text)
      decreases wr.remain, more
    {
      ghost var pos0 := file.pos;
      var r;
      r, ec := wr.Get();
      if ec != NoError {
        return;
      }
      if r.None? {
        return;
      }
      var n;
      FlattenOne(r.value.0);
      n, ec := body.Put([r.value.0]);
      if ec != NoError {
        return;
      }
      more := r.value.1;
      assert file.content[..file.pos] == file.content[..pos0] + file.content[pos0..file.pos];
    }
  }
}
