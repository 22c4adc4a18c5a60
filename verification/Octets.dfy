/** Octets, buffer sequences and the errors that bodies report. */
module Octets {

  type Octet = x: int | 0 <= x < 256

  /** `IoError` stands for any error of a stream, of a file or of the parser. */
  datatype Error = NoError | NeedBuffer | BufferOverflow | EndOfChunk | BodyLimit | IoError

  datatype Option<T> = None | Some(value: T)

  function Flatten(buffers: seq<seq<Octet>>): seq<Octet> {
    if buffers == [] then [] else buffers[0] + Flatten(buffers[1..])
  }

  lemma FlattenOne(buffer: seq<Octet>)
    ensures Flatten([buffer]) == buffer
  {
    assert Flatten([buffer][1..]) == [];
  }

  function Min(a: nat, b: nat): nat { if a < b then a else b }

  lemma {:induction false} FlattenAppend(buffers: seq<seq<Octet>>, buffer: seq<Octet>)
    ensures Flatten(buffers + [buffer]) == Flatten(buffers) + buffer
  {
    if buffers == [] {
      FlattenOne(buffer);
      assert buffers + [buffer] == [buffer];
    } else {
      assert (buffers + [buffer])[1..] == buffers[1..] + [buffer];
      FlattenAppend(buffers[1..], buffer);
    }
  }
}
