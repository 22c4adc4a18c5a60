/** Reading a body of known length into a `basic_dynamic_body`: the parser presents slices, and what a
    put does not take it presents again.  Exactly when does that end, and how? */
module DynamicReading {
  import opened Octets
  import opened DynamicBody

  /** `size` octets are in the body and `left` are still to be taken. */
  datatype State = Reading(size: Size, left: Size) | Complete(size: Size) | Overflowed(size: Size)

  /** The parser may present any slice of what is left. */
  predicate CanPresent(s: State, n: Size) { s.Reading? && 0 < n <= s.left }

  function Present(s: State, max: Size, n: Size): (t: State)
    requires s.size <= max && CanPresent(s, n)
    ensures t.size <= max
  {
    OutcomeMeaning(s.size, max, n);
    var (k, ec) := Outcome(s.size, max, n);
    if ec != NoError then Overflowed(s.size)
    else if k == s.left then Complete(s.size + k)
    else Reading(s.size + k, s.left - k)
  }

  predicate Runs(s: State, max: Size, slices: seq<Size>)
    requires s.size <= max
    decreases |slices|
  {
    slices == [] || (CanPresent(s, slices[0]) && Runs(Present(s, max, slices[0]), max, slices[1..]))
  }

  function After(s: State, max: Size, slices: seq<Size>): State
    requires s.size <= max && Runs(s, max, slices)
    decreases |slices|
  {
    if slices == [] then s else After(Present(s, max, slices[0]), max, slices[1..])
  }

  // ---------------------------------------------------------------- how a reading ends

  lemma PresentMeaning(s: State, max: Size, n: Size)
    requires s.size <= max && CanPresent(s, n)
    ensures match Present(s, max, n)
            case Reading(size, left) => size + left == s.size + s.left && (left == s.left <==> s.size == max < n)
            case Complete(size) => size == s.size + s.left
            case Overflowed(_) => s.size + s.left > max
  {
    OutcomeMeaning(s.size, max, n);
    StallsExactlyWhenFull(s.size, max, n);
  }

  /** A reading that has ended is complete if the body has room for all of it, and ended with an
      overflow if not, whatever the slices; and while it goes on no octet gets lost. */
  lemma {:induction false} EndsByRoom(s: State, max: Size, slices: seq<Size>)
    requires s.size <= max && s.Reading? && Runs(s, max, slices)
    ensures match After(s, max, slices)
            case Reading(size, left) => size + left == s.size + s.left
            case Complete(size) => s.size + s.left <= max && size == s.size + s.left
            case Overflowed(_) => s.size + s.left > max
    decreases |slices|
  {
    if slices != [] {
      var t := Present(s, max, slices[0]);
      PresentMeaning(s, max, slices[0]);
      if t.Reading? {
        EndsByRoom(t, max, slices[1..]);
      } else {
        assert slices[1..] == [];
      }
    }
  }

  // ---------------------------------------------------------------- whether it ends at all

  /** Puts that are still possible when each of them takes something. */
  function Measure(s: State): nat { if s.Reading? then s.left + 1 else 0 }

  lemma {:induction false} AlwaysProgresses(s: State, max: Size, slices: seq<Size>)
    requires s.size <= max && Runs(s, max, slices)
    requires s.Reading? ==> s.size + s.left <= 2 * max
    ensures |slices| <= Measure(s)
    decreases |slices|
  {
    if slices != [] {
      PresentMeaning(s, max, slices[0]);
      AlwaysProgresses(Present(s, max, slices[0]), max, slices[1..]);
    }
  }

  /** A slice that is larger than the whole body may ever be keeps a reading from ending. */
  lemma {:induction false} MayGoOn(s: State, max: Size, m: nat) returns (slices: seq<Size>)
    requires s.size <= max && s.Reading? && s.size + s.left > 2 * max
    ensures |slices| == m && Runs(s, max, slices) && After(s, max, slices).Reading?
    decreases m
  {
    if m == 0 {
      slices := [];
    } else {
      var t := Present(s, max, s.left);
      OutcomeMeaning(s.size, max, s.left);
      PresentMeaning(s, max, s.left);
      var rest := MayGoOn(t, max, m - 1);
      slices := [s.left] + rest;
      assert slices[1..] == rest;
    }
  }

  ghost predicate BoundedBy(s: State, max: Size, bound: nat)
    requires s.size <= max
  {
    forall slices :: Runs(s, max, slices) ==> |slices| <= bound
  }

  /** Every reading ends, however the body is sliced, if and only if at most `max_size()` octets are
      left when the body is full.  Otherwise the parser may present the same slice for ever, of which
      each put takes nothing without an error. */
  lemma EndsIff(s: State, max: Size)
    requires s.size <= max && s.Reading?
    ensures (exists bound: nat :: BoundedBy(s, max, bound)) <==> s.size + s.left <= 2 * max
  {
    if s.size + s.left <= 2 * max {
      forall slices | Runs(s, max, slices) ensures |slices| <= Measure(s) {
        AlwaysProgresses(s, max, slices);
      }
      assert BoundedBy(s, max, Measure(s));
    } else {
      forall bound: nat ensures !BoundedBy(s, max, bound) {
        var slices := MayGoOn(s, max, bound + 1);
      }
    }
  }

  // ---------------------------------------------------------------- the object

  /** What the state of a reading says about the body and the position in the message. */
  ghost predicate Shows(s: State, body: DynamicBuffer, wire: seq<Octet>, pos: nat)
    reads body
  {
    && s.size == |body.octets| && pos <= |wire|
    && match s
       case Reading(_, left) => left == |wire| - pos && 0 < left
       case Complete(_) => pos == |wire|
       case Overflowed(_) => pos < |wire|
  }

  /** The parser presents `n` octets of what is left of the message. */
  method PutSlice(body: DynamicBuffer, wire: seq<Octet>, pos: nat, n: Size, ghost s: State) returns (k: nat)
    requires body.Valid() && |wire| < WORD && Shows(s, body, wire, pos) && CanPresent(s, n)
    modifies body
    ensures body.Valid() && Shows(Present(s, body.maxSize, n), body, wire, pos + k)
    ensures body.octets == old(body.octets) + wire[pos..pos + k]
  {
    var slice := wire[pos..pos + n];
    FlattenOne(slice);
    OutcomeMeaning(s.size, body.maxSize, n);
    var ec;
    k, ec := body.Put([slice]);
    assert slice[..k] == wire[pos..pos + k];
  }

  /** Reads the body of a message slice by slice. */
  method Read(body: DynamicBuffer, wire: seq<Octet>, slices: seq<Size>) returns (pos: nat)
    requires body.Valid() && 0 < |wire| < WORD
    requires Runs(Reading(|body.octets|, |wire|), body.maxSize, slices)
    modifies body
    ensures body.Valid() && pos <= |wire| && body.octets == old(body.octets) + wire[..pos]
    ensures Shows(After(Reading(|old(body.octets)|, |wire|), body.maxSize, slices), body, wire, pos)
  {
    ghost var s := Reading(|body.octets|, |wire|);
    ghost var end := After(s, body.maxSize, slices);
    pos := 0;
    var i := 0;
    while i < |slices|
      invariant 0 <= i <= |slices| && body.Valid() && Shows(s, body, wire, pos)
      invariant Runs(s, body.maxSize, slices[i..]) && After(s, body.maxSize, slices[i..]) == end
      invariant body.octets == old(body.octets) + wire[..pos]
    {
      var n := slices[i];
      assert slices[i..][0] == n && slices[i..][1..] == slices[i + 1..];
      var k := PutSlice(body, wire, pos, n, s);
      assert wire[..pos] + wire[pos..pos + k] == wire[..pos + k];
      s := Present(s, body.maxSize, n);
      pos := pos + k;
      i := i + 1;
    }
    assert slices[i..] == [];
  }
}
