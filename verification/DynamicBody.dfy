/** `basic_dynamic_body` of include/beast/http/basic_dynamic_body.hpp: an append that is bounded by
    `max_size()`, with the unsigned arithmetic of its capacity check. */
module DynamicBody {
  import opened Octets

  /** The values of a 64-bit std::size_t. */
  const WORD := 0x1_0000_0000_0000_0000

  type Size = n: int | 0 <= n < WORD witness 0

  function Minus(a: Size, b: Size): Size { (a - b) % WORD }

  /** What one put does with `n` octets when `size` of `max` are taken. */
  function Outcome(size: Size, max: Size, n: Size): (Size, Error) {
    if size > Minus(max, n) then (0, BufferOverflow)
    else (Min(n, Minus(max, size)) as Size, NoError)
  }

  /** The exact meaning of the check.  For a request of at most `max` octets it is the intended one:
      all of them if they fit, and otherwise an error.  A larger request makes the subtraction wrap
      around, so it is never refused: what fits is taken, and the caller has to present the rest again. */
  lemma OutcomeMeaning(size: Size, max: Size, n: Size)
    requires size <= max
    ensures var (k, ec) := Outcome(size, max, n);
            && (ec == BufferOverflow <==> n <= max && size + n > max)
            && (ec == NoError && k < n <==> n > max)
            && k == (if size + n <= max then n else if n <= max then 0 else max - size)
            && size + k <= max
  {
    if n > max {
      assert Minus(max, n) == max - n + WORD;
    }
  }

  /** So a put of something may take nothing and yet report no error, exactly when the body is full
      and the request is larger than the whole body may ever be. */
  lemma StallsExactlyWhenFull(size: Size, max: Size, n: Size)
    requires size <= max && 0 < n
    ensures Outcome(size, max, n) == (0, NoError) <==> size == max && n > max
  {
    OutcomeMeaning(size, max, n);
  }

  class DynamicBuffer {
    const maxSize: Size
    var octets: seq<Octet>

    ghost predicate Valid()
      reads this
    {
      |octets| <= maxSize
    }

    constructor (maxSize: Size)
      ensures Valid() && this.maxSize == maxSize && octets == []
    {
      this.maxSize, octets := maxSize, [];
    }

    /** `reader::put`: appends exactly the prefix whose length it returns. */
    method Put(buffers: seq<seq<Octet>>) returns (k: nat, ec: Error)
      requires Valid() && |Flatten(buffers)| < WORD
      modifies this
      ensures Valid()
      ensures (k, ec) == Outcome(|old(octets)|, maxSize, |Flatten(buffers)|)
      ensures k <= |Flatten(buffers)| && octets == old(octets) + Flatten(buffers)[..k]
    {
      var n: Size := |Flatten(buffers)|;
      var size: Size := |octets|;
      OutcomeMeaning(size, maxSize, n);
      if size > Minus(maxSize, n) {
        return 0, BufferOverflow;
      }
      k := Min(n, Minus(maxSize, size));
      octets := octets + Flatten(buffers)[..k];
      return k, NoError;
    }
  }

  // ---------------------------------------------------------------- sequences of puts

  /** The body after putting every input in turn, and what each put took. */
  function PutAll(body: seq<Octet>, max: Size, inputs: seq<seq<Octet>>): (seq<Octet>, seq<seq<Octet>>)
    requires |body| <= max && forall i | 0 <= i < |inputs| :: |inputs[i]| < WORD
    decreases |inputs|
  {
    if inputs == [] then (body, [])
    else
      OutcomeMeaning(|body|, max, |inputs[0]|);
      var taken := inputs[0][..Outcome(|body|, max, |inputs[0]|).0];
      var (rest, takens) := PutAll(body + taken, max, inputs[1..]);
      (rest, [taken] + takens)
  }

  /** However many puts there are, the body is what they took, in order, and stays within bounds;
      each took a prefix of its input; and as long as all inputs fit together they take everything. */
  lemma {:induction false} PutsAreBounded(body: seq<Octet>, max: Size, inputs: seq<seq<Octet>>)
    requires |body| <= max && forall i | 0 <= i < |inputs| :: |inputs[i]| < WORD
    ensures var (after, takens) := PutAll(body, max, inputs);
            && |after| <= max && after == body + Flatten(takens) && |takens| == |inputs|
            && (forall i | 0 <= i < |inputs| :: takens[i] <= inputs[i])
            && (|body| + |Flatten(inputs)| <= max ==> takens == inputs)
    decreases |inputs|
  {
    if inputs != [] {
      OutcomeMeaning(|body|, max, |inputs[0]|);
      var taken := inputs[0][..Outcome(|body|, max, |inputs[0]|).0];
      var (rest, takens) := PutAll(body + taken, max, inputs[1..]);
      PutsAreBounded(body + taken, max, inputs[1..]);
      assert ([taken] + takens)[1..] == takens;
      assert |body| + |inputs[0]| <= max ==> taken == inputs[0];
      assert body + taken + Flatten(takens) == body + Flatten([taken] + takens);
    }
  }
}
