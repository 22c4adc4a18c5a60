/** Case-insensitive comparison of field names: include/beast/core/string.hpp and the `key_compare`
    of include/beast/http/fields.hpp. */
module NameOrder {

  /** A char that is signed, as on the usual platforms. */
  type Char = c: int | -128 <= c < 128

  /** The number of values of an unsigned int. */
  const UNSIGNED := 0x1_0000_0000

  /** `ascii_tolower`, with its conversion to unsigned and its wrapping subtraction. */
  function ToLower(c: Char): Char {
    if (c % UNSIGNED - 65) % UNSIGNED < 26 then
      assert c >= 0;
      c + 32
    else c
  }

  lemma ToLowerChangesOnlyCapitals(c: Char)
    ensures ToLower(c) == if 65 <= c <= 90 then c + 32 else c
  {
    if c < 0 {
      assert c % UNSIGNED == c + UNSIGNED;
    } else {
      assert c % UNSIGNED == c;
    }
  }

  function Lower(s: seq<Char>): seq<Char> {
    seq(|s|, i requires 0 <= i < |s| => ToLower(s[i]))
  }

  // ---------------------------------------------------------------- iequals

  /** The fast loop compares octets until two differ, and hands over to the slow loop, which
      compares them in lower case.  The slow loop loads a next pair before it tests whether there
      is one; that load is guarded here, since its result is not used. */
  method IEquals(lhs: seq<Char>, rhs: seq<Char>) returns (equal: bool)
    ensures equal <==> Lower(lhs) == Lower(rhs)
  {
    var n := |lhs|;
    if |rhs| != n {
      return false;
    }
    var p := 0;
    while n > 0
      invariant 0 <= n == |lhs| - p
      invariant lhs[..p] == rhs[..p]
    {
      n := n - 1;
      var a, b := lhs[p], rhs[p];
      p := p + 1;
      if a != b {
        while true
          invariant 0 <= n == |lhs| - p && 0 < p && a == lhs[p - 1] && b == rhs[p - 1]
          invariant forall i | 0 <= i < p - 1 :: ToLower(lhs[i]) == ToLower(rhs[i])
          decreases n
        {
          if ToLower(a) != ToLower(b) {
            assert Lower(lhs)[p - 1] != Lower(rhs)[p - 1];
            return false;
          }
          if n == 0 {
            return true;
          }
          a, b := lhs[p], rhs[p];
          p, n := p + 1, n - 1;
        }
      }
    }
    return true;
  }

  // ---------------------------------------------------------------- iless and key_compare

  /** std::lexicographical_compare, with the predicate of `iless`. */
  predicate ILess(lhs: seq<Char>, rhs: seq<Char>) {
    if lhs == [] || rhs == [] then lhs == [] && rhs != []
    else if ToLower(lhs[0]) < ToLower(rhs[0]) then true
    else if ToLower(rhs[0]) < ToLower(lhs[0]) then false
    else ILess(lhs[1..], rhs[1..])
  }

  /** What the container orders: fields by their names. */
  datatype Field = Field(name: seq<Char>)

  predicate StringFieldLess(lhs: seq<Char>, rhs: Field) {
    if |lhs| < |rhs.name| then true else if |lhs| > |rhs.name| then false else ILess(lhs, rhs.name)
  }

  predicate FieldStringLess(lhs: Field, rhs: seq<Char>) {
    if |lhs.name| < |rhs| then true else if |lhs.name| > |rhs| then false else ILess(lhs.name, rhs)
  }

  predicate FieldLess(lhs: Field, rhs: Field) {
    if |lhs.name| < |rhs.name| then true else if |lhs.name| > |rhs.name| then false else ILess(lhs.name, rhs.name)
  }

  /** `k` is where the lower-case strings first differ, with the smaller octet, or an end, on the left. */
  predicate SmallerAt(a: seq<Char>, b: seq<Char>, k: nat) {
    && k <= |a| && k < |b|
    && (forall i | 0 <= i < k :: ToLower(a[i]) == ToLower(b[i]))
    && (k < |a| ==> ToLower(a[k]) < ToLower(b[k]))
  }

  lemma SmallerAtTail(a: seq<Char>, b: seq<Char>, k: nat)
    requires a != [] && b != [] && ToLower(a[0]) == ToLower(b[0])
    ensures SmallerAt(a, b, k + 1) <==> SmallerAt(a[1..], b[1..], k)
  {
    if SmallerAt(a[1..], b[1..], k) {
      forall i | 0 <= i < k + 1 ensures ToLower(a[i]) == ToLower(b[i]) {
        if 0 < i {
          assert a[i] == a[1..][i - 1] && b[i] == b[1..][i - 1];
        }
      }
    }
    if SmallerAt(a, b, k + 1) {
      assert forall i | 0 <= i < k :: a[1..][i] == a[i + 1] && b[1..][i] == b[i + 1];
    }
  }

  /** `iless` holds exactly if the first octet that differs in lower case is the smaller one, or there
      is none on the left because that string ends first. */
  lemma {:induction false} ILessMeaning(a: seq<Char>, b: seq<Char>)
    ensures ILess(a, b) <==> exists k: nat :: SmallerAt(a, b, k)
  {
    if a == [] || b == [] {
      assert b != [] ==> SmallerAt([], b, 0);
    } else if ToLower(a[0]) == ToLower(b[0]) {
      ILessMeaning(a[1..], b[1..]);
      if ILess(a, b) {
        var k: nat :| SmallerAt(a[1..], b[1..], k);
        SmallerAtTail(a, b, k);
      } else {
        forall k: nat ensures !SmallerAt(a, b, k) {
          if 0 < k {
            SmallerAtTail(a, b, k - 1);
          }
        }
      }
    } else {
      assert SmallerAt(a, b, 0) <==> ToLower(a[0]) < ToLower(b[0]);
      assert forall k: nat | 0 < k :: SmallerAt(a, b, k) ==> ToLower(a[0]) == ToLower(b[0]);
    }
  }

  /** `key_compare` looks at the lengths first. */
  lemma KeyCompareMeaning(a: Field, b: Field)
    ensures FieldLess(a, b) <==>
              |a.name| < |b.name| || (|a.name| == |b.name| && exists k: nat :: SmallerAt(a.name, b.name, k))
  {
    ILessMeaning(a.name, b.name);
  }

  /** `iless` compares lower-case strings: exactly one of less, equal and greater. */
  lemma {:induction false} ILessIsTotal(a: seq<Char>, b: seq<Char>)
    ensures !ILess(a, b) && !ILess(b, a) <==> Lower(a) == Lower(b)
    ensures !(ILess(a, b) && ILess(b, a))
  {
    if a != [] && b != [] {
      ILessIsTotal(a[1..], b[1..]);
      assert Lower(a) == [ToLower(a[0])] + Lower(a[1..]);
      assert Lower(b) == [ToLower(b[0])] + Lower(b[1..]);
      assert Lower(a)[0] == ToLower(a[0]) && Lower(b)[0] == ToLower(b[0]);
      assert Lower(a)[1..] == Lower(a[1..]) && Lower(b)[1..] == Lower(b[1..]);
    } else {
      assert |Lower(a)| == |a| && |Lower(b)| == |b|;
    }
  }

  lemma {:induction false} ILessIsTransitive(a: seq<Char>, b: seq<Char>, c: seq<Char>)
    requires ILess(a, b) && ILess(b, c)
    ensures ILess(a, c)
  {
    if a != [] && ToLower(a[0]) == ToLower(b[0]) == ToLower(c[0]) {
      ILessIsTransitive(a[1..], b[1..], c[1..]);
    }
  }

  lemma {:induction false} ILessLooksAtLowerCase(a: seq<Char>, b: seq<Char>, c: seq<Char>)
    requires Lower(a) == Lower(b)
    ensures ILess(a, c) == ILess(b, c) && ILess(c, a) == ILess(c, b)
  {
    assert |Lower(a)| == |a| && |Lower(b)| == |b|;
    if a != [] && c != [] {
      assert ToLower(a[0]) == Lower(a)[0] && ToLower(b[0]) == Lower(b)[0];
      assert Lower(a[1..]) == Lower(a)[1..] && Lower(b[1..]) == Lower(b)[1..];
      ILessLooksAtLowerCase(a[1..], b[1..], c[1..]);
    }
  }

  /** The three overloads of `key_compare` agree, and are a strict weak order in which two fields
      are incomparable exactly when `iequals` holds of their names. */
  lemma KeyCompareIsStrictWeakOrder(a: Field, b: Field, c: Field)
    ensures StringFieldLess(a.name, b) == FieldStringLess(a, b.name) == FieldLess(a, b)
    ensures !FieldLess(a, b) && !FieldLess(b, a) <==> Lower(a.name) == Lower(b.name)
    ensures !(FieldLess(a, b) && FieldLess(b, a))
    ensures FieldLess(a, b) && FieldLess(b, c) ==> FieldLess(a, c)
    ensures Lower(a.name) == Lower(b.name) ==> FieldLess(a, c) == FieldLess(b, c) && FieldLess(c, a) == FieldLess(c, b)
  {
    assert |Lower(a.name)| == |a.name| && |Lower(b.name)| == |b.name|;
    ILessIsTotal(a.name, b.name);
    if ILess(a.name, b.name) && ILess(b.name, c.name) {
      ILessIsTransitive(a.name, b.name, c.name);
    }
    if Lower(a.name) == Lower(b.name) {
      ILessLooksAtLowerCase(a.name, b.name, c.name);
    }
  }
}
