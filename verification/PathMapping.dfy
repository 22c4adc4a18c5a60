/** From a request to the file it opens: `path_cat` and `handle_request` of
    example/advanced/server/advanced_server.cpp, on a platform whose separator is '/'. */
module PathMapping {

  datatype Method = Get | Head | Other

  /** How opening the file went. */
  datatype Opened = File(size: nat) | NoSuchFile | OpenFailed

  datatype Response = UnknownMethod | IllegalTarget | NotFound | ServerError | HeadOf(size: nat) | GetOf(size: nat)

  predicate HasDotDot(s: string) { exists i :: 0 <= i < |s| - 1 && s[i] == '.' && s[i + 1] == '.' }

  predicate Legal(target: string) { target != "" && target[0] == '/' && !HasDotDot(target) }

  function TrimRoot(base: string): string {
    if base != "" && base[|base| - 1] == '/' then base[..|base| - 1] else base
  }

  /** The path that `handle_request` opens for a legal target. */
  function PathFor(docRoot: string, target: string): string
    requires Legal(target)
  {
    (if docRoot == "" then target else TrimRoot(docRoot) + target)
    + if target[|target| - 1] == '/' then "index.html" else ""
  }

  method PathCat(base: string, path: string) returns (result: string)
    ensures result == if base == "" then path else TrimRoot(base) + path
    ensures base != "" && base[|base| - 1] == '/' ==> result == base[..|base| - 1] + path
    ensures base != "" && base[|base| - 1] != '/' ==> result == base + path
  {
    if base == "" {
      return path;
    }
    result := base;
    if result[|result| - 1] == '/' {
      result := result[..|result| - 1];
    }
    result := result + path;
  }

  /** `disk` is what the file system holds.  There is one response to every request; a file is
      opened only for a legal target, and then it is the one of `PathFor`. */
  method HandleRequest(docRoot: string, verb: Method, target: string, disk: string -> Opened)
    returns (res: Response, opens: seq<string>)
    ensures opens == if verb != Other && Legal(target) then [PathFor(docRoot, target)] else []
    ensures opens == [] <==>
              || verb == Other || target == "" || target[0] != '/'
              || exists i :: 0 <= i < |target| - 1 && target[i] == '.' && target[i + 1] == '.'
    ensures res == UnknownMethod <==> verb == Other
    ensures res == IllegalTarget <==> verb != Other && !Legal(target)
    ensures opens != [] ==>
              res == match disk(opens[0])
                     case NoSuchFile => NotFound
                     case OpenFailed => ServerError
                     case File(size) => if verb == Head then HeadOf(size) else GetOf(size)
  {
    opens := [];
    if verb != Get && verb != Head {
      return UnknownMethod, opens;
    }
    if target == "" || target[0] != '/' || HasDotDot(target) {
      return IllegalTarget, opens;
    }
    var path := PathCat(docRoot, target);
    if target[|target| - 1] == '/' {
      path := path + "index.html";
    }
    assert path == PathFor(docRoot, target);
    opens := [path];
    match disk(path) {
      case NoSuchFile => res := NotFound;
      case OpenFailed => res := ServerError;
      case File(size) => res := if verb == Head then HeadOf(size) else GetOf(size);
    }
  }

  // ---------------------------------------------------------------- segments

  /** The segments between the separators. */
  function Split(s: string): (segments: seq<string>)
    ensures segments != []
  {
    if s == "" then [""]
    else
      var rest := Split(s[1..]);
      if s[0] == '/' then [""] + rest else [[s[0]] + rest[0]] + rest[1..]
  }

  lemma {:induction false} SplitAtSeparator(a: string, b: string)
    ensures Split(a + ['/'] + b) == Split(a) + Split(b)
  {
    var whole := a + ['/'] + b;
    if a == "" {
      assert whole[1..] == b;
    } else {
      assert whole[1..] == a[1..] + ['/'] + b;
      SplitAtSeparator(a[1..], b);
      Rejoin(a[0], Split(a[1..]), Split(b));
      assert whole[0] == a[0];
    }
  }

  lemma Rejoin(c: char, x: seq<string>, y: seq<string>)
    requires x != []
    ensures [[c] + (x + y)[0]] + (x + y)[1..] == ([[c] + x[0]] + x[1..]) + y
    ensures [""] + (x + y) == ([""] + x) + y
  {
  }

  lemma {:induction false} FirstSegmentIsPrefix(s: string)
    ensures Split(s)[0] <= s
  {
    if s != "" {
      FirstSegmentIsPrefix(s[1..]);
    }
  }

  /** A path without two dots in a row has no segment that climbs. */
  lemma {:induction false} NoDotDotSegment(s: string, k: nat)
    requires !HasDotDot(s) && k < |Split(s)|
    ensures Split(s)[k] != ".."
  {
    if k == 0 {
      FirstSegmentIsPrefix(s);
    } else {
      assert forall i | 0 <= i < |s[1..]| :: s[1..][i] == s[i + 1];
      NoDotDotSegment(s[1..], if s[0] == '/' then k - 1 else k);
    }
  }

  /** The lexical resolution of dot segments, on top of what is resolved already. */
  function Resolve(stack: seq<string>, segments: seq<string>): seq<string>
    decreases |segments|
  {
    if segments == [] then stack
    else if segments[0] == "" || segments[0] == "." then Resolve(stack, segments[1..])
    else if segments[0] == ".." then Resolve(if stack == [] then [] else stack[..|stack| - 1], segments[1..])
    else Resolve(stack + [segments[0]], segments[1..])
  }

  lemma {:induction false} ResolveConcat(stack: seq<string>, a: seq<string>, b: seq<string>)
    ensures Resolve(stack, a + b) == Resolve(Resolve(stack, a), b)
    decreases |a|
  {
    if a == [] {
      assert a + b == b;
    } else {
      assert (a + b)[1..] == a[1..] + b;
      ResolveConcat(if a[0] == "" || a[0] == "." then stack
                    else if a[0] == ".." then (if stack == [] then [] else stack[..|stack| - 1])
                    else stack + [a[0]], a[1..], b);
    }
  }

  lemma {:induction false} ResolveOnlyDescends(stack: seq<string>, segments: seq<string>)
    requires forall i | 0 <= i < |segments| :: segments[i] != ".."
    ensures stack <= Resolve(stack, segments)
    decreases |segments|
  {
    if segments != [] {
      var next := if segments[0] == "" || segments[0] == "." then stack else stack + [segments[0]];
      ResolveOnlyDescends(next, segments[1..]);
    }
  }

  // ---------------------------------------------------------------- the main result

  lemma {:induction false} NoSeparator(s: string)
    requires '/' !in s
    ensures Split(s) == [s]
  {
    if s != "" {
      NoSeparator(s[1..]);
      assert [s[0]] + s[1..] == s;
    }
  }

  lemma LastSegment(s: string, last: string)
    requires s != "" && s[|s| - 1] == '/' && '/' !in last
    ensures Split(s + last) == Split(s)[..|Split(s)| - 1] + [last]
  {
    var t := s[..|s| - 1];
    assert t + ['/'] + "" == s && t + ['/'] + last == s + last;
    SplitAtSeparator(t, "");
    SplitAtSeparator(t, last);
    NoSeparator(last);
  }

  /** The segments that are appended to those of the document root: the target's, with index.html
      in place of the empty one after a final separator. */
  function Appended(target: string): seq<string>
    requires Legal(target)
  {
    var segments := Split(target[1..]);
    if target[|target| - 1] == '/' then segments[..|segments| - 1] + ["index.html"] else segments
  }

  lemma AppendedIsTail(target: string)
    requires Legal(target)
    ensures var last := if target[|target| - 1] == '/' then "index.html" else "";
            Split(target[1..] + last) == Appended(target)
  {
    var rest := target[1..];
    if target[|target| - 1] != '/' {
      assert rest + "" == rest;
    } else if rest == "" {
      assert rest + "index.html" == "index.html";
      NoSeparator("index.html");
    } else {
      LastSegment(rest, "index.html");
    }
  }

  lemma AppendedNeverClimbs(target: string)
    requires Legal(target)
    ensures forall i | 0 <= i < |Appended(target)| :: Appended(target)[i] != ".."
  {
    var rest := target[1..];
    assert !HasDotDot(rest) by {
      assert forall i | 0 <= i < |rest| :: rest[i] == target[i + 1];
    }
    forall i | 0 <= i < |Appended(target)| ensures Appended(target)[i] != ".." {
      NoDotDotSegment(rest, i);
    }
  }

  /** The segments of the document root, without an empty one at its end. */
  function RootSegments(docRoot: string): seq<string> {
    var segments := Split(docRoot);
    if 1 < |segments| && segments[|segments| - 1] == "" then segments[..|segments| - 1] else segments
  }

  lemma {:induction false} LastSegmentIsEmpty(s: string)
    requires s != ""
    ensures Split(s)[|Split(s)| - 1] == "" <==> s[|s| - 1] == '/'
    ensures s[|s| - 1] == '/' ==> 1 < |Split(s)|
  {
    if 1 < |s| {
      LastSegmentIsEmpty(s[1..]);
    } else {
      assert s[1..] == "";
    }
  }

  lemma TrimmedRoot(docRoot: string)
    requires docRoot != ""
    ensures Split(TrimRoot(docRoot)) == RootSegments(docRoot)
  {
    LastSegmentIsEmpty(docRoot);
    if docRoot[|docRoot| - 1] == '/' {
      var t := docRoot[..|docRoot| - 1];
      assert t + ['/'] + "" == docRoot;
      SplitAtSeparator(t, "");
    }
  }

  /** The path that is opened consists of the segments of the document root and the ones of the
      target, none of which climbs; so its lexical resolution never leaves the document root. */
  lemma StaysUnderRoot(docRoot: string, target: string)
    requires docRoot != "" && Legal(target)
    ensures Split(PathFor(docRoot, target)) == RootSegments(docRoot) + Appended(target)
    ensures forall k | 0 <= k <= |Appended(target)| ::
              Resolve([], RootSegments(docRoot)) <= Resolve([], RootSegments(docRoot) + Appended(target)[..k])
  {
    var root := RootSegments(docRoot);
    var last := if target[|target| - 1] == '/' then "index.html" else "";
    assert PathFor(docRoot, target) == TrimRoot(docRoot) + ['/'] + (target[1..] + last);
    SplitAtSeparator(TrimRoot(docRoot), target[1..] + last);
    TrimmedRoot(docRoot);
    AppendedIsTail(target);
    var appended := Appended(target);
    AppendedNeverClimbs(target);
    forall k | 0 <= k <= |appended| ensures Resolve([], root) <= Resolve([], root + appended[..k]) {
      ResolveConcat([], root, appended[..k]);
      ResolveOnlyDescends(Resolve([], root), appended[..k]);
    }
  }

  /** Without a document root the path is that of the target, from the root of the file system. */
  lemma WithoutRoot(target: string)
    requires Legal(target)
    ensures Split(PathFor("", target)) == [""] + Appended(target)
  {
    var last := if target[|target| - 1] == '/' then "index.html" else "";
    assert PathFor("", target) == "" + ['/'] + (target[1..] + last);
    SplitAtSeparator("", target[1..] + last);
    AppendedIsTail(target);
  }
}
