// Removal of dot segments from URI paths (crates/htlk-analyzer/src/schema_resources.rs),
// section 5.2.4 of RFC 3986.

module DotSegments {

  predicate Bare(s: string) {
    '/' !in s
  }

  predicate IsDot(s: string) {
    s == "." || s == ".."
  }

  /** A path that is empty or starts with a slash. */
  predicate Rooted(s: string) {
    s == "" || s[0] == '/'
  }

  /** Where the segment starting at `from` ends. */
  function SegmentEnd(s: string, from: nat): (end: nat)
    requires from <= |s|
    ensures from <= end <= |s| && Bare(s[from..end]) && (end < |s| ==> s[end] == '/')
    decreases |s| - from
  {
    if from == |s| || s[from] == '/' then from else
      var end := SegmentEnd(s, from + 1);
      assert s[from..end] == [s[from]] + s[from + 1..end];
      end
  }

  /** The segments of a rooted path, without their slashes. */
  function Segments(s: string): seq<string>
    requires Rooted(s)
    decreases |s|
  {
    if s == "" then [] else
      var end := SegmentEnd(s, 1);
      [s[1..end]] + Segments(s[end..])
  }

  /** A path as pieces: segments with their slash, and possibly a bare first segment. */
  ghost predicate Pieces(stack: seq<string>) {
    forall i :: 0 <= i < |stack| ==> IsPiece(stack[i]) || (i == 0 && Bare(stack[0]) && stack[0] != "")
  }

  predicate IsPiece(s: string) {
    s != "" && s[0] == '/' && Bare(s[1..])
  }

  function Flat(stack: seq<string>): string {
    if stack == [] then "" else Flat(stack[..|stack| - 1]) + stack[|stack| - 1]
  }

  function Pop(stack: seq<string>): seq<string> {
    if stack == [] then [] else stack[..|stack| - 1]
  }

  /** The reference normaliser: a dot drops out, two dots drop the piece before. */
  function Normalised(stack: seq<string>, segments: seq<string>): seq<string>
    decreases |segments|
  {
    if segments == [] then stack
    else if segments[0] == "." then
      if |segments| == 1 then stack + ["/"] else Normalised(stack, segments[1..])
    else if segments[0] == ".." then
      if |segments| == 1 then Pop(stack) + ["/"] else Normalised(Pop(stack), segments[1..])
    else Normalised(stack + ["/" + segments[0]], segments[1..])
  }

  /** Leading dot segments of a path that is not rooted are dropped. */
  function Trimmed(s: string): string
    decreases |s|
  {
    if "../" <= s then Trimmed(s[3..])
    else if "./" <= s then Trimmed(s[2..])
    else if IsDot(s) then ""
    else s
  }

  /** The pieces of a path without dot segments. */
  function Normal(s: string): seq<string> {
    var t := Trimmed(s);
    if Rooted(t) then Normalised([], Segments(t)) else
      var end := SegmentEnd(t, 0);
      Normalised([t[..end]], Segments(t[end..]))
  }

  // ---- The buffer algorithm ----

  function LastSlash(s: string): (at: nat)
    ensures at <= |s|
  {
    if s == "" then 0 else if s[|s| - 1] == '/' then |s| - 1 else LastSlash(s[..|s| - 1])
  }

  lemma {:induction false} LastSlashAfter(a: string, b: string)
    requires Bare(b)
    ensures LastSlash(a + b) == LastSlash(a)
  {
    if b == "" {
      assert a + b == a;
    } else {
      assert (a + b)[..|a + b| - 1] == a + b[..|b| - 1];
      assert b[|b| - 1] in b;
      LastSlashAfter(a, b[..|b| - 1]);
    }
  }

  lemma LastSlashPiece(a: string, piece: string)
    requires IsPiece(piece)
    ensures LastSlash(a + piece) == |a|
  {
    assert a + piece == (a + "/") + piece[1..];
    LastSlashAfter(a + "/", piece[1..]);
  }

  /** Truncating at the last slash removes the last piece. */
  lemma TruncatePops(stack: seq<string>)
    requires Pieces(stack)
    ensures LastSlash(Flat(stack)) <= |Flat(stack)| && Flat(stack)[..LastSlash(Flat(stack))] == Flat(Pop(stack))
    ensures Pieces(Pop(stack))
  {
    if stack != [] {
      var last := stack[|stack| - 1];
      if IsPiece(last) {
        LastSlashPiece(Flat(Pop(stack)), last);
      } else {
        assert stack == [last] && Flat(Pop(stack)) == "" && "" + last == last;
        LastSlashAfter("", last);
      }
    }
  }

  lemma FlatPush(stack: seq<string>, piece: string)
    ensures Flat(stack + [piece]) == Flat(stack) + piece
  {
  }

  /** The segments of a rooted path one at a time. */
  lemma FirstSegment(s: string, end: nat)
    requires s != "" && s[0] == '/' && 1 <= end <= |s| && Bare(s[1..end]) && Rooted(s[end..])
    ensures Segments(s) == [s[1..end]] + Segments(s[end..])
  {
    EndUnique(s, 1, end);
  }

  lemma {:induction false} EndUnique(s: string, from: nat, end: nat)
    requires from <= end <= |s| && Bare(s[from..end]) && Rooted(s[end..])
    ensures SegmentEnd(s, from) == end
    decreases end - from
  {
  }

  /** What is still to be done from `input` leads to the same pieces. */
  ghost predicate Leads(stack: seq<string>, input: string, target: seq<string>) {
    Pieces(stack) &&
    if Rooted(input) then Normalised(stack, Segments(input)) == target
    else stack == [] && Normal(input) == target
  }

  lemma TrimStep(input: string, n: nat)
    requires (n == 3 && "../" <= input) || (n == 2 && "./" <= input) || (n == |input| && IsDot(input))
    ensures Trimmed(input) == Trimmed(input[n..])
  {
    if n == 2 && "./" <= input {
      assert input[1] == '/';
    } else if n == |input| && IsDot(input) {
      assert input[n..] == "";
    }
  }

  lemma StripLead(stack: seq<string>, input: string, target: seq<string>, n: nat)
    requires Leads(stack, input, target)
    requires (n == 3 && "../" <= input) || (n == 2 && "./" <= input) || (n == |input| && IsDot(input))
    ensures Leads(stack, input[n..], target)
  {
    var next := input[n..];
    TrimStep(input, n);
    if Rooted(input[n..]) {
      assert Trimmed(input[n..]) == input[n..];
    }
  }

  lemma DotDrops(stack: seq<string>, input: string, target: seq<string>)
    requires Leads(stack, input, target)
    ensures "/./" <= input ==> Leads(stack, input[2..], target)
    ensures input == "/." ==> Leads(stack, "/", target)
  {
    if "/./" <= input {
      FirstSegment(input, 2);
      assert input[1..2] == ".";
    } else if input == "/." {
      FirstSegment(input, 2);
      assert input[1..2] == ".";
      JustSlash(stack);
    }
  }

  lemma JustSlash(stack: seq<string>)
    ensures Normalised(stack, Segments("/")) == stack + ["/"]
  {
    FirstSegment("/", 1);
    assert "/"[1..1] == "" && "/"[1..] == "";
    assert "/" + "" == "/";
  }

  lemma DotsPop(stack: seq<string>, input: string, target: seq<string>)
    requires Leads(stack, input, target)
    ensures "/../" <= input ==> Leads(Pop(stack), input[3..], target)
    ensures input == "/.." ==> Leads(Pop(stack), "/", target)
  {
    if "/../" <= input {
      FirstSegment(input, 3);
      assert input[1..3] == "..";
    } else if input == "/.." {
      FirstSegment(input, 3);
      assert input[1..3] == "..";
      JustSlash(Pop(stack));
    }
  }

  lemma SegmentMoves(stack: seq<string>, input: string, target: seq<string>, end: nat)
    requires Leads(stack, input, target) && input != ""
    requires !("../" <= input) && !("./" <= input) && !IsDot(input)
    requires !("/./" <= input) && input != "/." && !("/../" <= input) && input != "/.."
    requires end == SegmentEnd(input, if input[0] == '/' then 1 else 0)
    ensures Leads(stack + [input[..end]], input[end..], target)
  {
    if input[0] == '/' {
      FirstSegment(input, end);
      NotDotSegment(input, end);
      assert "/" + input[1..end] == input[..end];
      assert input[..end][1..] == input[1..end];
    } else {
      assert Trimmed(input) == input;
      assert [] + [input[..end]] == [input[..end]];
    }
  }

  lemma NotDotSegment(input: string, end: nat)
    requires input != "" && input[0] == '/' && 1 <= end <= |input| && (end < |input| ==> input[end] == '/')
    requires !("/./" <= input) && input != "/." && !("/../" <= input) && input != "/.."
    ensures !IsDot(input[1..end])
  {
  }

  /** Builds the path without dot segments. */
  method RemoveDots(path: string) returns (output: string)
    ensures output == Flat(Normal(path))
  {
    var input := path;
    output := "";
    ghost var stack: seq<string> := [];
    while input != ""
      invariant Leads(stack, input, Normal(path)) && output == Flat(stack)
      decreases |input|
    {
      if "../" <= input {
        StripLead(stack, input, Normal(path), 3);
        input := input[3..];
      } else if "./" <= input {
        StripLead(stack, input, Normal(path), 2);
        input := input[2..];
      } else if "/./" <= input {
        DotDrops(stack, input, Normal(path));
        input := input[2..];
      } else if input == "/." {
        DotDrops(stack, input, Normal(path));
        input := "/";
      } else if "/../" <= input || input == "/.." {
        DotsPop(stack, input, Normal(path));
        TruncatePops(stack);
        input := if input == "/.." then "/" else input[3..];
        output := output[..LastSlash(output)];
        stack := Pop(stack);
      } else if input == "." || input == ".." {
        StripLead(stack, input, Normal(path), |input|);
        input := "";
      } else {
        var start := if input[0] == '/' then 1 else 0;
        var end := SegmentEnd(input, start);
        SegmentMoves(stack, input, Normal(path), end);
        FlatPush(stack, input[..end]);
        output := output + input[..end];
        stack := stack + [input[..end]];
        input := input[end..];
      }
    }
  }

  // ---- What the result is ----

  /** No piece is a dot segment. */
  ghost predicate Clean(stack: seq<string>) {
    forall i :: 0 <= i < |stack| ==>
      (IsPiece(stack[i]) && !IsDot(stack[i][1..])) || (i == 0 && Bare(stack[0]) && stack[0] != "" && !IsDot(stack[0]))
  }

  ghost predicate AllBare(segments: seq<string>) {
    forall i :: 0 <= i < |segments| ==> Bare(segments[i])
  }

  lemma {:induction false} SegmentsBare(s: string)
    requires Rooted(s)
    ensures AllBare(Segments(s)) && (Segments(s) == [] <==> s == "")
    decreases |s|
  {
    if s != "" {
      SegmentsBare(s[SegmentEnd(s, 1)..]);
    }
  }

  lemma {:induction false} NormalisedClean(stack: seq<string>, segments: seq<string>)
    requires Clean(stack) && AllBare(segments)
    ensures Clean(Normalised(stack, segments))
    ensures segments != [] ==> Normalised(stack, segments) != []
    decreases |segments|
  {
    if segments != [] {
      var next := if segments[0] == "." then stack else if segments[0] == ".." then Pop(stack)
        else stack + ["/" + segments[0]];
      assert Clean(next);
      if IsDot(segments[0]) && |segments| == 1 {
        assert Clean(next + ["/"]);
      } else {
        NormalisedClean(next, segments[1..]);
        NonEmptyStays(next, segments[1..]);
      }
    }
  }

  lemma {:induction false} NonEmptyStays(stack: seq<string>, segments: seq<string>)
    requires segments != [] || stack != []
    ensures Normalised(stack, segments) != []
    decreases |segments|
  {
    if segments != [] && !(IsDot(segments[0]) && |segments| == 1) {
      var next := if segments[0] == "." then stack else if segments[0] == ".." then Pop(stack)
        else stack + ["/" + segments[0]];
      NonEmptyStays(next, segments[1..]);
    }
  }

  ghost predicate AllSlashed(stack: seq<string>) {
    forall i :: 0 <= i < |stack| ==> IsPiece(stack[i])
  }

  lemma {:induction false} NormalisedSlashed(stack: seq<string>, segments: seq<string>)
    requires AllSlashed(stack) && AllBare(segments)
    ensures AllSlashed(Normalised(stack, segments))
    decreases |segments|
  {
    if segments != [] && !(IsDot(segments[0]) && |segments| == 1) {
      var next := if segments[0] == "." then stack else if segments[0] == ".." then Pop(stack)
        else stack + ["/" + segments[0]];
      assert ("/" + segments[0])[1..] == segments[0];
      NormalisedSlashed(next, segments[1..]);
    }
  }

  lemma FlatSnoc(front: seq<string>, piece: string)
    ensures Flat(front + [piece]) == Flat(front) + piece
  {
    assert (front + [piece])[..|front|] == front;
  }

  lemma {:induction false} FlatPrepend(piece: string, rest: seq<string>)
    ensures Flat([piece] + rest) == piece + Flat(rest)
  {
    if rest == [] {
      assert [piece] + rest == [piece] && [piece][..0] == [];
    } else {
      hide *;
      var front, last := rest[..|rest| - 1], rest[|rest| - 1];
      FlatPrepend(piece, front);
      FlatSnoc([piece] + front, last);
      FlatSnoc(front, last);
      assert [piece] + rest == [piece] + front + [last] && rest == front + [last];
    }
  }

  /** The segments of pieces are the pieces without their slashes. */
  function Tails(stack: seq<string>): (segments: seq<string>)
    requires AllSlashed(stack)
    ensures |segments| == |stack| && forall i :: 0 <= i < |stack| ==> segments[i] == stack[i][1..]
  {
    seq(|stack|, i requires 0 <= i < |stack| => stack[i][1..])
  }

  lemma {:induction false} SegmentsOfFlat(stack: seq<string>)
    requires AllSlashed(stack)
    ensures Rooted(Flat(stack)) && Segments(Flat(stack)) == Tails(stack)
  {
    if stack != [] {
      var piece, rest := stack[0], stack[1..];
      assert stack == [piece] + rest;
      SegmentsOfFlat(rest);
      FlatPrepend(piece, rest);
      var s := piece + Flat(rest);
      assert s[1..|piece|] == piece[1..] && s[|piece|..] == Flat(rest);
      FirstSegment(s, |piece|);
      assert Tails(stack) == [piece[1..]] + Tails(rest);
    }
  }

  lemma {:induction false} NothingToNormalise(before: seq<string>, stack: seq<string>)
    requires AllSlashed(stack) && Clean(before + stack)
    ensures Normalised(before, Tails(stack)) == before + stack
    decreases |stack|
  {
    if stack == [] {
      assert before + stack == before;
    } else {
      var piece, rest := stack[0], stack[1..];
      assert (before + stack)[|before|] == piece;
      assert (before + [piece]) + rest == before + stack;
      assert "/" + piece[1..] == piece;
      assert Tails(stack)[1..] == Tails(rest);
      NothingToNormaliseStep(before, stack);
      NothingToNormalise(before + [piece], rest);
    }
  }

  lemma NothingToNormaliseStep(before: seq<string>, stack: seq<string>)
    requires AllSlashed(stack) && Clean(before + stack) && stack != []
    ensures !IsDot(Tails(stack)[0])
  {
    assert (before + stack)[|before|] == stack[0];
    assert !Bare(stack[0]) by {
      assert stack[0][0] in stack[0];
    }
  }

  lemma NormalIsClean(s: string)
    ensures Clean(Normal(s))
    ensures s != "" && s[0] == '/' ==> Normal(s) != [] && AllSlashed(Normal(s))
  {
    var t := Trimmed(s);
    TrimmedLead(s);
    if Rooted(t) {
      SegmentsBare(t);
      NormalisedClean([], Segments(t));
      NormalisedSlashed([], Segments(t));
    } else {
      var end := SegmentEnd(t, 0);
      SegmentsBare(t[end..]);
      NormalisedClean([t[..end]], Segments(t[end..]));
    }
  }

  lemma {:induction false} TrimmedLead(s: string)
    ensures
      var t := Trimmed(s);
      && !("../" <= t) && !("./" <= t) && !IsDot(t)
      && (s != "" && s[0] == '/' ==> t == s)
      && (!Rooted(t) ==> !IsDot(t[..SegmentEnd(t, 0)]))
    decreases |s|
  {
    if "../" <= s {
      TrimmedLead(s[3..]);
    } else if "./" <= s {
      TrimmedLead(s[2..]);
    } else if !Rooted(s) && !IsDot(s) {
      var end := SegmentEnd(s, 0);
      var first := s[..end];
      assert |first| >= 1 ==> first[0] == s[0];
      assert |first| >= 2 ==> first[1] == s[1];
      assert first == s || s[end] == '/';
    }
  }

  /** A path without dot segments is left as it is. */
  lemma CleanIsFixed(stack: seq<string>)
    requires Clean(stack)
    ensures Normal(Flat(stack)) == stack
  {
    var s := Flat(stack);
    if AllSlashed(stack) {
      SegmentsOfFlat(stack);
      assert Trimmed(s) == s by {
        assert Rooted(s);
      }
      assert [] + stack == stack;
      NothingToNormalise([], stack);
    } else {
      BareFirst(stack);
      CleanBareIsFixed(stack[0], stack[1..]);
      assert stack == [stack[0]] + stack[1..];
    }
  }

  lemma CleanBareIsFixed(first: string, rest: seq<string>)
    requires Clean([first] + rest) && AllSlashed(rest) && Bare(first) && first != "" && !IsDot(first)
    ensures Normal(Flat([first] + rest)) == [first] + rest
  {
    var s := first + Flat(rest);
    FlatPrepend(first, rest);
    SegmentsOfFlat(rest);
    assert s[..|first|] == first && s[|first|..] == Flat(rest);
    BareHead(first, Flat(rest));
    NotTrimmed(s);
    NothingToNormalise([first], rest);
  }

  lemma BareHead(first: string, rest: string)
    requires Bare(first) && first != "" && Rooted(rest)
    ensures !Rooted(first + rest) && SegmentEnd(first + rest, 0) == |first|
  {
    var s := first + rest;
    assert s[0] == first[0] && first[0] in first;
    assert s[0..|first|] == first && s[|first|..] == rest;
    EndUnique(s, 0, |first|);
  }

  lemma BareFirst(stack: seq<string>)
    requires Clean(stack) && !AllSlashed(stack)
    ensures stack != [] && Bare(stack[0]) && stack[0] != "" && !IsDot(stack[0]) && AllSlashed(stack[1..])
  {
  }

  /** Only a leading dot segment is trimmed. */
  lemma TrimsDots(s: string)
    ensures !Rooted(s) && ("../" <= s || "./" <= s || IsDot(s)) ==> IsDot(s[..SegmentEnd(s, 0)])
  {
    if "../" <= s {
      assert s[0..2] == "..";
      EndUnique(s, 0, 2);
    } else if "./" <= s {
      assert s[0..1] == ".";
      EndUnique(s, 0, 1);
    } else if IsDot(s) {
      assert s[..|s|] == s;
      EndUnique(s, 0, |s|);
    }
  }

  lemma NotTrimmed(s: string)
    requires !Rooted(s) && !IsDot(s[..SegmentEnd(s, 0)])
    ensures Trimmed(s) == s
  {
    TrimsDots(s);
  }

  /** Normalising twice is normalising once. */
  lemma NormalTwice(s: string)
    ensures Normal(Flat(Normal(s))) == Normal(s)
  {
    NormalIsClean(s);
    CleanIsFixed(Normal(s));
  }

  /** On an absolute path the result is absolute, and none of its segments is a dot segment. */
  lemma AbsoluteResult(s: string)
    requires s != "" && s[0] == '/'
    ensures
      var out := Flat(Normal(s));
      && out != "" && out[0] == '/'
      && forall segment :: segment in Segments(out) ==> !IsDot(segment)
  {
    NormalIsClean(s);
    var stack := Normal(s);
    SegmentsOfFlat(stack);
    assert stack == [stack[0]] + stack[1..];
    FlatPrepend(stack[0], stack[1..]);
    forall segment | segment in Segments(Flat(stack))
      ensures !IsDot(segment)
    {
      var i :| 0 <= i < |stack| && Tails(stack)[i] == segment;
      assert IsPiece(stack[i]) && stack[i][0] in stack[i];
    }
  }
}
