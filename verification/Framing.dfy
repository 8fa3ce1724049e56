/** Bytes, and the newline framing both ends of the job channel rely on. */
module Framing {
  type Byte = b: int | 0 <= b < 256

  const LF: Byte := 10

  /** The position of the first `b`, as Python's `split(b, 1)` and Node's `indexOf` find it. */
  function IndexOf(s: seq<Byte>, b: Byte): (i: nat)
    requires b in s
    ensures i < |s| && s[i] == b && b !in s[..i]
  {
    if s[0] == b then 0 else 1 + IndexOf(s[1..], b)
  }

  /** The complete lines of a stream, without their newlines. */
  function Lines(s: seq<Byte>): seq<seq<Byte>>
    decreases |s|
  {
    if LF !in s then [] else
      var i := IndexOf(s, LF);
      [s[..i]] + Lines(s[i + 1..])
  }

  /** What follows the last newline. */
  function Tail(s: seq<Byte>): seq<Byte>
    decreases |s|
  {
    if LF !in s then s else Tail(s[IndexOf(s, LF) + 1..])
  }

  /** The stream that carries these lines. */
  function Join(lines: seq<seq<Byte>>): seq<Byte> {
    if lines == [] then [] else lines[0] + [LF] + Join(lines[1..])
  }

  function Concat(chunks: seq<seq<Byte>>): seq<Byte> {
    if chunks == [] then [] else chunks[0] + Concat(chunks[1..])
  }

  ghost predicate NewlineFree(lines: seq<seq<Byte>>) {
    forall i :: 0 <= i < |lines| ==> LF !in lines[i]
  }

  lemma {:induction false} IndexOfUnique(s: seq<Byte>, b: Byte, k: nat)
    requires k < |s| && s[k] == b && (forall j :: 0 <= j < k ==> s[j] != b)
    ensures IndexOf(s, b) == k
    decreases k
  {
    if k > 0 {
      IndexOfUnique(s[1..], b, k - 1);
    }
  }

  /** The first line of a stream that begins with a newline-free line is that line. */
  lemma FirstLine(line: seq<Byte>, rest: seq<Byte>)
    requires LF !in line
    ensures Lines(line + [LF] + rest) == [line] + Lines(rest)
    ensures Tail(line + [LF] + rest) == Tail(rest)
  {
    var s := line + [LF] + rest;
    assert s[|line|] == LF;
    forall j | 0 <= j < |line|
      ensures s[j] != LF
    {
      assert s[j] == line[j];
    }
    IndexOfUnique(s, LF, |line|);
    assert s[..|line|] == line && s[|line| + 1..] == rest;
  }

  /** Splitting loses nothing: the lines and the tail are the stream again. */
  lemma {:induction false} JoinLines(s: seq<Byte>)
    ensures Join(Lines(s)) + Tail(s) == s
    ensures NewlineFree(Lines(s)) && LF !in Tail(s)
    decreases |s|
  {
    if LF in s {
      var i := IndexOf(s, LF);
      var rest := s[i + 1..];
      JoinLines(rest);
      assert Lines(s)[1..] == Lines(rest);
      assert Join(Lines(s)) == s[..i] + [LF] + Join(Lines(rest));
      AppendAssociative(s[..i] + [LF], Join(Lines(rest)), Tail(rest));
      SplitAt(s, i);
    }
  }

  lemma SplitAt(s: seq<Byte>, i: nat)
    requires i < |s|
    ensures s[..i] + [s[i]] + s[i + 1..] == s
  {}

  lemma AppendAssociative(a: seq<Byte>, b: seq<Byte>, c: seq<Byte>)
    ensures (a + b) + c == a + (b + c)
  {}

  /** The framing is unambiguous: a stream has one reading as lines and a tail. */
  lemma {:induction false} LinesOfJoin(lines: seq<seq<Byte>>, tail: seq<Byte>)
    requires NewlineFree(lines) && LF !in tail
    ensures Lines(Join(lines) + tail) == lines
    ensures Tail(Join(lines) + tail) == tail
    decreases |lines|
  {
    if lines == [] {
      assert Join(lines) + tail == tail;
    } else {
      var rest := Join(lines[1..]) + tail;
      AppendAssociative(lines[0] + [LF], Join(lines[1..]), tail);
      LinesOfJoin(lines[1..], tail);
      FirstLine(lines[0], rest);
    }
  }

  lemma {:induction false} JoinAppend(a: seq<seq<Byte>>, b: seq<seq<Byte>>)
    ensures Join(a + b) == Join(a) + Join(b)
    decreases |a|
  {
    if a == [] {
      assert a + b == b;
    } else {
      assert (a + b)[1..] == a[1..] + b;
      JoinAppend(a[1..], b);
    }
  }

  lemma {:induction false} ConcatAppend(a: seq<seq<Byte>>, b: seq<seq<Byte>>)
    ensures Concat(a + b) == Concat(a) + Concat(b)
    decreases |a|
  {
    if a == [] {
      assert a + b == b;
    } else {
      assert (a + b)[1..] == a[1..] + b;
      ConcatAppend(a[1..], b);
    }
  }

  /** More bytes only add lines after the ones already complete. */
  lemma LinesAppend(s: seq<Byte>, more: seq<Byte>)
    ensures Lines(s + more) == Lines(s) + Lines(Tail(s) + more)
    ensures Tail(s + more) == Tail(Tail(s) + more)
  {
    JoinLines(s);
    AppendAssociative(Join(Lines(s)), Tail(s), more);
    LinesThenRest(Lines(s), Tail(s) + more);
  }

  lemma LinesThenRest(front: seq<seq<Byte>>, rest: seq<Byte>)
    requires NewlineFree(front)
    ensures Lines(Join(front) + rest) == front + Lines(rest)
    ensures Tail(Join(front) + rest) == Tail(rest)
  {
    JoinLines(rest);
    JoinAppend(front, Lines(rest));
    AppendAssociative(Join(front), Join(Lines(rest)), Tail(rest));
    LinesOfJoin(front + Lines(rest), Tail(rest));
  }

  /** If one stream of lines continues another, its first lines are the other's, and what is left is the
      stream of the remaining lines. */
  lemma PrefixOfJoin(all: seq<seq<Byte>>, front: seq<seq<Byte>>, rest: seq<Byte>)
    requires NewlineFree(all) && NewlineFree(front)
    requires Join(all) == Join(front) + rest
    ensures |front| <= |all| && front == all[..|front|]
    ensures rest == Join(all[|front|..])
  {
    LinesOfJoin(all, []);
    assert Join(all) + [] == Join(all);
    LinesThenRest(front, rest);
    assert all == front + Lines(rest);
    assert all[|front|..] == Lines(rest);
    JoinLines(rest);
    assert Join(Lines(rest)) + [] == Join(Lines(rest));
  }

  lemma JoinHasNewline(lines: seq<seq<Byte>>)
    requires lines != []
    ensures LF in Join(lines)
  {
    assert Join(lines)[|lines[0]|] == LF;
  }
}
