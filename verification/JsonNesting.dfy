/** Nesting in JSON text: a walk over the characters that knows strings, escapes and brackets. Whatever the reader
    takes as a value is balanced, so no text it takes as an object ends in another object's text. */
module JsonNesting {
  import opened Wrappers
  import opened JsonText
  import opened JsonReading

  /** Inside a string or not, just behind a backslash or not, and how many brackets are open. */
  datatype Place = Place(quoted: bool, escaped: bool, depth: int)

  function Outside(d: int): Place { Place(false, false, d) }

  function Inside(d: int): Place { Place(true, false, d) }

  function Next(p: Place, c: char): Place {
    if p.escaped then p.(escaped := false)
    else if c == '\\' then p.(escaped := true)
    else if c == '"' then p.(quoted := !p.quoted)
    else if p.quoted then p
    else if c == '{' || c == '[' then p.(depth := p.depth + 1)
    else if c == '}' || c == ']' then p.(depth := p.depth - 1)
    else p
  }

  function Walk(p: Place, t: string): Place
    decreases |t|
  {
    if t == "" then p else Walk(Next(p, t[0]), t[1..])
  }

  lemma {:induction false} WalkAppend(p: Place, a: string, b: string)
    ensures Walk(p, a + b) == Walk(Walk(p, a), b)
    decreases |a|
  {
    if a == "" {
      assert a + b == b;
    } else {
      assert (a + b)[1..] == a[1..] + b;
      WalkAppend(Next(p, a[0]), a[1..], b);
    }
  }

  lemma WalkOne(p: Place, c: char)
    ensures Walk(p, [c]) == Next(p, c)
  {
    assert [c][1..] == "";
  }

  // ----- Text that stays where it starts -----

  /** Not below `d`, and behind a backslash only inside a string. */
  predicate AtLeast(q: Place, d: int) {
    q.depth >= d && (q.escaped ==> q.quoted)
  }

  /** The walk never goes below `d`. */
  ghost predicate Stays(p: Place, t: string, d: int) {
    forall k: nat :: k <= |t| ==> AtLeast(Walk(p, t[..k]), d)
  }

  /** Outside a string, the text leads back to where it starts and never below. */
  ghost predicate Balanced(t: string) {
    forall d: int {:trigger Outside(d)} :: Walk(Outside(d), t) == Outside(d) && Stays(Outside(d), t, d)
  }

  lemma StaysAppend(p: Place, a: string, b: string, d: int)
    requires Stays(p, a, d) && Stays(Walk(p, a), b, d)
    ensures Stays(p, a + b, d)
  {
    forall k: nat | k <= |a + b|
      ensures AtLeast(Walk(p, (a + b)[..k]), d)
    {
      if k <= |a| {
        assert (a + b)[..k] == a[..k];
      } else {
        assert (a + b)[..k] == a + b[..k - |a|];
        WalkAppend(p, a, b[..k - |a|]);
      }
    }
  }

  lemma StaysOne(p: Place, c: char, d: int)
    requires AtLeast(p, d) && AtLeast(Next(p, c), d)
    ensures Stays(p, [c], d)
  {
    WalkOne(p, c);
    forall k: nat | k <= 1
      ensures AtLeast(Walk(p, [c][..k]), d)
    {
      assert [c][..k] == if k == 0 then "" else [c];
    }
  }

  lemma StaysHigher(p: Place, t: string, d: int)
    requires Stays(p, t, d + 1)
    ensures Stays(p, t, d)
  {
    forall k: nat | k <= |t|
      ensures AtLeast(Walk(p, t[..k]), d)
    {
      assert AtLeast(Walk(p, t[..k]), d + 1);
    }
  }

  lemma BalancedAt(t: string, d: int)
    requires Balanced(t)
    ensures Walk(Outside(d), t) == Outside(d) && Stays(Outside(d), t, d)
  {}

  lemma BalancedAppend(a: string, b: string)
    requires Balanced(a) && Balanced(b)
    ensures Balanced(a + b)
  {
    forall d: int
      ensures Walk(Outside(d), a + b) == Outside(d) && Stays(Outside(d), a + b, d)
    {
      BalancedAt(a, d);
      BalancedAt(b, d);
      WalkAppend(Outside(d), a, b);
      StaysAppend(Outside(d), a, b, d);
    }
  }

  predicate Bland(c: char) {
    c != '\\' && c != '"' && c != '{' && c != '}' && c != '[' && c != ']'
  }

  lemma {:induction false} BlandWalk(p: Place, t: string)
    requires !p.escaped && forall i :: 0 <= i < |t| ==> Bland(t[i])
    ensures Walk(p, t) == p
    decreases |t|
  {
    if t != "" {
      BlandWalk(p, t[1..]);
    }
  }

  lemma BlandIsBalanced(t: string)
    requires forall i :: 0 <= i < |t| ==> Bland(t[i])
    ensures Balanced(t)
  {
    forall d: int
      ensures Walk(Outside(d), t) == Outside(d) && Stays(Outside(d), t, d)
    {
      BlandWalk(Outside(d), t);
      forall k: nat | k <= |t|
        ensures AtLeast(Walk(Outside(d), t[..k]), d)
      {
        BlandWalk(Outside(d), t[..k]);
      }
    }
  }

  // ----- Strings -----

  /** The inside of a string: nothing in it closes the string. */
  ghost predicate Enclosed(t: string, d: int) {
    Walk(Inside(d), t) == Inside(d) && Stays(Inside(d), t, d)
  }

  lemma EnclosedAppend(a: string, b: string, d: int)
    requires Enclosed(a, d) && Enclosed(b, d)
    ensures Enclosed(a + b, d)
  {
    WalkAppend(Inside(d), a, b);
    StaysAppend(Inside(d), a, b, d);
  }

  lemma EnclosedPair(c: char, d: int)
    ensures Enclosed(['\\', c], d)
  {
    var p := Inside(d);
    assert ['\\', c] == ['\\'] + [c];
    WalkOne(p, '\\');
    WalkOne(Next(p, '\\'), c);
    WalkAppend(p, ['\\'], [c]);
    StaysOne(p, '\\', d);
    StaysOne(Next(p, '\\'), c, d);
    StaysAppend(p, ['\\'], [c], d);
  }

  lemma {:induction false} HarmlessWalk(t: string, d: int)
    requires forall i :: 0 <= i < |t| ==> t[i] != '\\' && t[i] != '"'
    ensures Walk(Inside(d), t) == Inside(d)
    decreases |t|
  {
    if t != "" {
      HarmlessWalk(t[1..], d);
    }
  }

  lemma EnclosedHarmless(t: string, d: int)
    requires forall i :: 0 <= i < |t| ==> t[i] != '\\' && t[i] != '"'
    ensures Enclosed(t, d)
  {
    HarmlessWalk(t, d);
    forall k: nat | k <= |t|
      ensures AtLeast(Walk(Inside(d), t[..k]), d)
    {
      HarmlessWalk(t[..k], d);
    }
  }

  lemma QuotedAt(x: string, d: int)
    requires Enclosed(x, d)
    ensures Walk(Outside(d), "\"" + x + "\"") == Outside(d) && Stays(Outside(d), "\"" + x + "\"", d)
  {
    WalkOne(Outside(d), '"');
    WalkOne(Inside(d), '"');
    StaysOne(Outside(d), '"', d);
    StaysOne(Inside(d), '"', d);
    WalkAppend(Outside(d), "\"", x);
    StaysAppend(Outside(d), "\"", x, d);
    WalkAppend(Outside(d), "\"" + x, "\"");
    StaysAppend(Outside(d), "\"" + x, "\"", d);
  }

  // ----- What the reader takes -----

  /** `rest` is an end of `s`, and what comes before it is balanced. */
  ghost predicate Took(s: string, rest: string) {
    |rest| <= |s| && s[|s| - |rest|..] == rest && Balanced(s[..|s| - |rest|])
  }

  lemma TookNothing(s: string)
    ensures Took(s, s)
  {
    BlandIsBalanced("");
    assert s[..0] == "";
  }

  lemma TookTwice(s: string, t: string, rest: string)
    requires Took(s, t) && Took(t, rest)
    ensures Took(s, rest)
  {
    var n, m := |s| - |t|, |t| - |rest|;
    assert s[..n + m] == s[..n] + t[..m];
    BalancedAppend(s[..n], t[..m]);
  }

  lemma TookBland(s: string)
    requires s != "" && Bland(s[0])
    ensures Took(s, s[1..])
  {
    BlandIsBalanced(s[..1]);
  }

  lemma {:induction false} TookSpace(s: string)
    ensures Took(s, SkipSpace(s))
    decreases |s|
  {
    if s != "" && IsSpace(s[0]) {
      TookBland(s);
      TookSpace(s[1..]);
      TookTwice(s, s[1..], SkipSpace(s));
    } else {
      TookNothing(s);
    }
  }

  lemma TookWord(s: string, n: nat)
    requires n <= |s| && forall i :: 0 <= i < n ==> Bland(s[i])
    ensures Took(s, s[n..])
  {
    BlandIsBalanced(s[..n]);
  }

  lemma TookNat(s: string)
    requires ReadNat(s).Some?
    ensures Took(s, ReadNat(s).value.rest)
  {
    if s[0] == '0' {
      TookBland(s);
    } else {
      var n := DigitRun(s);
      assert forall i :: 0 <= i < n ==> s[i] == s[..n][i];
      TookWord(s, n);
    }
  }

  lemma TookNumber(s: string)
    requires ReadNumber(s).Some?
    ensures Took(s, ReadNumber(s).value.rest)
  {
    if Starts(s, '-') {
      TookBland(s);
      TookNat(s[1..]);
      TookTwice(s, s[1..], ReadNumber(s).value.rest);
    } else {
      TookNat(s);
    }
  }

  // ----- Strings -----

  /** The same inside a string. */
  ghost predicate TookInside(s: string, rest: string, d: int) {
    |rest| <= |s| && s[|s| - |rest|..] == rest && Enclosed(s[..|s| - |rest|], d)
  }

  lemma InsideTwice(s: string, t: string, rest: string, d: int)
    requires TookInside(s, t, d) && TookInside(t, rest, d)
    ensures TookInside(s, rest, d)
  {
    var n, m := |s| - |t|, |t| - |rest|;
    assert s[..n + m] == s[..n] + t[..m];
    EnclosedAppend(s[..n], t[..m], d);
  }

  lemma TookPair(s: string, d: int)
    requires |s| >= 2 && s[0] == '\\'
    ensures TookInside(s, s[2..], d)
  {
    EnclosedPair(s[1], d);
    assert s[..2] == ['\\', s[1]];
  }

  lemma TookHex(s: string, d: int)
    requires ReadHex4(s).Some?
    ensures TookInside(s, ReadHex4(s).value.rest, d)
  {
    EnclosedHarmless(s[..4], d);
  }

  lemma TookUnit(s: string, d: int)
    requires |s| >= 2 && s[0] == '\\' && s[1] == 'u' && ReadUnit(s[2..]).Some?
    ensures TookInside(s, ReadUnit(s[2..]).value.rest, d)
  {
    var t := s[2..];
    TookPair(s, d);
    TookHex(t, d);
    var u := ReadHex4(t).value;
    InsideTwice(s, t, u.rest, d);
    if 0xD800 <= u.value < 0xDC00 {
      TookPair(u.rest, d);
      TookHex(u.rest[2..], d);
      InsideTwice(u.rest, u.rest[2..], ReadHex4(u.rest[2..]).value.rest, d);
      InsideTwice(s, u.rest, ReadHex4(u.rest[2..]).value.rest, d);
    }
  }

  lemma TookEscaped(s: string, d: int)
    requires |s| >= 2 && s[0] == '\\' && ReadEscaped(s[1..]).Some?
    ensures TookInside(s, ReadEscaped(s[1..]).value.rest, d)
  {
    assert s[1..][1..] == s[2..];
    if s[1] == 'u' {
      TookUnit(s, d);
    } else {
      TookPair(s, d);
    }
  }

  lemma TookChar(s: string, d: int)
    requires ReadChar(s).Some? && !Starts(s, '"')
    ensures TookInside(s, ReadChar(s).value.rest, d)
  {
    if s[0] == '\\' {
      TookEscaped(s, d);
    } else {
      EnclosedHarmless(s[..1], d);
    }
  }

  /** The characters up to the closing quote. */
  lemma {:induction false} TookChars(s: string, d: int) returns (end: string)
    requires ReadChars(s).Some?
    ensures TookInside(s, end, d) && Starts(end, '"') && end[1..] == ReadChars(s).value.rest
    decreases |s|
  {
    if Starts(s, '"') {
      end := s;
      EnclosedHarmless("", d);
      assert s[..0] == "";
    } else {
      TookChar(s, d);
      var t := ReadChar(s).value.rest;
      end := TookChars(t, d);
      InsideTwice(s, t, end, d);
    }
  }

  lemma StringAt(s: string, d: int)
    requires ReadString(s).Some?
    ensures var rest := ReadString(s).value.rest;
      && |rest| <= |s| && s[|s| - |rest|..] == rest
      && Walk(Outside(d), s[..|s| - |rest|]) == Outside(d) && Stays(Outside(d), s[..|s| - |rest|], d)
  {
    var end := TookChars(s[1..], d);
    var x := s[1..][..|s[1..]| - |end|];
    QuotedAt(x, d);
    QuotedParts(s, x, end, ReadString(s).value.rest);
  }

  lemma TookString(s: string)
    requires ReadString(s).Some?
    ensures Took(s, ReadString(s).value.rest)
  {
    var rest := ReadString(s).value.rest;
    StringAt(s, 0);
    var t := s[..|s| - |rest|];
    forall d: int
      ensures Walk(Outside(d), t) == Outside(d) && Stays(Outside(d), t, d)
    {
      StringAt(s, d);
    }
  }

  lemma QuotedParts(s: string, x: string, end: string, rest: string)
    requires Starts(s, '"') && |end| <= |s[1..]| && s[1..][|s[1..]| - |end|..] == end
    requires Starts(end, '"') && end[1..] == rest && x == s[1..][..|s[1..]| - |end|]
    ensures |rest| <= |s| && s[|s| - |rest|..] == rest && s[..|s| - |rest|] == "\"" + x + "\""
  {
    assert s == "\"" + x + end && end == "\"" + rest;
  }

  // ----- Values -----

  lemma OpenedAt(open: char, x: string, d: int)
    requires Balanced(x) && (open == '{' || open == '[')
    ensures Walk(Outside(d), [open] + x) == Outside(d + 1) && Stays(Outside(d + 1), x, d + 1)
  {
    WalkOne(Outside(d), open);
    BalancedAt(x, d + 1);
    WalkAppend(Outside(d), [open], x);
  }

  lemma BracketedAt(open: char, x: string, close: char, d: int)
    requires Balanced(x) && (open == '{' || open == '[') && (close == '}' || close == ']')
    ensures Walk(Outside(d), [open] + x + [close]) == Outside(d)
    ensures Stays(Outside(d), [open] + x + [close], d)
  {
    OpenedAt(open, x, d);
    WalkOne(Outside(d), open);
    WalkOne(Outside(d + 1), close);
    StaysOne(Outside(d), open, d);
    StaysHigher(Outside(d + 1), x, d);
    StaysAppend(Outside(d), [open], x, d);
    StaysOne(Outside(d + 1), close, d);
    WalkAppend(Outside(d), [open] + x, [close]);
    StaysAppend(Outside(d), [open] + x, [close], d);
  }

  lemma BracketedIsBalanced(open: char, x: string, close: char)
    requires Balanced(x) && (open == '{' || open == '[') && (close == '}' || close == ']')
    ensures Balanced([open] + x + [close])
  {
    forall d: int
      ensures Walk(Outside(d), [open] + x + [close]) == Outside(d) && Stays(Outside(d), [open] + x + [close], d)
    {
      BracketedAt(open, x, close, d);
    }
  }

  /** Up to a closing bracket, which is taken too. */
  ghost predicate TookTo(s: string, c: char, rest: string) {
    |rest| < |s| && s[|s| - |rest| - 1] == c && s[|s| - |rest|..] == rest && Balanced(s[..|s| - |rest| - 1])
  }

  lemma TookThenTo(s: string, t: string, c: char, rest: string)
    requires Took(s, t) && TookTo(t, c, rest)
    ensures TookTo(s, c, rest)
  {
    var n, m := |s| - |t|, |t| - |rest| - 1;
    assert s[..n + m] == s[..n] + t[..m];
    assert s[n + m] == t[m];
    BalancedAppend(s[..n], t[..m]);
  }

  lemma ToHere(s: string, c: char)
    requires Starts(s, c)
    ensures TookTo(s, c, s[1..])
  {
    BlandIsBalanced("");
    assert s[..0] == "";
  }

  /** A bracket, what is inside it, and its end. */
  lemma TookBrackets(s: string, open: char, close: char, rest: string)
    requires Starts(s, open) && (open == '{' || open == '[') && (close == '}' || close == ']')
    requires TookTo(s[1..], close, rest)
    ensures Took(s, rest)
  {
    var t := s[1..];
    var x := t[..|t| - |rest| - 1];
    BracketedIsBalanced(open, x, close);
    assert s[..|s| - |rest|] == [open] + x + [close];
  }

  lemma {:induction false} TookValue(s: string)
    requires ReadValue(s).Some?
    ensures Took(s, ReadValue(s).value.rest)
    decreases |s|, 1
  {
    if Starts(s, '"') {
      TookString(s);
    } else if Starts(s, '[') {
      TookArray(s[1..]);
      TookBrackets(s, '[', ']', ReadValue(s).value.rest);
    } else if Starts(s, '{') {
      TookObject(s[1..]);
      TookBrackets(s, '{', '}', ReadValue(s).value.rest);
    } else if "null" <= s || "true" <= s {
      assert s[0] == s[..4][0] && s[1] == s[..4][1] && s[2] == s[..4][2] && s[3] == s[..4][3];
      TookWord(s, 4);
    } else if "false" <= s {
      TookWord(s, 5);
    } else {
      TookNumber(s);
    }
  }

  lemma {:induction false} TookArray(s: string)
    requires ReadArray(s).Some?
    ensures TookTo(s, ']', ReadArray(s).value.rest)
    decreases |s|, 3
  {
    if Starts(SkipSpace(s), ']') {
      TookSpace(s);
      ToHere(SkipSpace(s), ']');
      TookThenTo(s, SkipSpace(s), ']', ReadArray(s).value.rest);
    } else {
      TookItems(s);
    }
  }

  lemma {:induction false} TookItems(s: string)
    requires ReadItems(s).Some?
    ensures TookTo(s, ']', ReadItems(s).value.rest)
    decreases |s|, 2
  {
    var v := ReadValue(SkipSpace(s)).value;
    TookSpace(s);
    TookValue(SkipSpace(s));
    TookTwice(s, SkipSpace(s), v.rest);
    TookSpace(v.rest);
    var t := SkipSpace(v.rest);
    TookTwice(s, v.rest, t);
    if Starts(t, ']') {
      ToHere(t, ']');
      TookThenTo(s, t, ']', t[1..]);
    } else {
      TookBland(t);
      TookTwice(s, t, t[1..]);
      TookItems(t[1..]);
      TookThenTo(s, t[1..], ']', ReadItems(s).value.rest);
    }
  }

  lemma {:induction false} TookMember(s: string)
    requires ReadMember(s).Some?
    ensures Took(s, ReadMember(s).value.rest)
    decreases |s|, 2
  {
    var k := ReadString(SkipSpace(s)).value;
    TookSpace(s);
    TookString(SkipSpace(s));
    TookTwice(s, SkipSpace(s), k.rest);
    TookSpace(k.rest);
    var t := SkipSpace(k.rest);
    TookTwice(s, k.rest, t);
    TookBland(t);
    TookTwice(s, t, t[1..]);
    TookSpace(t[1..]);
    TookTwice(s, t[1..], SkipSpace(t[1..]));
    TookValue(SkipSpace(t[1..]));
    TookTwice(s, SkipSpace(t[1..]), ReadMember(s).value.rest);
  }

  lemma {:induction false} TookMembers(s: string)
    requires ReadMembers(s).Some?
    ensures TookTo(s, '}', ReadMembers(s).value.rest)
    decreases |s|, 3
  {
    var m := ReadMember(s).value;
    TookMember(s);
    TookSpace(m.rest);
    var t := SkipSpace(m.rest);
    TookTwice(s, m.rest, t);
    if Starts(t, '}') {
      ToHere(t, '}');
      TookThenTo(s, t, '}', t[1..]);
    } else {
      TookBland(t);
      TookTwice(s, t, t[1..]);
      TookMembers(t[1..]);
      TookThenTo(s, t[1..], '}', ReadMembers(s).value.rest);
    }
  }

  lemma {:induction false} TookObject(s: string)
    requires ReadObject(s).Some?
    ensures TookTo(s, '}', ReadObject(s).value.rest)
    decreases |s|, 4
  {
    if Starts(SkipSpace(s), '}') {
      TookSpace(s);
      ToHere(SkipSpace(s), '}');
      TookThenTo(s, SkipSpace(s), '}', ReadObject(s).value.rest);
    } else {
      TookMembers(s);
    }
  }

  // ----- No object ends in another -----

  /** Two walks that differ in being inside a string go on differing. */
  lemma {:induction false} WalksDiffer(p: Place, q: Place, t: string)
    requires p.escaped == q.escaped && p.quoted != q.quoted
    ensures Walk(p, t).quoted != Walk(q, t).quoted
    decreases |t|
  {
    if t != "" {
      WalksDiffer(Next(p, t[0]), Next(q, t[0]), t[1..]);
    }
  }

  /** Within an object's text, its own bracket is open. */
  lemma InsideBraces(x: string, k: nat)
    requires Balanced(x) && 0 < k < |"{" + x + "}"|
    ensures AtLeast(Walk(Outside(0), ("{" + x + "}")[..k]), 1)
  {
    OpenedAt('{', x, 0);
    WalkOne(Outside(0), '{');
    FrontOfObject(x, k);
    WalkAppend(Outside(0), "{", x[..k - 1]);
  }

  lemma FrontOfObject(x: string, k: nat)
    requires 0 < k < |"{" + x + "}"|
    ensures k - 1 <= |x| && ("{" + x + "}")[..k] == "{" + x[..k - 1]
  {}

  /** A text the reader takes as an object, without more behind it, is braces around something balanced. */
  lemma ObjectText(s: string) returns (x: string)
    requires Starts(s, '{') && ReadValue(s).Some? && ReadValue(s).value.rest == ""
    ensures Balanced(x) && s == "{" + x + "}"
  {
    TookObject(s[1..]);
    var t := s[1..];
    x := t[..|t| - 1];
    assert s == "{" + x + "}";
  }

  lemma EndOutside(q: Place, t: string)
    requires Balanced(t) && AtLeast(q, 1) && !q.quoted
    ensures Walk(q, t) != Outside(0)
  {
    BalancedAt(t, q.depth);
    assert q == Outside(q.depth);
  }

  lemma EndInside(q: Place, t: string)
    requires Balanced(t) && Starts(t, '{') && q.quoted
    ensures Walk(q, t).quoted
  {
    BalancedAt(t, 0);
    WalksDiffer(Next(q, '{'), Next(Outside(0), '{'), t[1..]);
  }

  lemma ObjectIsBraces(members: seq<Member>)
    ensures Balanced(Text(Obj(members))) && Starts(Text(Obj(members)), '{')
    ensures var t := Text(Obj(members)); t[|t| - 1] == '}'
  {
    var t := Text(Obj(members));
    assert t + "" == t;
    TextBack(Obj(members), "");
    TookValue(t);
    assert t[..|t|] == t;
  }

  lemma Ends(front: string, t: string)
    requires t != ""
    ensures (front + t)[|front + t| - 1] == t[|t| - 1]
  {}

  lemma {:induction false} OnlySpace(s: string)
    requires SkipSpace(s) == "" && s != ""
    ensures IsSpace(s[|s| - 1])
    decreases |s|
  {
    if |s| > 1 {
      OnlySpace(s[1..]);
    }
  }

  /** Nothing is left behind an object that ends in its own brace. */
  lemma NothingLeft(s: string)
    requires Starts(s, '{') && s[|s| - 1] == '}' && ReadJson(s).Some?
    ensures ReadValue(s).Some? && ReadValue(s).value.rest == ""
  {
    assert SkipSpace(s) == s;
    var rest := ReadValue(s).value.rest;
    TookValue(s);
    SameEnd(s, rest);
    if rest != "" {
      OnlySpace(rest);
    }
  }

  lemma SameEnd(s: string, rest: string)
    requires |rest| <= |s| && s[|s| - |rest|..] == rest
    ensures rest != "" ==> rest[|rest| - 1] == s[|s| - 1]
  {}

  /** Something that begins like an object, followed by an object's text, is not read at all. */
  lemma NoObjectEndsInAnother(front: string, last: seq<Member>)
    requires Starts(front, '{')
    ensures ReadJson(front + Text(Obj(last))).None?
  {
    var t := Text(Obj(last));
    var s := front + t;
    if ReadJson(s).Some? {
      ObjectIsBraces(last);
      Ends(front, t);
      assert s[0] == front[0];
      NothingLeft(s);
      var x := ObjectText(s);
      TwoObjects(front, t, x);
    }
  }

  lemma TwoObjects(front: string, t: string, x: string)
    requires front != "" && Starts(t, '{') && Balanced(t) && Balanced(x)
    ensures front + t != "{" + x + "}"
  {
    var s := "{" + x + "}";
    if front + t == s {
      var q := Walk(Outside(0), front);
      assert s[..|front|] == front;
      InsideBraces(x, |front|);
      WalkAppend(Outside(0), front, t);
      BracketedAt('{', x, '}', 0);
      if q.quoted {
        EndInside(q, t);
      } else {
        EndOutside(q, t);
      }
    }
  }
}
