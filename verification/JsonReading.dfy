/** A JSON reader by the grammar of RFC 8259, and what it says of the text that is written here: it reads every value
    back. */
module JsonReading {
  import opened Wrappers
  import opened JsonText

  /** What has been read, and what follows it. */
  datatype Read<T> = Read(value: T, rest: string)

  // ----- The grammar: space and words, sections 2 and 3 -----

  predicate IsSpace(c: char) {
    c == ' ' || c == '\t' || c == '\n' || c == '\r'
  }

  function SkipSpace(s: string): (t: string)
    ensures |t| <= |s|
  {
    if s != "" && IsSpace(s[0]) then SkipSpace(s[1..]) else s
  }

  predicate Starts(s: string, c: char) {
    s != "" && s[0] == c
  }

  // ----- Numbers, section 6: integers only -----

  predicate IsDigit(c: char) {
    '0' <= c <= '9'
  }

  function DigitRun(s: string): (n: nat)
    ensures n <= |s| && AllDigits(s[..n]) && (n < |s| ==> !IsDigit(s[n]))
  {
    if s != "" && IsDigit(s[0]) then 1 + DigitRun(s[1..]) else 0
  }

  /** Zero, or digits that do not begin with zero. */
  function ReadNat(s: string): (r: Option<Read<nat>>)
    ensures r.Some? ==> |r.value.rest| < |s|
  {
    if s == "" || !IsDigit(s[0]) then None
    else if s[0] == '0' then Some(Read(0, s[1..]))
    else Some(Read(ValueOf(s[..DigitRun(s)]), s[DigitRun(s)..]))
  }

  /** A fraction or an exponent makes it another kind of number, which is not read. */
  function ReadNumber(s: string): (r: Option<Read<Json>>)
    ensures r.Some? ==> |r.value.rest| < |s|
  {
    var digits := if Starts(s, '-') then s[1..] else s;
    match ReadNat(digits)
    case None => None
    case Some(n) =>
      if n.rest != "" && n.rest[0] in {'.', 'e', 'E'} then None
      else Some(Read(Num(if Starts(s, '-') then -(n.value as int) else n.value), n.rest))
  }

  // ----- Strings, section 7 -----

  function HexValue(c: char): (v: Option<nat>)
    ensures v.Some? ==> v.value < 16
  {
    if '0' <= c <= '9' then Some((c - '0') as nat)
    else if 'a' <= c <= 'f' then Some(10 + (c - 'a') as nat)
    else if 'A' <= c <= 'F' then Some(10 + (c - 'A') as nat)
    else None
  }

  function ReadHex4(s: string): (r: Option<Read<nat>>)
    ensures r.Some? ==> r.value.value < 0x10000 && |r.value.rest| < |s|
  {
    if |s| < 4 then None
    else
      match (HexValue(s[0]), HexValue(s[1]), HexValue(s[2]), HexValue(s[3]))
      case (Some(a), Some(b), Some(c), Some(d)) => Some(Read(((a * 16 + b) * 16 + c) * 16 + d, s[4..]))
      case _ => None
  }

  /** What follows a backslash and a `u`. A character beyond the basic plane is written as a surrogate pair; a
      surrogate alone is no character. */
  function ReadUnit(s: string): (r: Option<Read<char>>)
    ensures r.Some? ==> |r.value.rest| < |s|
  {
    match ReadHex4(s)
    case None => None
    case Some(n) =>
      if n.value < 0xD800 || n.value >= 0xE000 then Some(Read(n.value as char, n.rest))
      else if n.value >= 0xDC00 || !("\\u" <= n.rest) then None
      else
        match ReadHex4(n.rest[2..])
        case None => None
        case Some(m) =>
          if !(0xDC00 <= m.value < 0xE000) then None
          else Some(Read((0x10000 + (n.value - 0xD800) * 0x400 + (m.value - 0xDC00)) as char, m.rest))
  }

  function ReadEscaped(s: string): (r: Option<Read<char>>)
    ensures r.Some? ==> |r.value.rest| < |s|
  {
    if s == "" then None
    else
      match s[0]
      case '"' => Some(Read('"', s[1..]))
      case '\\' => Some(Read('\\', s[1..]))
      case '/' => Some(Read('/', s[1..]))
      case 'b' => Some(Read('\U{8}', s[1..]))
      case 'f' => Some(Read('\U{C}', s[1..]))
      case 'n' => Some(Read('\n', s[1..]))
      case 'r' => Some(Read('\r', s[1..]))
      case 't' => Some(Read('\t', s[1..]))
      case 'u' => ReadUnit(s[1..])
      case _ => None
  }

  /** One character inside a string. Control characters have to be escaped. */
  function ReadChar(s: string): (r: Option<Read<char>>)
    ensures r.Some? ==> |r.value.rest| < |s|
  {
    if s == "" then None
    else if s[0] == '\\' then ReadEscaped(s[1..])
    else if s[0] < ' ' then None
    else Some(Read(s[0], s[1..]))
  }

  /** From behind the opening quote. */
  function ReadChars(s: string): (r: Option<Read<string>>)
    ensures r.Some? ==> |r.value.rest| < |s|
    decreases |s|
  {
    if Starts(s, '"') then Some(Read("", s[1..]))
    else
      match ReadChar(s)
      case None => None
      case Some(c) =>
        match ReadChars(c.rest)
        case None => None
        case Some(more) => Some(Read([c.value] + more.value, more.rest))
  }

  function ReadString(s: string): (r: Option<Read<string>>)
    ensures r.Some? ==> |r.value.rest| < |s|
  {
    if Starts(s, '"') then ReadChars(s[1..]) else None
  }

  // ----- Values, arrays and objects, sections 3 to 5 -----

  function ReadValue(s: string): (r: Option<Read<Json>>)
    ensures r.Some? ==> |r.value.rest| < |s|
    decreases |s|, 1
  {
    if Starts(s, '"') then
      match ReadString(s)
      case None => None
      case Some(t) => Some(Read(Str(t.value), t.rest))
    else if Starts(s, '[') then ReadArray(s[1..])
    else if Starts(s, '{') then ReadObject(s[1..])
    else if "null" <= s then Some(Read(Null, s[4..]))
    else if "true" <= s then Some(Read(Bool(true), s[4..]))
    else if "false" <= s then Some(Read(Bool(false), s[5..]))
    else ReadNumber(s)
  }

  /** From behind the opening bracket. */
  function ReadArray(s: string): (r: Option<Read<Json>>)
    ensures r.Some? ==> |r.value.rest| < |s|
    decreases |s|, 3
  {
    if Starts(SkipSpace(s), ']') then Some(Read(Arr([]), SkipSpace(s)[1..]))
    else
      match ReadItems(s)
      case None => None
      case Some(items) => Some(Read(Arr(items.value), items.rest))
  }

  /** One item and, after each comma, another. */
  function ReadItems(s: string): (r: Option<Read<seq<Json>>>)
    ensures r.Some? ==> |r.value.rest| < |s|
    decreases |s|, 2
  {
    match ReadValue(SkipSpace(s))
    case None => None
    case Some(v) =>
      var t := SkipSpace(v.rest);
      if Starts(t, ']') then Some(Read([v.value], t[1..]))
      else if !Starts(t, ',') then None
      else
        match ReadItems(t[1..])
        case None => None
        case Some(more) => Some(Read([v.value] + more.value, more.rest))
  }

  function ReadMember(s: string): (r: Option<Read<Member>>)
    ensures r.Some? ==> |r.value.rest| < |s|
    decreases |s|, 2
  {
    match ReadString(SkipSpace(s))
    case None => None
    case Some(k) =>
      var t := SkipSpace(k.rest);
      if !Starts(t, ':') then None
      else
        match ReadValue(SkipSpace(t[1..]))
        case None => None
        case Some(v) => Some(Read(Member(k.value, v.value), v.rest))
  }

  function ReadMembers(s: string): (r: Option<Read<seq<Member>>>)
    ensures r.Some? ==> |r.value.rest| < |s|
    decreases |s|, 3
  {
    match ReadMember(s)
    case None => None
    case Some(m) =>
      var t := SkipSpace(m.rest);
      if Starts(t, '}') then Some(Read([m.value], t[1..]))
      else if !Starts(t, ',') then None
      else
        match ReadMembers(t[1..])
        case None => None
        case Some(more) => Some(Read([m.value] + more.value, more.rest))
  }

  /** From behind the opening brace. */
  function ReadObject(s: string): (r: Option<Read<Json>>)
    ensures r.Some? ==> |r.value.rest| < |s|
    decreases |s|, 4
  {
    if Starts(SkipSpace(s), '}') then Some(Read(Obj([]), SkipSpace(s)[1..]))
    else
      match ReadMembers(s)
      case None => None
      case Some(members) => Some(Read(Obj(members.value), members.rest))
  }

  /** A JSON text: one value, with space around it. */
  function ReadJson(s: string): Option<Json> {
    match ReadValue(SkipSpace(s))
    case None => None
    case Some(v) => if SkipSpace(v.rest) == "" then Some(v.value) else None
  }

  // ----- Strings are read back -----

  lemma Assoc(a: string, b: string, c: string)
    ensures (a + b) + c == a + (b + c)
  {}

  lemma HexBack(n: nat)
    requires n < 16
    ensures HexValue(HexDigit(n)) == Some(n)
  {}

  lemma HexSum(n: nat)
    requires n < 0x10000
    ensures n / 4096 < 16 && n == ((n / 4096 * 16 + n / 256 % 16) * 16 + n / 16 % 16) * 16 + n % 16
  {
    assert n / 4096 == n / 256 / 16 && n / 256 == n / 16 / 16;
  }

  lemma Hex4Back(n: nat, x: string)
    requires n < 0x10000
    ensures ReadHex4(Hex4(n) + x) == Some(Read(n, x))
  {
    HexSum(n);
    HexBack(n / 4096);
    HexBack(n / 256 % 16);
    HexBack(n / 16 % 16);
    HexBack(n % 16);
    var s := Hex4(n) + x;
    assert s[0] == Hex4(n)[0] && s[1] == Hex4(n)[1] && s[2] == Hex4(n)[2] && s[3] == Hex4(n)[3];
    assert s[4..] == x;
  }

  /** The unit after `\u`: the character itself, or the high surrogate. */
  function Unit(c: char): (n: nat)
    ensures n < 0x10000
    ensures c as int < 0x10000 ==> n == c as int && !(0xD800 <= n < 0xE000)
    ensures c as int >= 0x10000 ==> 0xD800 <= n < 0xDC00
  {
    if c as int < 0x10000 then c as int else 0xD800 + (c as int - 0x10000) / 0x400
  }

  function LowUnit(c: char): (n: nat)
    requires c as int >= 0x10000
    ensures 0xDC00 <= n < 0xE000
  {
    0xDC00 + (c as int - 0x10000) % 0x400
  }

  lemma PairValue(c: char)
    requires c as int >= 0x10000
    ensures c as int == 0x10000 + (Unit(c) - 0xD800) * 0x400 + (LowUnit(c) - 0xDC00)
  {}

  predicate Plain(c: char) {
    ' ' <= c <= '~' && c != '"' && c != '\\'
  }

  predicate Short(c: char) {
    c == '"' || c == '\\' || c == '\n' || c == '\r' || c == '\t' || c == '\U{8}' || c == '\U{C}'
  }

  /** The four forms an escaped character takes, told apart by what they start with. */
  lemma EscapeForms(c: char)
    ensures Plain(c) ==> Escape(c) == [c]
    ensures Short(c) ==> |Escape(c)| == 2 && Escape(c)[0] == '\\' && Escape(c)[1] != 'u'
    ensures !Plain(c) && !Short(c) && c as int < 0x10000 ==> Escape(c) == "\\u" + Hex4(Unit(c))
    ensures !Plain(c) && !Short(c) && c as int >= 0x10000 ==>
      Escape(c) == "\\u" + Hex4(Unit(c)) + "\\u" + Hex4(0xDC00 + (c as int - 0x10000) % 0x400)
  {}

  lemma ShortBack(c: char, x: string)
    requires Short(c)
    ensures ReadChar(Escape(c) + x) == Some(Read(c, x))
  {
    var s := Escape(c) + x;
    assert s[0] == Escape(c)[0] && s[1..][0] == Escape(c)[1] && s[1..][1..] == x;
  }

  lemma UnitBack(c: char, x: string)
    requires !Plain(c) && !Short(c) && c as int < 0x10000
    ensures ReadChar(Escape(c) + x) == Some(Read(c, x))
  {
    EscapeForms(c);
    Hex4Back(Unit(c), x);
    AfterTwo(Hex4(Unit(c)), x);
  }

  lemma AfterTwo(a: string, x: string)
    ensures var s := "\\u" + a + x;
      s != "" && s[0] == '\\' && s[1..] != "" && s[1..][0] == 'u' && s[1..][1..] == a + x
      && "\\u" <= s && s[2..] == a + x
  {}

  lemma PairBack(c: char, x: string)
    requires !Plain(c) && c as int >= 0x10000
    ensures ReadChar(Escape(c) + x) == Some(Read(c, x))
  {
    var a, b := Hex4(Unit(c)), Hex4(LowUnit(c));
    EscapeForms(c);
    PairText(a, b, x);
    Hex4Back(Unit(c), "\\u" + b + x);
    AfterTwo(b, x);
    Hex4Back(LowUnit(c), x);
    AfterTwo(a, "\\u" + b + x);
    PairValue(c);
  }

  lemma PairText(a: string, b: string, x: string)
    ensures "\\u" + a + "\\u" + b + x == "\\u" + a + ("\\u" + b + x)
  {}

  /** Every character is read back. */
  lemma CharBack(c: char, x: string)
    ensures ReadChar(Escape(c) + x) == Some(Read(c, x)) && !Starts(Escape(c) + x, '"')
  {
    EscapeForms(c);
    if Plain(c) {
      assert ([c] + x)[1..] == x;
    } else if Short(c) {
      ShortBack(c, x);
    } else if c as int < 0x10000 {
      UnitBack(c, x);
    } else {
      PairBack(c, x);
    }
  }

  lemma {:induction false} CharsBack(s: string, x: string)
    ensures ReadChars(EscapeAll(s) + ("\"" + x)) == Some(Read(s, x))
    decreases |s|
  {
    if s == "" {
      assert "" + ("\"" + x) == "\"" + x && ("\"" + x)[1..] == x;
    } else {
      var more := EscapeAll(s[1..]) + ("\"" + x);
      Assoc(Escape(s[0]), EscapeAll(s[1..]), "\"" + x);
      CharBack(s[0], more);
      CharsBack(s[1..], x);
      assert s == [s[0]] + s[1..];
    }
  }

  lemma QuoteText(s: string, x: string)
    ensures var t := Quote(s) + x; t[0] == '"' && t[1..] == EscapeAll(s) + ("\"" + x)
  {
    Quoted(EscapeAll(s), x);
  }

  lemma Quoted(e: string, x: string)
    ensures var t := ("\"" + e + "\"") + x; t[0] == '"' && t[1..] == e + ("\"" + x)
  {}

  /** Every string is read back, whatever follows it. */
  lemma StringBack(s: string, x: string)
    ensures ReadString(Quote(s) + x) == Some(Read(s, x))
  {
    CharsBack(s, x);
    QuoteText(s, x);
  }

  // ----- Numbers are read back -----

  /** What may follow a value: the end, a comma or a closing bracket. */
  predicate Delimited(x: string) {
    x == "" || x[0] == ',' || x[0] == ']' || x[0] == '}'
  }

  predicate NoDigitFirst(x: string) {
    x == "" || !IsDigit(x[0])
  }

  lemma {:induction false} RunOfDigits(a: string, x: string)
    requires AllDigits(a) && NoDigitFirst(x)
    ensures DigitRun(a + x) == |a|
    decreases |a|
  {
    if a == "" {
      assert a + x == x;
    } else {
      assert (a + x)[1..] == a[1..] + x;
      RunOfDigits(a[1..], x);
    }
  }

  lemma {:induction false} DigitsStart(n: nat)
    ensures Digits(n)[0] == '0' <==> n == 0
    decreases n
  {
    if n >= 10 {
      DigitsStart(n / 10);
      assert Digits(n)[0] == Digits(n / 10)[0];
    }
  }

  ghost predicate ReadsNat(s: string, n: nat, x: string) {
    ReadNat(s).Some? && ReadNat(s).value.value == n && ReadNat(s).value.rest == x
  }

  lemma NatBack(n: nat, x: string)
    requires NoDigitFirst(x)
    ensures ReadsNat(Digits(n) + x, n, x)
  {
    var t := Digits(n);
    DigitsStart(n);
    DigitsValue(n);
    RunOfDigits(t, x);
    assert (t + x)[0] == t[0] && (t + x)[..|t|] == t && (t + x)[|t|..] == x;
  }

  lemma DecimalParts(n: int)
    ensures n < 0 ==> Decimal(n) == "-" + Digits(-n)
    ensures n >= 0 ==> Decimal(n) == Digits(n)
  {}

  /** The digits of a number, behind its sign. */
  lemma DecimalRead(n: int, x: string)
    requires NoDigitFirst(x)
    ensures var s := Decimal(n) + x;
      && (Starts(s, '-') <==> n < 0)
      && (if n < 0 then s[1..] == Digits(-n) + x && ReadsNat(s[1..], -n, x)
          else s == Digits(n) + x && ReadsNat(s, n, x))
  {
    DecimalParts(n);
    if n < 0 {
      BehindFirst("-", Digits(-n), x);
      NatBack(-n, x);
    } else {
      FirstOfTwo(Digits(n), x);
      NatBack(n, x);
    }
  }

  lemma FirstOfTwo(a: string, x: string)
    requires a != ""
    ensures (a + x)[0] == a[0]
  {}

  lemma BehindFirst(open: string, a: string, x: string)
    requires |open| == 1
    ensures ((open + a) + x)[1..] == a + x && ((open + a) + x)[0] == open[0]
  {}

  /** Every integer is read back before anything that is neither a digit nor a fraction nor an exponent. */
  lemma NumberBack(n: int, x: string)
    requires NoDigitFirst(x) && (x == "" || x[0] !in {'.', 'e', 'E'})
    ensures ReadNumber(Decimal(n) + x) == Some(Read(Num(n), x))
  {
    DecimalRead(n, x);
  }

  // ----- Values are read back -----

  /** The first character of a text tells which kind of value it is. */
  lemma FirstChar(v: Json)
    ensures match v
      case Null => Text(v)[0] == 'n'
      case Bool(b) => Text(v)[0] == if b then 't' else 'f'
      case Num(_) => Text(v)[0] == '-' || IsDigit(Text(v)[0])
      case Str(_) => Text(v)[0] == '"'
      case Arr(_) => Text(v)[0] == '['
      case Obj(_) => Text(v)[0] == '{'
  {}

  lemma NotSpace(v: Json)
    ensures !IsSpace(Text(v)[0]) && Text(v)[0] != ']' && Text(v)[0] != '}'
  {
    FirstChar(v);
  }

  lemma StandsStill(a: string, x: string)
    requires a != "" && !IsSpace(a[0])
    ensures SkipSpace(a + x) == a + x && (a + x)[0] == a[0]
  {}

  lemma NoSpace(v: Json, x: string)
    ensures SkipSpace(Text(v) + x) == Text(v) + x && !Starts(Text(v) + x, ']')
  {
    NotSpace(v);
    StandsStill(Text(v), x);
  }

  lemma WordBack(v: Json, x: string)
    requires v.Null? || v.Bool?
    ensures ReadValue(Text(v) + x) == Some(Read(v, x))
  {
    var s := Text(v) + x;
    FirstChar(v);
    assert s[0] == Text(v)[0] && Text(v) <= s && s[|Text(v)|..] == x;
  }

  lemma NumBack(n: int, x: string)
    requires Delimited(x)
    ensures ReadValue(Decimal(n) + x) == Some(Read(Num(n), x))
  {
    NumberBack(n, x);
    FirstOfTwo(Decimal(n), x);
    NumberIsNoWord(Decimal(n) + x);
  }

  /** A number begins like no other value. */
  lemma NumberIsNoWord(s: string)
    requires s != "" && (s[0] == '-' || IsDigit(s[0]))
    ensures ReadValue(s) == ReadNumber(s)
  {}

  lemma StrBack(t: string, x: string)
    ensures ReadValue(Quote(t) + x) == Some(Read(Str(t), x))
  {
    StringBack(t, x);
    assert (Quote(t) + x)[0] == '"';
  }

  lemma Inside(open: string, a: string, close: string, x: string)
    requires |open| == 1
    ensures ((open + a + close) + x)[1..] == a + (close + x) && ((open + a + close) + x)[0] == open[0]
  {}

  /** The reader reads back every value that is written, whatever may follow it. */
  lemma {:induction false} TextBack(v: Json, x: string)
    requires Delimited(x)
    ensures ReadValue(Text(v) + x) == Some(Read(v, x))
    decreases v, 1
  {
    match v {
      case Null => WordBack(v, x);
      case Bool(_) => WordBack(v, x);
      case Num(n) => NumBack(n, x);
      case Str(t) => StrBack(t, x);
      case Arr(items) =>
        Inside("[", Items(items), "]", x);
        ArrayBack(items, x);
      case Obj(members) =>
        Inside("{", Members(members), "}", x);
        ObjectBack(members, x);
    }
  }

  lemma {:induction false} ArrayBack(items: seq<Json>, x: string)
    ensures ReadArray(Items(items) + ("]" + x)) == Some(Read(Arr(items), x))
    decreases items, 1
  {
    if items == [] {
      assert "" + ("]" + x) == "]" + x && ("]" + x)[1..] == x;
    } else {
      ItemsBack(items, x);
      Assoc(Text(items[0]), MoreItems(items[1..]), "]" + x);
      NoSpace(items[0], MoreItems(items[1..]) + ("]" + x));
    }
  }

  /** What follows a value: a separator and more. */
  ghost predicate Follows(rest: string, c: char, t: string) {
    rest != "" && rest[0] == c && rest[1..] == t && SkipSpace(rest) == rest
  }

  lemma FollowsAt(c: char, t: string)
    requires !IsSpace(c)
    ensures Follows([c] + t, c, t)
  {
    StandsStill([c], t);
  }

  lemma LastItem(s: string, v: Json, rest: string, x: string)
    requires SkipSpace(s) == s && ReadValue(s) == Some(Read(v, rest)) && Follows(rest, ']', x)
    ensures ReadItems(s) == Some(Read([v], x))
  {}

  lemma NextItem(s: string, v: Json, rest: string, t: string, more: seq<Json>, x: string)
    requires SkipSpace(s) == s && ReadValue(s) == Some(Read(v, rest)) && Follows(rest, ',', t)
    requires ReadItems(t) == Some(Read(more, x))
    ensures ReadItems(s) == Some(Read([v] + more, x))
  {}

  lemma {:induction false} ItemsBack(items: seq<Json>, x: string)
    requires items != []
    ensures ReadItems(Text(items[0]) + MoreItems(items[1..]) + ("]" + x)) == Some(Read(items, x))
    decreases items, 0
  {
    var v, rest := items[0], items[1..];
    var more := MoreItems(rest) + ("]" + x);
    Assoc(Text(v), MoreItems(rest), "]" + x);
    NoSpace(v, more);
    ItemsDelimited(rest, x);
    TextBack(v, more);
    if rest == [] {
      assert more == "]" + x;
      FollowsAt(']', x);
      LastItem(Text(v) + more, v, more, x);
      assert items == [v];
    } else {
      ItemsBack(rest, x);
      MoreItemsText(rest, x);
      FollowsAt(',', Text(rest[0]) + MoreItems(rest[1..]) + ("]" + x));
      NextItem(Text(v) + more, v, more, Text(rest[0]) + MoreItems(rest[1..]) + ("]" + x), rest, x);
      assert items == [v] + rest;
    }
  }

  lemma ItemsDelimited(items: seq<Json>, x: string)
    ensures Delimited(MoreItems(items) + ("]" + x))
  {}

  lemma MoreItemsText(items: seq<Json>, x: string)
    requires items != []
    ensures MoreItems(items) + ("]" + x) == "," + (Text(items[0]) + MoreItems(items[1..]) + ("]" + x))
  {
    Assoc(",", Text(items[0]), MoreItems(items[1..]));
    Assoc(",", Text(items[0]) + MoreItems(items[1..]), "]" + x);
  }

  lemma OneMember(s: string, key: string, rest: string, t: string, v: Json, x: string)
    requires SkipSpace(s) == s && ReadString(s) == Some(Read(key, rest)) && Follows(rest, ':', t)
    requires SkipSpace(t) == t && ReadValue(t) == Some(Read(v, x))
    ensures ReadMember(s) == Some(Read(Member(key, v), x))
  {}

  lemma {:induction false} MemberBack(m: Member, x: string)
    requires Delimited(x)
    ensures ReadMember(MemberText(m) + x) == Some(Read(m, x)) && !Starts(SkipSpace(MemberText(m) + x), '}')
    decreases m, 0
  {
    var value := Text(m.value) + x;
    MemberSplit(m, x);
    assert ":" + Text(m.value) + x == ":" + value;
    StringBack(m.key, ":" + value);
    QuoteStart(m.key);
    StandsStill(Quote(m.key), ":" + value);
    NoSpace(m.value, x);
    TextBack(m.value, x);
    FollowsAt(':', value);
    OneMember(MemberText(m) + x, m.key, ":" + value, value, m.value, x);
  }

  lemma QuoteStart(s: string)
    ensures Quote(s)[0] == '"'
  {}

  lemma MemberSplit(m: Member, x: string)
    ensures MemberText(m) + x == Quote(m.key) + (":" + Text(m.value) + x)
  {
    Assoc(Quote(m.key), ":", Text(m.value));
    Assoc(Quote(m.key), ":" + Text(m.value), x);
  }

  lemma {:induction false} ObjectBack(members: seq<Member>, x: string)
    ensures ReadObject(Members(members) + ("}" + x)) == Some(Read(Obj(members), x))
    decreases members, 1
  {
    if members == [] {
      assert "" + ("}" + x) == "}" + x && ("}" + x)[1..] == x;
    } else {
      MembersBack(members, x);
      Assoc(MemberText(members[0]), MoreMembers(members[1..]), "}" + x);
      MoreIsDelimited(members[1..], x);
      MemberBack(members[0], MoreMembers(members[1..]) + ("}" + x));
    }
  }

  lemma MoreIsDelimited(members: seq<Member>, x: string)
    ensures Delimited(MoreMembers(members) + ("}" + x))
  {}

  lemma LastMember(s: string, m: Member, rest: string, x: string)
    requires ReadMember(s) == Some(Read(m, rest)) && Follows(rest, '}', x)
    ensures ReadMembers(s) == Some(Read([m], x))
  {}

  lemma NextMember(s: string, m: Member, rest: string, t: string, more: seq<Member>, x: string)
    requires ReadMember(s) == Some(Read(m, rest)) && Follows(rest, ',', t)
    requires ReadMembers(t) == Some(Read(more, x))
    ensures ReadMembers(s) == Some(Read([m] + more, x))
  {}

  lemma {:induction false} MembersBack(members: seq<Member>, x: string)
    requires members != []
    ensures ReadMembers(MemberText(members[0]) + MoreMembers(members[1..]) + ("}" + x)) == Some(Read(members, x))
    decreases members, 0
  {
    var m, rest := members[0], members[1..];
    var more := MoreMembers(rest) + ("}" + x);
    Assoc(MemberText(m), MoreMembers(rest), "}" + x);
    MoreIsDelimited(rest, x);
    MemberBack(m, more);
    HeadAndRest(members);
    if rest == [] {
      NoMoreMembers(x);
      LastMember(MemberText(m) + more, m, more, x);
    } else {
      MembersBack(rest, x);
      MoreMembersText(rest, x);
      FollowsAt(',', MemberText(rest[0]) + MoreMembers(rest[1..]) + ("}" + x));
      NextMember(MemberText(m) + more, m, more, MemberText(rest[0]) + MoreMembers(rest[1..]) + ("}" + x), rest, x);
    }
  }

  lemma HeadAndRest(members: seq<Member>)
    requires members != []
    ensures [members[0]] + members[1..] == members
    ensures members[1..] == [] ==> members == [members[0]]
  {}

  lemma NoMoreMembers(x: string)
    ensures Follows(MoreMembers([]) + ("}" + x), '}', x)
  {
    assert MoreMembers([]) + ("}" + x) == "}" + x;
    FollowsAt('}', x);
  }

  lemma MoreMembersText(members: seq<Member>, x: string)
    requires members != []
    ensures MoreMembers(members) + ("}" + x) == "," + (MemberText(members[0]) + MoreMembers(members[1..]) + ("}" + x))
  {
    Assoc(",", MemberText(members[0]), MoreMembers(members[1..]));
    Assoc(",", MemberText(members[0]) + MoreMembers(members[1..]), "}" + x);
  }

  /** Reading inverts writing. */
  lemma JsonBack(v: Json)
    ensures ReadJson(Text(v)) == Some(v)
  {
    assert Text(v) + "" == Text(v);
    NoSpace(v, "");
    TextBack(v, "");
  }

  // ----- So texts are unambiguous -----

  /** Unique readability, even when more text follows. */
  lemma TextUnique(v: Json, x: string, u: Json, y: string)
    requires Delimited(x) && Delimited(y) && Text(v) + x == Text(u) + y
    ensures v == u && x == y
  {
    TextBack(v, x);
    TextBack(u, y);
  }

  lemma EscapeUnique(c: char, x: string, d: char, y: string)
    requires Escape(c) + x == Escape(d) + y
    ensures c == d && x == y
  {
    CharBack(c, x);
    CharBack(d, y);
  }

  lemma DecimalUnique(n: int, x: string, m: int, y: string)
    requires NoDigitFirst(x) && NoDigitFirst(y) && Decimal(n) + x == Decimal(m) + y
    ensures n == m && x == y
  {
    DecimalRead(n, x);
    DecimalRead(m, y);
  }
}
