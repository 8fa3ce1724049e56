/** JSON values and the compact ASCII text that `json.dumps(..., separators=(',', ':'))` writes for them. */
module JsonText {
  datatype Json =
    | Null
    | Bool(b: bool)
    | Num(n: int)
    | Str(s: string)
    | Arr(items: seq<Json>)
    | Obj(members: seq<Member>)

  datatype Member = Member(key: string, value: Json)

  /** Printable ASCII: no newline, no other control character, nothing outside seven bits. */
  predicate Printable(t: string) {
    forall i :: 0 <= i < |t| ==> ' ' <= t[i] <= '~'
  }

  // ----- Numbers -----

  function Digit(n: nat): (c: char)
    requires n < 10
    ensures '0' <= c <= '9' && (c - '0') as int == n
  {
    '0' + n as char
  }

  predicate AllDigits(t: string) {
    forall i :: 0 <= i < |t| ==> '0' <= t[i] <= '9'
  }

  function Digits(n: nat): (t: string)
    ensures t != "" && AllDigits(t)
  {
    if n < 10 then [Digit(n)] else Digits(n / 10) + [Digit(n % 10)]
  }

  /** `str(n)`, which JavaScript's `String(n)` agrees with on integers. */
  function Decimal(n: int): (t: string)
    ensures t != "" && Printable(t)
    ensures if n < 0 then t[0] == '-' && AllDigits(t[1..]) else AllDigits(t)
  {
    if n < 0 then "-" + Digits(-n) else Digits(n)
  }

  function ValueOf(t: string): nat
    requires AllDigits(t)
  {
    if t == "" then 0 else ValueOf(t[..|t| - 1]) * 10 + (t[|t| - 1] - '0') as int
  }

  lemma {:induction false} DigitsValue(n: nat)
    ensures ValueOf(Digits(n)) == n
  {
    var t := Digits(n);
    if n < 10 {
      assert t[..0] == "";
    } else {
      DigitsValue(n / 10);
      assert t[..|t| - 1] == Digits(n / 10);
    }
  }

  // ----- Strings -----

  function HexDigit(n: nat): (c: char)
    requires n < 16
    ensures '0' <= c <= '9' || 'a' <= c <= 'f'
  {
    if n < 10 then '0' + n as char else 'a' + (n - 10) as char
  }

  function Hex4(n: nat): (t: string)
    requires n < 0x10000
    ensures |t| == 4 && Printable(t)
  {
    [HexDigit(n / 4096), HexDigit(n / 256 % 16), HexDigit(n / 16 % 16), HexDigit(n % 16)]
  }

  /** One character as `ensure_ascii` writes it; above U+FFFF as a surrogate pair. */
  function Escape(c: char): (t: string)
    ensures Printable(t)
  {
    if c == '"' then "\\\"" else if c == '\\' then "\\\\"
    else if c == '\n' then "\\n" else if c == '\r' then "\\r" else if c == '\t' then "\\t"
    else if c == '\U{8}' then "\\b" else if c == '\U{C}' then "\\f"
    else if ' ' <= c <= '~' then [c]
    else
      var n := c as int;
      if n < 0x10000 then "\\u" + Hex4(n)
      else "\\u" + Hex4(0xD800 + (n - 0x10000) / 0x400) + "\\u" + Hex4(0xDC00 + (n - 0x10000) % 0x400)
  }

  function EscapeAll(s: string): (t: string)
    ensures Printable(t)
  {
    if s == "" then "" else Escape(s[0]) + EscapeAll(s[1..])
  }

  function Quote(s: string): (t: string)
    ensures Printable(t)
  {
    "\"" + EscapeAll(s) + "\""
  }

  // ----- Values -----

  function Text(v: Json): (t: string)
    ensures t != "" && Printable(t)
    decreases v
  {
    match v
    case Null => "null"
    case Bool(b) => if b then "true" else "false"
    case Num(n) => Decimal(n)
    case Str(s) => Quote(s)
    case Arr(items) => "[" + Items(items) + "]"
    case Obj(members) => "{" + Members(members) + "}"
  }

  function Items(items: seq<Json>): (t: string)
    ensures Printable(t)
    decreases items, 0
  {
    if items == [] then "" else Text(items[0]) + MoreItems(items[1..])
  }

  function MoreItems(items: seq<Json>): (t: string)
    ensures Printable(t)
    decreases items, 0
  {
    if items == [] then "" else "," + Text(items[0]) + MoreItems(items[1..])
  }

  function MemberText(m: Member): (t: string)
    ensures Printable(t)
    decreases m, 0
  {
    Quote(m.key) + ":" + Text(m.value)
  }

  function Members(members: seq<Member>): (t: string)
    ensures Printable(t)
    decreases members, 0
  {
    if members == [] then "" else MemberText(members[0]) + MoreMembers(members[1..])
  }

  function MoreMembers(members: seq<Member>): (t: string)
    ensures Printable(t)
    decreases members, 0
  {
    if members == [] then "" else "," + MemberText(members[0]) + MoreMembers(members[1..])
  }
}
