/** The leaf flattener of the proposal audit: JSON Pointers (RFC 6901) for every scalar of a value. */
module JsonLeaves {
  import opened Wrappers
  import opened JsonText
  import opened JsonReading

  datatype Leaf = Leaf(pointer: string, value: Json)

  predicate Scalar(v: Json) {
    !v.Arr? && !v.Obj?
  }

  /** No object names a key twice. */
  predicate UniqueKeys(v: Json)
    decreases v
  {
    match v
    case Arr(items) => forall i :: 0 <= i < |items| ==> UniqueKeys(items[i])
    case Obj(members) =>
      && (forall i, j :: 0 <= i < j < |members| ==> members[i].key != members[j].key)
      && (forall i :: 0 <= i < |members| ==> UniqueKeys(members[i].value))
    case _ => true
  }

  // ----- Escaping, sections 3 and 4 -----

  /** `replaceAll(c, text)` for one character. */
  function ReplaceChar(s: string, c: char, text: string): string {
    if s == "" then "" else (if s[0] == c then text else [s[0]]) + ReplaceChar(s[1..], c, text)
  }

  /** `replaceAll("~" + d, [c])`: two characters by one, left to right. */
  function ReplacePair(s: string, d: char, c: char): string
    decreases |s|
  {
    if |s| >= 2 && s[0] == '~' && s[1] == d then [c] + ReplacePair(s[2..], d, c)
    else if s == "" then ""
    else [s[0]] + ReplacePair(s[1..], d, c)
  }

  function EscapeToken(key: string): string {
    ReplaceChar(ReplaceChar(key, '~', "~0"), '/', "~1")
  }

  /** Section 4: first "~1" to "/", then "~0" to "~". */
  function UnescapeToken(token: string): string {
    ReplacePair(ReplacePair(token, '1', '/'), '0', '~')
  }

  lemma {:induction false} UnescapeTilde(key: string)
    ensures ReplacePair(ReplaceChar(key, '~', "~0"), '0', '~') == key
    decreases |key|
  {
    if key != "" {
      UnescapeTilde(key[1..]);
      var rest := ReplaceChar(key[1..], '~', "~0");
      var t := ReplaceChar(key, '~', "~0");
      if key[0] == '~' {
        assert t == "~0" + rest && t[2..] == rest;
      } else {
        assert t == [key[0]] + rest && t[1..] == rest;
      }
      assert key == [key[0]] + key[1..];
    }
  }

  /** After the first replacement a tilde is always followed by a zero. */
  predicate TildeZero(s: string) {
    s == "" || ((s[0] == '~' ==> |s| >= 2 && s[1] == '0') && TildeZero(s[1..]))
  }

  lemma {:induction false} EscapedTilde(key: string)
    ensures TildeZero(ReplaceChar(key, '~', "~0"))
    decreases |key|
  {
    if key != "" {
      EscapedTilde(key[1..]);
      var rest := ReplaceChar(key[1..], '~', "~0");
      var t := ReplaceChar(key, '~', "~0");
      if key[0] == '~' {
        assert t == "~0" + rest && t[1..] == "0" + rest && t[1..][1..] == rest;
      } else {
        assert t == [key[0]] + rest && t[1..] == rest;
      }
    }
  }

  lemma {:induction false} UnescapeSlash(s: string)
    requires TildeZero(s)
    ensures ReplacePair(ReplaceChar(s, '/', "~1"), '1', '/') == s
    ensures '/' !in ReplaceChar(s, '/', "~1")
    ensures s != "" && s[0] != '/' ==> ReplaceChar(s, '/', "~1") != "" && ReplaceChar(s, '/', "~1")[0] == s[0]
    decreases |s|
  {
    if s != "" {
      UnescapeSlash(s[1..]);
      var rest := ReplaceChar(s[1..], '/', "~1");
      var t := ReplaceChar(s, '/', "~1");
      if s[0] == '/' {
        assert t == "~1" + rest && t[2..] == rest;
      } else {
        assert t == [s[0]] + rest && t[1..] == rest;
        if s[0] == '~' {
          assert s[1..][0] == '0' && t[1] == '0';
        }
      }
      assert s == [s[0]] + s[1..];
    }
  }

  /** Key escaping is undone by section 4 decoding, and an escaped key holds no slash. */
  lemma EscapeRoundTrip(key: string)
    ensures UnescapeToken(EscapeToken(key)) == key && '/' !in EscapeToken(key)
  {
    EscapedTilde(key);
    UnescapeSlash(ReplaceChar(key, '~', "~0"));
    UnescapeTilde(key);
  }

  /** Character by character: a tilde becomes tilde zero, a slash tilde one, and nothing else changes. */
  lemma EscapeFirst(c: char, rest: string)
    ensures EscapeToken("") == ""
    ensures EscapeToken([c] + rest)
         == (if c == '~' then "~0" else if c == '/' then "~1" else [c]) + EscapeToken(rest)
  {
    var key, more := [c] + rest, ReplaceChar(rest, '~', "~0");
    assert key[1..] == rest;
    if c == '~' {
      var t := "~0" + more;
      assert t[1..] == "0" + more && t[1..][1..] == more;
      assert ReplaceChar(t[1..], '/', "~1") == "0" + ReplaceChar(more, '/', "~1");
      assert ReplaceChar(t, '/', "~1") == "~" + ("0" + ReplaceChar(more, '/', "~1"));
    } else {
      assert ([c] + more)[1..] == more;
    }
  }

  // ----- Pointers -----

  function PointerOf(tokens: seq<string>): string {
    if tokens == [] then "" else "/" + EscapeToken(tokens[0]) + PointerOf(tokens[1..])
  }

  /** How many characters there are before the next slash. */
  function ToSlash(s: string): (n: nat)
    ensures n <= |s| && '/' !in s[..n] && (n < |s| ==> s[n] == '/')
  {
    if s == "" || s[0] == '/' then 0 else 1 + ToSlash(s[1..])
  }

  /** The decoded reference tokens of a pointer, None if it is not one. */
  function Tokens(pointer: string): Option<seq<string>>
    decreases |pointer|
  {
    if pointer == "" then Some([])
    else if pointer[0] != '/' then None
    else
      var n := ToSlash(pointer[1..]);
      match Tokens(pointer[1 + n..])
      case None => None
      case Some(rest) => Some([UnescapeToken(pointer[1..1 + n])] + rest)
  }

  lemma {:induction false} ToSlashOf(token: string, rest: string)
    requires '/' !in token && (rest == "" || rest[0] == '/')
    ensures ToSlash(token + rest) == |token|
    decreases |token|
  {
    if token == "" {
      assert token + rest == rest;
    } else {
      assert (token + rest)[1..] == token[1..] + rest;
      ToSlashOf(token[1..], rest);
    }
  }

  lemma TokenCut(token: string, rest: string)
    ensures var pointer := "/" + token + rest;
      && pointer[1..] == token + rest && pointer[1..1 + |token|] == token && pointer[1 + |token|..] == rest
  {}

  lemma TokensStep(token: string, rest: string, key: string, keys: seq<string>)
    requires '/' !in token && (rest == "" || rest[0] == '/')
    requires Tokens(rest) == Some(keys) && UnescapeToken(token) == key
    ensures Tokens("/" + token + rest) == Some([key] + keys)
  {
    TokenCut(token, rest);
    ToSlashOf(token, rest);
  }

  lemma PointerStart(tokens: seq<string>)
    ensures PointerOf(tokens) == "" || PointerOf(tokens)[0] == '/'
  {}

  /** Reading a pointer gives back the keys it was built from. */
  lemma {:induction false} TokensOfPointer(tokens: seq<string>)
    ensures Tokens(PointerOf(tokens)) == Some(tokens)
    decreases |tokens|
  {
    if tokens != [] {
      var key, keys := tokens[0], tokens[1..];
      TokensOfPointer(keys);
      EscapeRoundTrip(key);
      PointerStart(keys);
      TokensStep(EscapeToken(key), PointerOf(keys), key, keys);
      assert tokens == [key] + keys;
    }
  }

  /** The item an index token names: "0" or digits without a leading zero. */
  function ItemAt(token: string, n: nat): (r: Option<nat>)
    ensures r.Some? ==> r.value < n && Decimal(r.value) == token
    ensures r.None? ==> forall i: nat :: i < n ==> Decimal(i) != token
  {
    if n == 0 then None else if Decimal(n - 1) == token then Some(n - 1) else ItemAt(token, n - 1)
  }

  function MemberAt(members: seq<Member>, key: string): (r: Option<nat>)
    ensures r.Some? ==> r.value < |members| && members[r.value].key == key
    ensures r.None? ==> forall i :: 0 <= i < |members| ==> members[i].key != key
  {
    if members == [] then None
    else if members[|members| - 1].key == key then Some(|members| - 1)
    else MemberAt(members[..|members| - 1], key)
  }

  /** The value a list of tokens leads to. */
  function Reach(v: Json, tokens: seq<string>): Option<Json>
    decreases |tokens|
  {
    if tokens == [] then Some(v)
    else
      match v
      case Arr(items) => (
        match ItemAt(tokens[0], |items|)
        case None => None
        case Some(i) => Reach(items[i], tokens[1..])
      )
      case Obj(members) => (
        match MemberAt(members, tokens[0])
        case None => None
        case Some(i) => Reach(members[i].value, tokens[1..])
      )
      case _ => None
  }

  /** Section 4: evaluating a pointer against a value. */
  function Evaluate(v: Json, pointer: string): Option<Json> {
    match Tokens(pointer)
    case None => None
    case Some(tokens) => Reach(v, tokens)
  }

  // ----- The flattener -----

  function Leaves(v: Json, pointer: string): seq<Leaf>
    decreases v, 0
  {
    match v
    case Arr(items) => ItemLeaves(items, 0, pointer)
    case Obj(members) => MemberLeaves(members, pointer)
    case _ => [Leaf(pointer, v)]
  }

  function ItemLeaves(items: seq<Json>, i: nat, pointer: string): seq<Leaf>
    requires i <= |items|
    decreases items, |items| - i
  {
    if i == |items| then []
    else Leaves(items[i], pointer + "/" + EscapeToken(Decimal(i))) + ItemLeaves(items, i + 1, pointer)
  }

  function MemberLeaves(members: seq<Member>, pointer: string): seq<Leaf>
    decreases members, 0
  {
    if members == [] then []
    else Leaves(members[0].value, pointer + "/" + EscapeToken(members[0].key)) + MemberLeaves(members[1..], pointer)
  }

  // ----- The same with keys instead of text -----

  datatype Trail = Trail(tokens: seq<string>, value: Json)

  function Under(key: string, trails: seq<Trail>): (all: seq<Trail>)
    ensures |all| == |trails|
    ensures forall i :: 0 <= i < |trails| ==> all[i] == Trail([key] + trails[i].tokens, trails[i].value)
  {
    seq(|trails|, i requires 0 <= i < |trails| => Trail([key] + trails[i].tokens, trails[i].value))
  }

  function Trails(v: Json): seq<Trail>
    decreases v, 0
  {
    match v
    case Arr(items) => ItemTrails(items, 0)
    case Obj(members) => MemberTrails(members)
    case _ => [Trail([], v)]
  }

  function ItemTrails(items: seq<Json>, i: nat): seq<Trail>
    requires i <= |items|
    decreases items, |items| - i
  {
    if i == |items| then [] else Under(Decimal(i), Trails(items[i])) + ItemTrails(items, i + 1)
  }

  function MemberTrails(members: seq<Member>): seq<Trail>
    decreases members, 0
  {
    if members == [] then [] else Under(members[0].key, Trails(members[0].value)) + MemberTrails(members[1..])
  }

  function Render(prefix: string, trails: seq<Trail>): (leaves: seq<Leaf>)
    ensures |leaves| == |trails|
    ensures forall i :: 0 <= i < |trails| ==> leaves[i] == Leaf(prefix + PointerOf(trails[i].tokens), trails[i].value)
  {
    seq(|trails|, i requires 0 <= i < |trails| => Leaf(prefix + PointerOf(trails[i].tokens), trails[i].value))
  }

  lemma RenderUnder(prefix: string, key: string, trails: seq<Trail>)
    ensures Render(prefix + "/" + EscapeToken(key), trails) == Render(prefix, Under(key, trails))
  {
    forall i | 0 <= i < |trails|
      ensures Render(prefix + "/" + EscapeToken(key), trails)[i] == Render(prefix, Under(key, trails))[i]
    {
      var tokens := trails[i].tokens;
      assert ([key] + tokens)[1..] == tokens;
      assert prefix + "/" + EscapeToken(key) + PointerOf(tokens) == prefix + PointerOf([key] + tokens);
    }
  }

  lemma RenderStep(prefix: string, key: string, here: seq<Trail>, later: seq<Trail>)
    ensures Render(prefix, Under(key, here) + later)
         == Render(prefix + "/" + EscapeToken(key), here) + Render(prefix, later)
  {
    RenderUnder(prefix, key, here);
    RenderAppend(prefix, Under(key, here), later);
  }

  lemma RenderAppend(prefix: string, here: seq<Trail>, later: seq<Trail>)
    ensures Render(prefix, here + later) == Render(prefix, here) + Render(prefix, later)
  {}

  /** The flattener writes out the trails as pointers. */
  lemma {:induction false} LeavesRender(v: Json, prefix: string)
    ensures Leaves(v, prefix) == Render(prefix, Trails(v))
    decreases v, 0
  {
    match v {
      case Arr(items) => ItemsRender(items, 0, prefix);
      case Obj(members) => MembersRender(members, prefix);
      case _ => assert prefix + "" == prefix;
    }
  }

  lemma {:induction false} ItemsRender(items: seq<Json>, i: nat, prefix: string)
    requires i <= |items|
    ensures ItemLeaves(items, i, prefix) == Render(prefix, ItemTrails(items, i))
    decreases items, |items| - i
  {
    if i < |items| {
      LeavesRender(items[i], prefix + "/" + EscapeToken(Decimal(i)));
      RenderStep(prefix, Decimal(i), Trails(items[i]), ItemTrails(items, i + 1));
      ItemsRender(items, i + 1, prefix);
    }
  }

  lemma {:induction false} MembersRender(members: seq<Member>, prefix: string)
    ensures MemberLeaves(members, prefix) == Render(prefix, MemberTrails(members))
    decreases members, 0
  {
    if members != [] {
      LeavesRender(members[0].value, prefix + "/" + EscapeToken(members[0].key));
      RenderStep(prefix, members[0].key, Trails(members[0].value), MemberTrails(members[1..]));
      MembersRender(members[1..], prefix);
    }
  }

  // ----- Every scalar, exactly once -----

  lemma ItemAtOf(i: nat, n: nat)
    requires i < n
    ensures ItemAt(Decimal(i), n) == Some(i)
  {
    var r := ItemAt(Decimal(i), n);
    assert r.Some?;
    assert Decimal(r.value) + "" == Decimal(i) + "";
    DecimalUnique(r.value, "", i, "");
  }

  lemma UnderIff(key: string, trails: seq<Trail>, tokens: seq<string>, x: Json)
    ensures Trail(tokens, x) in Under(key, trails)
       <==> tokens != [] && tokens[0] == key && Trail(tokens[1..], x) in trails
  {
    var all := Under(key, trails);
    if Trail(tokens, x) in all {
      var i :| 0 <= i < |all| && all[i] == Trail(tokens, x);
      assert tokens[1..] == trails[i].tokens;
    }
    if tokens != [] && tokens[0] == key && Trail(tokens[1..], x) in trails {
      var i :| 0 <= i < |trails| && trails[i] == Trail(tokens[1..], x);
      assert all[i].tokens == [key] + tokens[1..] == tokens;
    }
  }

  /** A trail is listed exactly when its tokens lead to its value and the value is a scalar. */
  lemma {:induction false} TrailIff(v: Json, tokens: seq<string>, x: Json)
    requires UniqueKeys(v)
    ensures Trail(tokens, x) in Trails(v) <==> Scalar(x) && Reach(v, tokens) == Some(x)
    decreases v, 0
  {
    match v {
      case Arr(items) =>
        ItemTrailIff(items, 0, tokens, x);
      case Obj(members) =>
        MemberTrailIff(members, tokens, x);
        if tokens != [] {
          ReachMember(members, tokens, x);
        }
      case _ =>
    }
  }

  /** The index named by the first token is at least `i` and its item leads on to the value. */
  predicate ItemLeadsOn(items: seq<Json>, i: nat, tokens: seq<string>, x: Json) {
    && tokens != [] && ItemAt(tokens[0], |items|).Some? && ItemAt(tokens[0], |items|).value >= i
    && Reach(items[ItemAt(tokens[0], |items|).value], tokens[1..]) == Some(x)
  }

  lemma ItemStep(items: seq<Json>, i: nat, tokens: seq<string>, x: Json)
    requires i < |items|
    ensures ItemLeadsOn(items, i, tokens, x) <==>
      ItemLeadsOn(items, i + 1, tokens, x)
      || (tokens != [] && tokens[0] == Decimal(i) && Reach(items[i], tokens[1..]) == Some(x))
  {
    ItemAtOf(i, |items|);
  }

  lemma {:induction false} ItemTrailIff(items: seq<Json>, i: nat, tokens: seq<string>, x: Json)
    requires i <= |items| && forall j :: 0 <= j < |items| ==> UniqueKeys(items[j])
    ensures Trail(tokens, x) in ItemTrails(items, i) <==> Scalar(x) && ItemLeadsOn(items, i, tokens, x)
    decreases items, |items| - i
  {
    if i < |items| {
      UnderIff(Decimal(i), Trails(items[i]), tokens, x);
      ItemTrailIff(items, i + 1, tokens, x);
      ItemStep(items, i, tokens, x);
      if tokens != [] {
        TrailIff(items[i], tokens[1..], x);
      }
    }
  }

  /** A member of the list with this key leads on to the value. */
  ghost predicate LeadsOn(members: seq<Member>, tokens: seq<string>, x: Json, i: nat)
    requires tokens != []
  {
    i < |members| && members[i].key == tokens[0] && Reach(members[i].value, tokens[1..]) == Some(x)
  }

  lemma {:induction false} MemberTrailIff(members: seq<Member>, tokens: seq<string>, x: Json)
    requires forall j :: 0 <= j < |members| ==> UniqueKeys(members[j].value)
    ensures Trail(tokens, x) in MemberTrails(members) <==>
      Scalar(x) && tokens != [] && exists i: nat :: LeadsOn(members, tokens, x, i)
    decreases members, 0
  {
    if members != [] {
      var rest := members[1..];
      UnderIff(members[0].key, Trails(members[0].value), tokens, x);
      MemberTrailIff(rest, tokens, x);
      if tokens != [] {
        TrailIff(members[0].value, tokens[1..], x);
        forall i: nat
          ensures LeadsOn(rest, tokens, x, i) <==> LeadsOn(members, tokens, x, i + 1)
        {}
        assert (exists i: nat :: LeadsOn(members, tokens, x, i))
          <==> LeadsOn(members, tokens, x, 0) || exists i: nat :: LeadsOn(rest, tokens, x, i) by {
          if i: nat :| LeadsOn(members, tokens, x, i) && i > 0 {
            assert LeadsOn(rest, tokens, x, i - 1);
          }
        }
      }
    }
  }

  lemma ReachMember(members: seq<Member>, tokens: seq<string>, x: Json)
    requires forall i, j :: 0 <= i < j < |members| ==> members[i].key != members[j].key
    requires tokens != []
    ensures Reach(Obj(members), tokens) == Some(x) <==> exists i: nat :: LeadsOn(members, tokens, x, i)
  {
    var at := MemberAt(members, tokens[0]);
    if at.Some? {
      assert forall i: nat :: i < |members| && members[i].key == tokens[0] ==> i == at.value;
      assert Reach(Obj(members), tokens) == Some(x) <==> LeadsOn(members, tokens, x, at.value);
    }
  }

  ghost predicate Apart(trails: seq<Trail>) {
    forall i, j :: 0 <= i < j < |trails| ==> trails[i].tokens != trails[j].tokens
  }

  lemma ApartUnder(key: string, trails: seq<Trail>)
    requires Apart(trails)
    ensures Apart(Under(key, trails))
  {
    var all := Under(key, trails);
    forall i, j | 0 <= i < j < |all|
      ensures all[i].tokens != all[j].tokens
    {
      assert all[i].tokens[1..] == trails[i].tokens && all[j].tokens[1..] == trails[j].tokens;
    }
  }

  lemma ApartAppend(a: seq<Trail>, b: seq<Trail>)
    requires Apart(a) && Apart(b)
    requires forall i, j :: 0 <= i < |a| && 0 <= j < |b| ==> a[i].tokens != b[j].tokens
    ensures Apart(a + b)
  {}

  /** No two scalars share a trail. */
  lemma {:induction false} TrailsApart(v: Json)
    requires UniqueKeys(v)
    ensures Apart(Trails(v))
    decreases v, 0
  {
    match v {
      case Arr(items) => ItemTrailsApart(items, 0);
      case Obj(members) => MemberTrailsApart(members);
      case _ =>
    }
  }

  lemma {:induction false} ItemTrailsApart(items: seq<Json>, i: nat)
    requires i <= |items| && forall j :: 0 <= j < |items| ==> UniqueKeys(items[j])
    ensures Apart(ItemTrails(items, i))
    ensures forall t :: t in ItemTrails(items, i) ==>
      t.tokens != [] && exists k: nat :: i <= k < |items| && t.tokens[0] == Decimal(k)
    decreases items, |items| - i
  {
    if i < |items| {
      var here, later := Under(Decimal(i), Trails(items[i])), ItemTrails(items, i + 1);
      TrailsApart(items[i]);
      ApartUnder(Decimal(i), Trails(items[i]));
      ItemTrailsApart(items, i + 1);
      forall j, k | 0 <= j < |here| && 0 <= k < |later|
        ensures here[j].tokens != later[k].tokens
      {
        assert later[k] in later;
        var n: nat :| i + 1 <= n < |items| && later[k].tokens[0] == Decimal(n);
        DifferentDecimals(i, n);
      }
      ApartAppend(here, later);
    }
  }

  lemma DifferentDecimals(n: nat, m: nat)
    requires n != m
    ensures Decimal(n) != Decimal(m)
  {
    if Decimal(n) == Decimal(m) {
      assert Decimal(n) + "" == Decimal(m) + "";
      DecimalUnique(n, "", m, "");
    }
  }

  lemma {:induction false} MemberTrailsApart(members: seq<Member>)
    requires forall i, j :: 0 <= i < j < |members| ==> members[i].key != members[j].key
    requires forall i :: 0 <= i < |members| ==> UniqueKeys(members[i].value)
    ensures Apart(MemberTrails(members))
    ensures forall t :: t in MemberTrails(members) ==>
      t.tokens != [] && exists k: nat :: k < |members| && t.tokens[0] == members[k].key
    decreases members, 0
  {
    if members != [] {
      var here, later := Under(members[0].key, Trails(members[0].value)), MemberTrails(members[1..]);
      TrailsApart(members[0].value);
      ApartUnder(members[0].key, Trails(members[0].value));
      MemberTrailsApart(members[1..]);
      forall j, k | 0 <= j < |here| && 0 <= k < |later|
        ensures here[j].tokens != later[k].tokens
      {
        assert later[k] in later;
        var n: nat :| n < |members[1..]| && later[k].tokens[0] == members[1..][n].key;
        assert members[n + 1].key != members[0].key;
      }
      ApartAppend(here, later);
      forall t | t in later
        ensures exists k: nat :: k < |members| && t.tokens[0] == members[k].key
      {
        var n: nat :| n < |members[1..]| && t.tokens[0] == members[1..][n].key;
        assert members[n + 1].key == t.tokens[0];
      }
    }
  }

  // ----- The pointers are faithful -----

  lemma SamePointer(one: seq<string>, two: seq<string>)
    requires PointerOf(one) == PointerOf(two)
    ensures one == two
  {
    TokensOfPointer(one);
    TokensOfPointer(two);
  }

  /** Every leaf listed is a scalar of the value, found at its pointer. */
  lemma LeavesEvaluate(v: Json, i: nat)
    requires UniqueKeys(v) && i < |Leaves(v, "")|
    ensures var leaf := Leaves(v, "")[i]; Scalar(leaf.value) && Evaluate(v, leaf.pointer) == Some(leaf.value)
  {
    LeavesRender(v, "");
    var trail := Trails(v)[i];
    assert trail in Trails(v) && trail == Trail(trail.tokens, trail.value);
    TrailIff(v, trail.tokens, trail.value);
    TokensOfPointer(trail.tokens);
    assert "" + PointerOf(trail.tokens) == PointerOf(trail.tokens);
  }

  /** Every scalar of the value is listed, wherever it is. */
  lemma EveryScalarIsListed(v: Json, tokens: seq<string>, x: Json)
    requires UniqueKeys(v) && Scalar(x) && Reach(v, tokens) == Some(x)
    ensures Leaf(PointerOf(tokens), x) in Leaves(v, "")
  {
    LeavesRender(v, "");
    TrailIff(v, tokens, x);
    var i :| 0 <= i < |Trails(v)| && Trails(v)[i] == Trail(tokens, x);
    assert "" + PointerOf(tokens) == PointerOf(tokens);
    assert Leaves(v, "")[i] == Leaf(PointerOf(tokens), x);
  }

  ghost predicate DistinctPointers(leaves: seq<Leaf>) {
    forall i, j :: 0 <= i < j < |leaves| ==> leaves[i].pointer != leaves[j].pointer
  }

  /** No two leaves have the same pointer, so every scalar is listed exactly once. */
  lemma PointersAreDistinct(v: Json)
    requires UniqueKeys(v)
    ensures DistinctPointers(Leaves(v, ""))
  {
    LeavesRender(v, "");
    TrailsApart(v);
    var leaves, trails := Leaves(v, ""), Trails(v);
    forall i, j | 0 <= i < j < |leaves|
      ensures leaves[i].pointer != leaves[j].pointer
    {
      assert "" + PointerOf(trails[i].tokens) == PointerOf(trails[i].tokens);
      assert "" + PointerOf(trails[j].tokens) == PointerOf(trails[j].tokens);
      if leaves[i].pointer == leaves[j].pointer {
        SamePointer(trails[i].tokens, trails[j].tokens);
      }
    }
  }
}
