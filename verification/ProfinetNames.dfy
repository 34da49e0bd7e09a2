/**
 PROFINET station names (backend/tools/profinet_scan.py): the escape table, the CRC-gated decoding of
 converted names, and the split into labels.  IDNA decoding is a parameter.
 */
module ProfinetNames {
  import opened Crc16
  import opened Wrappers

  // ----- The escape table -----

  /** `_SIEMENS_ESCAPE_TO_CHAR`, in its order: "x" and the first character stand for the second. */
  const TABLE: seq<(char, char)> := [
    ('a', ' '), ('b', '_'), ('d', '.'), ('h', '~'), ('m', '*'),
    ('n', '+'), ('r', '/'), ('u', '\\'), ('v', '='), ('2', '[')
  ]

  function AsMap(table: seq<(char, char)>): map<char, char> {
    if table == [] then map[] else AsMap(table[..|table| - 1])[table[|table| - 1].0 := table[|table| - 1].1]
  }

  /** `s.replace("x" + t, c)`. */
  function Replace(s: string, t: char, c: char): string
    decreases |s|
  {
    if |s| < 2 then s
    else if s[0] == 'x' && s[1] == t then [c] + Replace(s[2..], t, c)
    else [s[0]] + Replace(s[1..], t, c)
  }

  /** The replacements of the table, one after the other. */
  function ReplaceAll(s: string, table: seq<(char, char)>): string {
    if table == [] then s
    else Replace(ReplaceAll(s, table[..|table| - 1]), table[|table| - 1].0, table[|table| - 1].1)
  }

  /** One left-to-right pass that replaces every token it meets. */
  function OnePass(s: string, m: map<char, char>): string
    decreases |s|
  {
    if |s| < 2 then s
    else if s[0] == 'x' && s[1] in m then [m[s[1]]] + OnePass(s[2..], m)
    else [s[0]] + OnePass(s[1..], m)
  }

  /** Second characters are distinct and not "x"; replacements are neither "x" nor a second character. */
  ghost predicate Separated(table: seq<(char, char)>) {
    && (forall i, j :: 0 <= i < j < |table| ==> table[i].0 != table[j].0)
    && (forall i :: 0 <= i < |table| ==> table[i].0 != 'x' && table[i].1 != 'x')
    && (forall i, j :: 0 <= i < |table| && 0 <= j < |table| ==> table[i].1 != table[j].0)
  }

  /** Where in the table a second character stands. */
  function Position(c: char): nat {
    match c
    case 'a' => 0
    case 'b' => 1
    case 'd' => 2
    case 'h' => 3
    case 'm' => 4
    case 'n' => 5
    case 'r' => 6
    case 'u' => 7
    case 'v' => 8
    case '2' => 9
    case 'x' => 11
    case _ => 10
  }

  lemma TablePositions()
    ensures Position('x') == 11
    ensures forall i :: 0 <= i < |TABLE| ==> Position(TABLE[i].0) == i && Position(TABLE[i].1) == |TABLE|
  {
  }

  lemma TableIsSeparated()
    ensures Separated(TABLE)
  {
    TablePositions();
    hide Position;
  }

  /** The first character of a pass over a nonempty string. */
  lemma OnePassHead(s: string, m: map<char, char>)
    requires s != []
    ensures OnePass(s, m) != []
    ensures OnePass(s, m)[0] == if |s| >= 2 && s[0] == 'x' && s[1] in m then m[s[1]] else s[0]
  {
  }

  /** Replacing one more token after a pass is the same as passing with that token too. */
  lemma {:induction false} ReplaceAfterPass(s: string, m: map<char, char>, t: char, c: char)
    requires t !in m && t != 'x' && 'x' !in m && forall u :: u in m ==> m[u] != 'x' && m[u] != t
    ensures Replace(OnePass(s, m), t, c) == OnePass(s, m[t := c])
    decreases |s|
  {
    if |s| >= 2 {
      if s[0] == 'x' && s[1] in m {
        ReplaceAfterPass(s[2..], m, t, c);
        ReplaceKeeps(m[s[1]], OnePass(s[2..], m), t, c);
      } else if s[0] == 'x' && s[1] == t {
        ReplaceAfterPass(s[2..], m, t, c);
        var rest := OnePass(s[2..], m);
        assert OnePass(s[1..], m) == [t] + rest;
        assert OnePass(s, m) == ['x', t] + rest;
        assert (['x', t] + rest)[2..] == rest;
      } else {
        ReplaceAfterPass(s[1..], m, t, c);
        OnePassHead(s[1..], m);
        ReplaceKeeps(s[0], OnePass(s[1..], m), t, c);
      }
    }
  }

  /** `Replace` keeps a first character that does not start a token. */
  lemma ReplaceKeeps(a: char, rest: string, t: char, c: char)
    requires a != 'x' || rest == [] || rest[0] != t
    ensures Replace([a] + rest, t, c) == [a] + Replace(rest, t, c)
  {
    assert ([a] + rest)[1..] == rest;
  }

  lemma {:induction false} OnePassEmpty(s: string)
    ensures OnePass(s, map[]) == s
    decreases |s|
  {
    if |s| >= 2 {
      OnePassEmpty(s[1..]);
    }
  }

  lemma {:induction false} AsMapHas(table: seq<(char, char)>)
    ensures forall t :: t in AsMap(table) ==> exists i :: 0 <= i < |table| && table[i] == (t, AsMap(table)[t])
    ensures forall i :: 0 <= i < |table| ==> table[i].0 in AsMap(table)
    decreases |table|
  {
    if table != [] {
      var n := |table| - 1;
      AsMapHas(table[..n]);
      forall t | t in AsMap(table)
        ensures exists i :: 0 <= i < |table| && table[i] == (t, AsMap(table)[t])
      {
        if t == table[n].0 {
          assert table[n] == (t, AsMap(table)[t]);
        } else {
          var i :| 0 <= i < n && table[..n][i] == (t, AsMap(table[..n])[t]);
          assert table[i] == (t, AsMap(table)[t]);
        }
      }
      forall i | 0 <= i < |table|
        ensures table[i].0 in AsMap(table)
      {
        if i < n {
          assert table[..n][i] == table[i];
        }
      }
    }
  }

  /** The passes of a separated table, whatever its order, amount to one pass. */
  lemma {:induction false} ManyPassesAreOne(s: string, table: seq<(char, char)>)
    requires Separated(table)
    ensures ReplaceAll(s, table) == OnePass(s, AsMap(table))
    decreases |table|
  {
    if table == [] {
      OnePassEmpty(s);
    } else {
      var n := |table| - 1;
      var init := table[..n];
      assert Separated(init);
      ManyPassesAreOne(s, init);
      AsMapHas(init);
      var m := AsMap(init);
      assert table[n].0 !in m;
      forall u | u in m
        ensures m[u] != 'x' && m[u] != table[n].0 && u != 'x'
      {
        var i :| 0 <= i < |init| && init[i] == (u, m[u]);
        assert table[i] == init[i];
      }
      ReplaceAfterPass(s, m, table[n].0, table[n].1);
    }
  }

  lemma AsMapAt(table: seq<(char, char)>, i: nat)
    requires Separated(table) && i < |table|
    ensures table[i].0 in AsMap(table) && AsMap(table)[table[i].0] == table[i].1
  {
    AsMapHas(table);
    var j :| 0 <= j < |table| && table[j] == (table[i].0, AsMap(table)[table[i].0]);
    assert j < i || i < j || i == j;
  }

  /** No entry occurs twice. */
  lemma {:induction false} OccursOnce(table: seq<(char, char)>, entry: (char, char))
    requires Separated(table)
    ensures multiset(table)[entry] <= 1
    decreases |table|
  {
    if table != [] {
      var n := |table| - 1;
      var init := table[..n];
      assert table == init + [table[n]];
      OccursOnce(init, entry);
      if entry in init {
        var i :| 0 <= i < n && init[i] == entry;
        assert table[i] == entry && table[i].0 != table[n].0;
      }
    }
  }

  lemma OccursTwice(table: seq<(char, char)>, i: nat, j: nat)
    requires i < j < |table| && table[i] == table[j]
    ensures multiset(table)[table[i]] >= 2
  {
    assert table == table[..j] + table[j..];
    assert table[..j][i] == table[i] && table[j..][0] == table[i];
    assert multiset(table) == multiset(table[..j]) + multiset(table[j..]);
  }

  lemma ReorderedEntry(a: seq<(char, char)>, b: seq<(char, char)>, j: nat) returns (i: nat)
    requires multiset(a) == multiset(b) && j < |b|
    ensures i < |a| && a[i] == b[j]
  {
    assert b[j] in multiset(b);
    i :| i < |a| && a[i] == b[j];
  }

  lemma ReorderedIsSeparated(a: seq<(char, char)>, b: seq<(char, char)>)
    requires Separated(a) && multiset(a) == multiset(b)
    ensures Separated(b)
  {
    forall i, j | 0 <= i < j < |b|
      ensures b[i].0 != b[j].0
    {
      var p := ReorderedEntry(a, b, i);
      var q := ReorderedEntry(a, b, j);
      if p == q {
        OccursTwice(b, i, j);
        OccursOnce(a, b[i]);
      }
    }
    forall i | 0 <= i < |b|
      ensures b[i].0 != 'x' && b[i].1 != 'x'
    {
      var _ := ReorderedEntry(a, b, i);
    }
    forall i, j | 0 <= i < |b| && 0 <= j < |b|
      ensures b[i].1 != b[j].0
    {
      var _ := ReorderedEntry(a, b, i);
      var _ := ReorderedEntry(a, b, j);
    }
  }

  lemma ReorderedMap(a: seq<(char, char)>, b: seq<(char, char)>)
    requires Separated(a) && multiset(a) == multiset(b)
    ensures forall t :: t in AsMap(b) ==> t in AsMap(a) && AsMap(a)[t] == AsMap(b)[t]
  {
    AsMapHas(b);
    hide AsMap, Separated;
    forall t | t in AsMap(b)
      ensures t in AsMap(a) && AsMap(a)[t] == AsMap(b)[t]
    {
      var j :| 0 <= j < |b| && b[j] == (t, AsMap(b)[t]);
      var i := ReorderedEntry(a, b, j);
      AsMapAt(a, i);
    }
  }

  /** In whatever order the replacements of the table are made, the result is the same. */
  lemma OrderDoesNotMatter(s: string, b: seq<(char, char)>)
    requires multiset(b) == multiset(TABLE)
    ensures ReplaceAll(s, b) == ReplaceAll(s, TABLE)
  {
    TableIsSeparated();
    var table := TABLE;
    hide AsMap, ReplaceAll, OnePass, Separated, TABLE;
    ReorderedIsSeparated(table, b);
    ReorderedMap(table, b);
    ReorderedMap(b, table);
    assert AsMap(b) == AsMap(table);
    ManyPassesAreOne(s, b);
    ManyPassesAreOne(s, table);
  }

  // ----- Escaping -----

  /** The second character of the token for `c`. */
  function TokenFor(c: char): Option<char> {
    match c
    case ' ' => Some('a')
    case '_' => Some('b')
    case '.' => Some('d')
    case '~' => Some('h')
    case '*' => Some('m')
    case '+' => Some('n')
    case '/' => Some('r')
    case '\\' => Some('u')
    case '=' => Some('v')
    case '[' => Some('2')
    case _ => None
  }

  function Unescape(): map<char, char> {
    AsMap(TABLE)
  }

  lemma TokenInTable(c: char) returns (i: nat)
    requires TokenFor(c) != None
    ensures i < |TABLE| && TABLE[i] == (TokenFor(c).value, c)
  {
    i := match c
      case ' ' => 0
      case '_' => 1
      case '.' => 2
      case '~' => 3
      case '*' => 4
      case '+' => 5
      case '/' => 6
      case '\\' => 7
      case '=' => 8
      case _ => 9;
  }

  /** Tokens and replacements are inverse to each other, and no second character is itself escaped. */
  lemma TokensInvert(c: char)
    ensures TokenFor(c) != None ==> TokenFor(c).value in Unescape() && Unescape()[TokenFor(c).value] == c
    ensures c in Unescape() ==> TokenFor(c) == None && c != 'x'
  {
    hide AsMap;
    TableIsSeparated();
    AsMapHas(TABLE);
    if TokenFor(c) != None {
      var i := TokenInTable(c);
      AsMapAt(TABLE, i);
    }
  }

  lemma TokensAre(c: char)
    ensures TokenFor(c) != None <==> c in [' ', '_', '.', '~', '*', '+', '/', '\\', '=', '[']
    ensures TokenFor(c) != None ==> TokenFor(c).value in ['a', 'b', 'd', 'h', 'm', 'n', 'r', 'u', 'v', '2']
  {
  }

  /** There are no other tokens than those of the ten characters that are escaped. */
  lemma TokensAreAll(t: char)
    ensures t in Unescape() <==> t in ['a', 'b', 'd', 'h', 'm', 'n', 'r', 'u', 'v', '2']
    ensures t in Unescape() ==> TokenFor(Unescape()[t]) == Some(t)
  {
    AsMapHas(TABLE);
    TableIsSeparated();
    hide AsMap;
    if t in Unescape() {
      var i :| 0 <= i < |TABLE| && TABLE[i] == (t, Unescape()[t]);
      TableEntry(i);
    }
    if t in ['a', 'b', 'd', 'h', 'm', 'n', 'r', 'u', 'v', '2'] {
      var i: nat :| i < 10 && ['a', 'b', 'd', 'h', 'm', 'n', 'r', 'u', 'v', '2'][i] == t;
      TableEntry(i);
    }
  }

  lemma TableEntry(i: nat)
    requires i < |TABLE|
    ensures |TABLE| == 10 && TABLE[i].0 == ['a', 'b', 'd', 'h', 'm', 'n', 'r', 'u', 'v', '2'][i]
    ensures TokenFor(TABLE[i].1) == Some(TABLE[i].0)
  {
  }

  /** The name as TIA Portal writes it, without its checksum. */
  function Escape(n: string): string {
    if n == [] then []
    else match TokenFor(n[0])
      case Some(t) => ['x', t] + Escape(n[1..])
      case None => [n[0]] + Escape(n[1..])
  }

  /** How often a literal "x" is followed by the second character of a token. */
  function LookAlikes(n: string): nat
    decreases |n|
  {
    if |n| < 2 then 0
    else if n[0] == 'x' && n[1] in Unescape() then 1 + LookAlikes(n[2..])
    else LookAlikes(n[1..])
  }

  ghost predicate HasLookAlike(n: string) {
    exists i :: 0 <= i < |n| - 1 && n[i] == 'x' && n[i + 1] in Unescape()
  }

  predicate IsTokenChar(t: char) {
    t in ['a', 'b', 'd', 'h', 'm', 'n', 'r', 'u', 'v', '2']
  }

  /** In the characters themselves. */
  lemma HasLookAlikeIff(n: string)
    ensures HasLookAlike(n) <==> exists i :: 0 <= i < |n| - 1 && n[i] == 'x' && IsTokenChar(n[i + 1])
  {
    forall t: char
      ensures t in Unescape() <==> IsTokenChar(t)
    {
      TokensAreAll(t);
    }
    hide Unescape, IsTokenChar;
    if i :| 0 <= i < |n| - 1 && n[i] == 'x' && n[i + 1] in Unescape() {
      assert IsTokenChar(n[i + 1]);
    }
    if i :| 0 <= i < |n| - 1 && n[i] == 'x' && IsTokenChar(n[i + 1]) {
      assert n[i + 1] in Unescape();
    }
  }

  lemma {:induction false} LookAlikesCount(n: string)
    ensures LookAlikes(n) > 0 <==> HasLookAlike(n)
    decreases |n|
  {
    hide AsMap;
    if |n| >= 2 {
      if n[0] == 'x' && n[1] in Unescape() {
        assert HasLookAlike(n);
      } else {
        LookAlikesCount(n[1..]);
        if i :| 0 <= i < |n| - 1 && n[i] == 'x' && n[i + 1] in Unescape() {
          assert i > 0 && n[1..][i - 1] == 'x' && n[1..][i - 1 + 1] == n[i + 1];
        }
        if i :| 0 <= i < |n[1..]| - 1 && n[1..][i] == 'x' && n[1..][i + 1] in Unescape() {
          assert n[i + 1] == 'x' && n[i + 1 + 1] == n[1..][i + 1];
        }
      }
    }
  }

  lemma OnePassToken(t: char, rest: string, m: map<char, char>)
    requires t in m
    ensures OnePass(['x', t] + rest, m) == [m[t]] + OnePass(rest, m)
  {
    assert (['x', t] + rest)[2..] == rest;
  }

  lemma OnePassLiteral(c: char, rest: string, m: map<char, char>)
    requires c != 'x' || rest == [] || rest[0] !in m
    ensures OnePass([c] + rest, m) == [c] + OnePass(rest, m)
  {
    assert ([c] + rest)[1..] == rest;
  }

  lemma EscapeHead(n: string)
    requires n != []
    ensures Escape(n) != [] && Escape(n)[0] == if TokenFor(n[0]) == None then n[0] else 'x'
  {
  }

  lemma XIsLiteral()
    ensures TokenFor('x') == None
  {
  }

  /** Unescaping an escaped name loses exactly one character for each look-alike, and nothing otherwise. */
  lemma {:induction false} UnescapeEscape(n: string)
    ensures |OnePass(Escape(n), Unescape())| == |n| - LookAlikes(n)
    ensures LookAlikes(n) == 0 ==> OnePass(Escape(n), Unescape()) == n
    decreases |n|
  {
    hide AsMap, OnePass, TokenFor, Unescape;
    var m := Unescape();
    XIsLiteral();
    if n == [] {
      OnePassShort(n, m);
    } else {
      TokensInvert(n[0]);
      if TokenFor(n[0]) != None {
        UnescapeEscape(n[1..]);
        OnePassToken(TokenFor(n[0]).value, Escape(n[1..]), m);
        assert LookAlikes(n) == LookAlikes(n[1..]);
      } else if |n| >= 2 && n[0] == 'x' && n[1] in m {
        TokensInvert(n[1]);
        UnescapeEscape(n[2..]);
        assert n[1..][1..] == n[2..];
        assert Escape(n) == ['x'] + ([n[1]] + Escape(n[2..])) == ['x', n[1]] + Escape(n[2..]);
        OnePassToken(n[1], Escape(n[2..]), m);
      } else {
        UnescapeEscape(n[1..]);
        if |n| >= 2 {
          EscapeHead(n[1..]);
        }
        OnePassLiteral(n[0], Escape(n[1..]), m);
        assert LookAlikes(n) == LookAlikes(n[1..]);
      }
    }
  }

  lemma OnePassShort(s: string, m: map<char, char>)
    requires |s| < 2
    ensures OnePass(s, m) == s
  {
  }

  // ----- Labels -----

  predicate IsAscii(s: string) {
    forall i :: 0 <= i < |s| ==> s[i] < 128 as char
  }

  function ByteOf(c: char): bv8
    requires c < 128 as char
  {
    c as bv8
  }

  function CharOf(b: bv8): char {
    b as char
  }

  lemma ByteRoundTrip(c: char)
    requires c < 128 as char
    ensures CharOf(ByteOf(c)) == c
  {
  }

  function Encode(s: string): (b: seq<bv8>)
    requires IsAscii(s)
  {
    seq(|s|, i requires 0 <= i < |s| => ByteOf(s[i]))
  }

  function HexDigit(n: bv16): char {
    if n == 0 then '0' else if n == 1 then '1' else if n == 2 then '2' else if n == 3 then '3'
    else if n == 4 then '4' else if n == 5 then '5' else if n == 6 then '6' else if n == 7 then '7'
    else if n == 8 then '8' else if n == 9 then '9' else if n == 10 then 'a' else if n == 11 then 'b'
    else if n == 12 then 'c' else if n == 13 then 'd' else if n == 14 then 'e' else 'f'
  }

  function Nibble0(x: bv16): bv16 {
    x & 15
  }

  function Nibble1(x: bv16): bv16 {
    (x >> 4) & 15
  }

  function Nibble2(x: bv16): bv16 {
    (x >> 8) & 15
  }

  function Nibble3(x: bv16): bv16 {
    x >> 12
  }

  /** `f"{crc:04x}"`. */
  function Hex4(crc: bv16): (s: string) {
    [HexDigit(Nibble3(crc)), HexDigit(Nibble2(crc)), HexDigit(Nibble1(crc)), HexDigit(Nibble0(crc))]
  }

  lemma HexDigitInjective(n: bv16, m: bv16)
    requires n <= 15 && m <= 15 && HexDigit(n) == HexDigit(m)
    ensures n == m
  {
  }

  lemma HexDigitSays(n: bv16)
    requires n <= 15
    ensures HexDigit(n) == "0123456789abcdef"[n as int]
  {
  }

  /** Four lower-case hexadecimal digits, the most significant first. */
  lemma Hex4Says(x: bv16)
    ensures Hex4(x) == ["0123456789abcdef"[(x >> 12) as int], "0123456789abcdef"[((x >> 8) & 15) as int],
                        "0123456789abcdef"[((x >> 4) & 15) as int], "0123456789abcdef"[(x & 15) as int]]
  {
    hide HexDigit;
    NibbleBounds(x);
    HexDigitSays(x >> 12);
    HexDigitSays((x >> 8) & 15);
    HexDigitSays((x >> 4) & 15);
    HexDigitSays(x & 15);
  }

  lemma NibbleBounds(x: bv16)
    ensures Nibble0(x) <= 15 && Nibble1(x) <= 15 && Nibble2(x) <= 15 && Nibble3(x) <= 15
  {
  }

  lemma NibblesDetermine(x: bv16, y: bv16)
    requires Nibble0(x) == Nibble0(y) && Nibble1(x) == Nibble1(y) && Nibble2(x) == Nibble2(y) && Nibble3(x) == Nibble3(y)
    ensures x == y
  {
  }

  lemma Hex4Injective(x: bv16, y: bv16)
    requires Hex4(x) == Hex4(y)
    ensures x == y
  {
    hide HexDigit, Nibble0, Nibble1, Nibble2, Nibble3;
    assert Hex4(x)[0] == Hex4(y)[0] && Hex4(x)[1] == Hex4(y)[1] && Hex4(x)[2] == Hex4(y)[2] && Hex4(x)[3] == Hex4(y)[3];
    NibbleBounds(x);
    NibbleBounds(y);
    HexDigitInjective(Nibble3(x), Nibble3(y));
    HexDigitInjective(Nibble2(x), Nibble2(y));
    HexDigitInjective(Nibble1(x), Nibble1(y));
    HexDigitInjective(Nibble0(x), Nibble0(y));
    NibblesDetermine(x, y);
  }

  const SUFFIX_LEN := 4

  /** `_decode_siemens_escape_label`.  (A suffix equal to the formatted checksum is a hex number.) */
  function DecodeLabel(lbl: string): (r: Option<string>) {
    if |lbl| <= SUFFIX_LEN then None
    else
      var body, suffix := lbl[..|lbl| - SUFFIX_LEN], lbl[|lbl| - SUFFIX_LEN..];
      if !IsAscii(body) then None
      else if Hex4(Crc(Encode(body))) != suffix then None
      else Some(ReplaceAll(body, TABLE))
  }

  lemma DecodeBodyAndSuffix(body: string, suffix: string)
    requires |suffix| == SUFFIX_LEN && body != []
    ensures DecodeLabel(body + suffix) ==
            if IsAscii(body) && Hex4(Crc(Encode(body))) == suffix then Some(ReplaceAll(body, TABLE)) else None
  {
    assert (body + suffix)[..|body|] == body && (body + suffix)[|body|..] == suffix;
  }

  lemma EncodeAt(s: string, i: nat)
    requires IsAscii(s) && i < |s|
    ensures CharOf(Encode(s)[i]) == s[i]
  {
    ByteRoundTrip(s[i]);
  }

  lemma EncodeConcat(a: string, b: string)
    requires IsAscii(a + b)
    ensures IsAscii(a) && IsAscii(b) && Encode(a + b) == Encode(a) + Encode(b)
  {
    hide ByteOf;
    assert forall i :: 0 <= i < |a| ==> (a + b)[i] == a[i];
    assert forall i :: 0 <= i < |b| ==> (a + b)[|a| + i] == b[i];
  }

  /**
   The checksum gate: with its four-character suffix kept, a label that decodes stops decoding when
   two adjacent characters of its body are changed in any way, or when one is.
   */
  lemma ChangedLabelIsRejected(pre: string, change: string, change': string, post: string, suffix: string)
    requires |change| == |change'| && 1 <= |change| <= 2 && change != change' && |suffix| == SUFFIX_LEN
    requires DecodeLabel(pre + change + post + suffix) != None
    ensures DecodeLabel(pre + change' + post + suffix) == None
  {
    hide Crc, Hex4, Encode, IsAscii, DecodeLabel, ReplaceAll;
    var body, body' := pre + change + post, pre + change' + post;
    DecodeBodyAndSuffix(body, suffix);
    DecodeBodyAndSuffix(body', suffix);
    if DecodeLabel(body' + suffix) != None {
      Hex4Injective(Crc(Encode(body)), Crc(Encode(body')));
      SameCrcSameChange(pre, change, change', post);
      assert false;
    }
  }

  lemma SameCrcSameChange(pre: string, change: string, change': string, post: string)
    requires |change| == |change'| && 1 <= |change| <= 2
    requires IsAscii(pre + change + post) && IsAscii(pre + change' + post)
    requires Crc(Encode(pre + change + post)) == Crc(Encode(pre + change' + post))
    ensures change == change'
  {
    hide Crc, ByteOf, CharOf;
    EncodeConcat(pre + change, post);
    EncodeConcat(pre, change);
    EncodeConcat(pre + change', post);
    EncodeConcat(pre, change');
    var p, q, c, c' := Encode(pre), Encode(post), Encode(change), Encode(change');
    EncodeAt(change, 0);
    EncodeAt(change', 0);
    if |change| == 1 {
      assert c == [c[0]] && c' == [c'[0]];
      CrcDetectsChange(p, c[0], c'[0], q);
    } else {
      EncodeAt(change, 1);
      EncodeAt(change', 1);
      assert c == [c[0], c[1]] && c' == [c'[0], c'[1]];
      CrcDetectsAdjacentChange(p, c[0], c[1], c'[0], c'[1], q);
    }
  }

  // ----- Station names -----

  function Split(s: string, sep: char): (parts: seq<string>)
    ensures parts != []
    decreases |s|
  {
    if s == [] then [[]]
    else
      var rest := Split(s[1..], sep);
      if s[0] == sep then [[]] + rest else [[s[0]] + rest[0]] + rest[1..]
  }

  function Join(parts: seq<string>, sep: char): string {
    if parts == [] then []
    else if |parts| == 1 then parts[0]
    else parts[0] + [sep] + Join(parts[1..], sep)
  }

  const IDNA_PREFIX := "xn--"

  /** `_decode_idna_label`; `idna` is the standard codec, None where it raises. */
  function DecodeIdna(lbl: string, idna: string -> Option<string>): Option<string> {
    if IDNA_PREFIX <= lbl then idna(lbl) else None
  }

  function DecodeOne(lbl: string, idna: string -> Option<string>): Option<string> {
    var decoded := DecodeIdna(lbl, idna);
    if decoded == None then DecodeLabel(lbl) else decoded
  }

  function OneOrRaw(lbl: string, idna: string -> Option<string>): string {
    var decoded := DecodeOne(lbl, idna);
    if decoded == None then lbl else decoded.value
  }

  function DecodedOrRaw(labels: seq<string>, idna: string -> Option<string>): seq<string> {
    seq(|labels|, i requires 0 <= i < |labels| => OneOrRaw(labels[i], idna))
  }

  ghost predicate SomeDecode(labels: seq<string>, idna: string -> Option<string>) {
    exists i :: 0 <= i < |labels| && DecodeOne(labels[i], idna) != None
  }

  /** What a raw name decodes to; None when nothing in it does. */
  ghost function StationName(rawName: Option<string>, idna: string -> Option<string>): Option<string> {
    if rawName == None || rawName.value == "" then None
    else
      var labels := Split(rawName.value, '.');
      if SomeDecode(labels, idna) then Some(Join(DecodedOrRaw(labels, idna), '.')) else None
  }

  /** `_decode_siemens_station_name`. */
  method DecodeStationName(rawName: Option<string>, idna: string -> Option<string>) returns (r: Option<string>)
    ensures r == StationName(rawName, idna)
  {
    hide DecodeOne, Split, Join;
    if rawName == None || rawName.value == "" {
      return None;
    }
    var labels := Split(rawName.value, '.');
    var changed := false;
    var decodedLabels := [];
    for i := 0 to |labels|
      invariant |decodedLabels| == i && forall k :: 0 <= k < i ==> decodedLabels[k] == OneOrRaw(labels[k], idna)
      invariant changed <==> exists k :: 0 <= k < i && DecodeOne(labels[k], idna) != None
    {
      var decoded := DecodeOne(labels[i], idna);
      if decoded != None {
        changed := true;
      }
      decodedLabels := decodedLabels + [if decoded != None then decoded.value else labels[i]];
    }
    assert decodedLabels == DecodedOrRaw(labels, idna);
    r := if changed then Some(Join(decodedLabels, '.')) else None;
  }

  /** Which of the two decodings a label gets, and when it is left as it is. */
  lemma LabelDecodes(lbl: string, idna: string -> Option<string>)
    ensures "xn--" <= lbl && idna(lbl) != None ==> DecodeOne(lbl, idna) == idna(lbl)
    ensures !("xn--" <= lbl && idna(lbl) != None) ==> DecodeOne(lbl, idna) == DecodeLabel(lbl)
    ensures DecodeOne(lbl, idna) == None ==> OneOrRaw(lbl, idna) == lbl
    ensures DecodeOne(lbl, idna) != None ==> Some(OneOrRaw(lbl, idna)) == DecodeOne(lbl, idna)
  {
  }

  /**
   A name decodes exactly when one of its labels does by one of the two decodings; what it decodes to
   splits into as many labels again when none of them gains a dot, each decoded or as it was.
   */
  lemma NameDecodesIff(rawName: Option<string>, idna: string -> Option<string>)
    ensures StationName(rawName, idna) != None <==>
            rawName != None && rawName.value != "" &&
            exists lbl :: lbl in Split(rawName.value, '.') && (DecodeLabel(lbl) != None || ("xn--" <= lbl && idna(lbl) != None))
    ensures StationName(rawName, idna) != None ==>
            var labels := Split(rawName.value, '.');
            (forall i :: 0 <= i < |labels| ==> '.' !in OneOrRaw(labels[i], idna)) ==>
            var decoded := Split(StationName(rawName, idna).value, '.');
            |decoded| == |labels| && forall i :: 0 <= i < |labels| ==> decoded[i] == OneOrRaw(labels[i], idna)
  {
    hide Split, Join, DecodeLabel;
    if rawName != None && rawName.value != "" {
      var labels := Split(rawName.value, '.');
      if exists lbl :: lbl in labels && (DecodeLabel(lbl) != None || ("xn--" <= lbl && idna(lbl) != None)) {
        var lbl :| lbl in labels && (DecodeLabel(lbl) != None || ("xn--" <= lbl && idna(lbl) != None));
        var i :| 0 <= i < |labels| && labels[i] == lbl;
        assert DecodeOne(labels[i], idna) != None;
      }
      if SomeDecode(labels, idna) {
        var i :| 0 <= i < |labels| && DecodeOne(labels[i], idna) != None;
        assert labels[i] in labels;
        if forall j :: 0 <= j < |labels| ==> '.' !in OneOrRaw(labels[j], idna) {
          SplitJoin(DecodedOrRaw(labels, idna), '.');
        }
      }
    }
  }

  lemma {:induction false} EscapeIsAscii(n: string)
    requires IsAscii(n)
    ensures IsAscii(Escape(n)) && '.' !in Escape(n)
    decreases |n|
  {
    if n != [] {
      EscapeIsAscii(n[1..]);
    }
  }

  /** The converted name of TIA Portal: escaped, with the checksum of the escaped name. */
  function Converted(n: string): string
    requires IsAscii(n)
  {
    EscapeIsAscii(n);
    Escape(n) + Hex4(Crc(Encode(Escape(n))))
  }

  lemma {:induction false} SplitWhole(s: string, sep: char)
    requires sep !in s
    ensures Split(s, sep) == [s]
    decreases |s|
  {
    if s != [] {
      SplitWhole(s[1..], sep);
      assert [s[0]] + s[1..] == s;
    }
  }

  lemma HexDigitIsNotDot(n: bv16)
    ensures HexDigit(n) != '.' && HexDigit(n) != '-'
  {
  }

  lemma HexHasNoDot(x: bv16)
    ensures '.' !in Hex4(x) && '-' !in Hex4(x) && |Hex4(x)| == SUFFIX_LEN
  {
    hide HexDigit, Nibble0, Nibble1, Nibble2, Nibble3;
    HexDigitIsNotDot(Nibble0(x));
    HexDigitIsNotDot(Nibble1(x));
    HexDigitIsNotDot(Nibble2(x));
    HexDigitIsNotDot(Nibble3(x));
  }

  /** Only an escaped name that begins like an IDNA label is taken for one. */
  lemma ConvertedIdnaPrefix(n: string)
    requires IsAscii(n)
    ensures IDNA_PREFIX <= Converted(n) <==> IDNA_PREFIX <= Escape(n)
  {
    hide Hex4, Escape, Crc, Encode, IsAscii;
    EscapeIsAscii(n);
    var e, h := Escape(n), Hex4(Crc(Encode(Escape(n))));
    HexHasNoDot(Crc(Encode(Escape(n))));
    var c := Converted(n);
    if |e| < 4 {
      assert c[3] == h[3 - |e|];
    }
    if |e| >= 4 {
      assert c[..4] == e[..4];
    }
  }

  /**
   Decoding a converted name: for every nonempty ASCII name whose converted form is not claimed by
   IDNA, decoding yields a name, and it is the original exactly when the name contains no "x"
   followed by the second character of a token.
   */
  lemma StationNameRoundTrip(n: string, idna: string -> Option<string>)
    requires n != "" && IsAscii(n)
    requires DecodeIdna(Converted(n), idna) == None
    ensures StationName(Some(Converted(n)), idna) != None
    ensures StationName(Some(Converted(n)), idna) == Some(n) <==> !HasLookAlike(n)
  {
    hide Split, Hex4, Crc, Encode, IsAscii, ReplaceAll, Escape, LookAlikes, HasLookAlike, AsMap;
    EscapeIsAscii(n);
    var e, lbl := Escape(n), Converted(n);
    EscapeHead(n);
    HexHasNoDot(Crc(Encode(e)));
    SplitWhole(lbl, '.');
    DecodeBodyAndSuffix(e, Hex4(Crc(Encode(e))));
    TableIsSeparated();
    ManyPassesAreOne(e, TABLE);
    UnescapeEscape(n);
    LookAlikesCount(n);
    assert DecodeOne(lbl, idna) == Some(ReplaceAll(e, TABLE));
    assert DecodedOrRaw([lbl], idna) == [ReplaceAll(e, TABLE)];
    assert DecodeOne([lbl][0], idna) != None;
  }

  /** The shortest name that is lost: "xa" converts to itself and decodes to a space. */
  lemma LookAlikeIsLost(idna: string -> Option<string>)
    ensures Converted("xa") == "xa" + Hex4(Crc(Encode("xa")))
    ensures StationName(Some(Converted("xa")), idna) != None && StationName(Some(Converted("xa")), idna) != Some("xa")
    ensures OnePass("xa", Unescape()) == " "
  {
    hide Hex4, Crc, Encode, StationName, AsMap;
    EscapeOfXa();
    ConvertedIdnaPrefix("xa");
    assert !(IDNA_PREFIX <= Escape("xa"));
    XaIsLookAlike();
    StationNameRoundTrip("xa", idna);
  }

  lemma EscapeOfXa()
    ensures Escape("xa") == "xa" && IsAscii("xa")
  {
    hide AsMap;
    assert "xa"[1..] == "a" && "a"[1..] == [];
    assert Escape("a") == ['a'] + Escape([]);
    assert Escape("xa") == ['x'] + Escape("a");
  }

  lemma XaIsLookAlike()
    ensures HasLookAlike("xa") && OnePass("xa", Unescape()) == " "
  {
    TableIsSeparated();
    hide AsMap;
    AsMapAt(TABLE, 0);
    assert "xa"[0] == 'x' && "xa"[0 + 1] == 'a' && 'a' in Unescape() && Unescape()['a'] == ' ';
    assert "xa" == ['x', 'a'] + [];
    OnePassToken('a', [], Unescape());
  }

  lemma {:induction false} SplitPrepend(a: string, rest: string, sep: char)
    requires sep !in a
    ensures Split(a + [sep] + rest, sep) == [a] + Split(rest, sep)
    decreases |a|
  {
    var s := a + [sep] + rest;
    if a == [] {
      assert s[1..] == rest;
    } else {
      assert s[1..] == a[1..] + [sep] + rest;
      SplitPrepend(a[1..], rest, sep);
      assert [a[0]] + a[1..] == a;
    }
  }

  /** Splitting undoes joining. */
  lemma {:induction false} SplitJoin(parts: seq<string>, sep: char)
    requires parts != [] && forall i :: 0 <= i < |parts| ==> sep !in parts[i]
    ensures Split(Join(parts, sep), sep) == parts
    decreases |parts|
  {
    if |parts| == 1 {
      SplitWhole(parts[0], sep);
    } else {
      SplitJoin(parts[1..], sep);
      SplitPrepend(parts[0], Join(parts[1..], sep), sep);
    }
  }

  /** A name the conversion round trip covers. */
  ghost predicate Convertible(n: string, idna: string -> Option<string>) {
    n != "" && IsAscii(n) && !HasLookAlike(n) && DecodeIdna(Converted(n), idna) == None
  }

  ghost function ConvertedAll(names: seq<string>, idna: string -> Option<string>): seq<string>
    requires forall i :: 0 <= i < |names| ==> Convertible(names[i], idna)
  {
    seq(|names|, i requires 0 <= i < |names| && Convertible(names[i], idna) => Converted(names[i]))
  }

  lemma EachDecodes(names: seq<string>, idna: string -> Option<string>)
    requires forall i :: 0 <= i < |names| ==> Convertible(names[i], idna)
    ensures DecodedOrRaw(ConvertedAll(names, idna), idna) == names
    ensures forall i :: 0 <= i < |names| ==> '.' !in ConvertedAll(names, idna)[i]
    ensures names != [] ==> SomeDecode(ConvertedAll(names, idna), idna) && ConvertedAll(names, idna)[0] != ""
  {
    hide Converted, DecodeOne, HasLookAlike;
    forall i | 0 <= i < |names|
      ensures '.' !in ConvertedAll(names, idna)[i] && ConvertedAll(names, idna)[i] != ""
      ensures DecodeOne(ConvertedAll(names, idna)[i], idna) == Some(names[i])
    {
      OneDecodes(names[i], idna);
    }
    if names != [] {
      assert DecodeOne(ConvertedAll(names, idna)[0], idna) != None;
    }
  }

  lemma OneDecodes(n: string, idna: string -> Option<string>)
    requires Convertible(n, idna)
    ensures '.' !in Converted(n) && Converted(n) != "" && DecodeOne(Converted(n), idna) == Some(n)
  {
    hide Hex4, Crc, Encode, IsAscii, Escape, HasLookAlike, DecodeOne, Split;
    EscapeIsAscii(n);
    HexHasNoDot(Crc(Encode(Escape(n))));
    SplitWhole(Converted(n), '.');
    StationNameRoundTrip(n, idna);
    var i :| 0 <= i < 1 && DecodeOne([Converted(n)][i], idna) != None;
    assert DecodedOrRaw([Converted(n)], idna) == [OneOrRaw(Converted(n), idna)];
  }

  /** A dotted name, converted component by component, decodes to itself. */
  lemma DottedNameRoundTrip(names: seq<string>, idna: string -> Option<string>)
    requires names != [] && forall i :: 0 <= i < |names| ==> Convertible(names[i], idna)
    ensures StationName(Some(Join(ConvertedAll(names, idna), '.')), idna) == Some(Join(names, '.'))
  {
    hide DecodeOne, Convertible, Join, Split, SomeDecode;
    EachDecodes(names, idna);
    SplitJoin(ConvertedAll(names, idna), '.');
    SplitWhole("", '.');
  }
}
