/** JavaScript string and boolean literals (quoteJSString, parseJSString, unescapeJSString and
    parseJSBool of internal/service/logging.go).  Text is a sequence of code points. */
module JsString {
  import opened Wrappers
  import opened JsScan

  // ---------- White space ----------

  /** The white space that is trimmed around a literal. */
  predicate IsWhite(c: char) {
    || '\t' <= c <= '\r' || c == ' ' || c == '\U{85}' || c == '\U{A0}' || c == '\U{1680}'
    || '\U{2000}' <= c <= '\U{200A}' || c == '\U{2028}' || c == '\U{2029}' || c == '\U{202F}'
    || c == '\U{205F}' || c == '\U{3000}'
  }

  function TrimLeft(s: string): string {
    if s != [] && IsWhite(s[0]) then TrimLeft(s[1..]) else s
  }

  function TrimRight(s: string): string {
    if s != [] && IsWhite(s[|s| - 1]) then TrimRight(s[..|s| - 1]) else s
  }

  function TrimSpace(s: string): string { TrimRight(TrimLeft(s)) }

  /** Nothing is trimmed before a text that does not start with white space. */
  lemma {:induction false} TrimSpaceKeeps(s: string)
    requires s != [] && !IsWhite(s[0])
    ensures TrimSpace(s) <= s && TrimSpace(s) != []
    ensures !IsWhite(s[|s| - 1]) ==> TrimSpace(s) == s
    ensures forall k :: |TrimSpace(s)| <= k < |s| ==> IsWhite(s[k])
    decreases |s|
  {
    if IsWhite(s[|s| - 1]) {
      var init := s[..|s| - 1];
      TrimSpaceKeeps(init);
      assert TrimSpace(s) == TrimSpace(init);
    }
  }

  // ---------- Quoting ----------

  function HexDigit(n: nat): char
    requires n < 16
  {
    if n < 10 then '0' + n as char else 'a' + (n - 10) as char
  }

  function EscapeChar(c: char): string {
    if c == '\\' then "\\\\"
    else if c == '\'' then "\\'"
    else if c == '\n' then "\\n"
    else if c == '\r' then "\\r"
    else if c == '\t' then "\\t"
    else if c < ' ' then "\\u00" + [HexDigit(c as nat / 16), HexDigit(c as nat % 16)]
    else [c]
  }

  function Escaped(s: string): string {
    if s == [] then [] else EscapeChar(s[0]) + Escaped(s[1..])
  }

  function Quoted(s: string): string { "'" + Escaped(s) + "'" }

  lemma {:induction false} EscapedAppend(a: string, b: string)
    ensures Escaped(a + b) == Escaped(a) + Escaped(b)
  {
    if a == [] {
      assert a + b == b;
    } else {
      assert (a + b)[1..] == a[1..] + b;
      EscapedAppend(a[1..], b);
    }
  }

  lemma {:induction false} EscapedSnoc(s: string, i: nat)
    requires i < |s|
    ensures Escaped(s[..i + 1]) == Escaped(s[..i]) + EscapeChar(s[i])
  {
    assert s[..i + 1] == s[..i] + [s[i]];
    EscapedAppend(s[..i], [s[i]]);
    assert Escaped([s[i]]) == EscapeChar(s[i]) + Escaped([]);
  }

  method QuoteString(value: string) returns (r: string)
    ensures r == Quoted(value)
  {
    r := "'";
    for i := 0 to |value|
      invariant r == "'" + Escaped(value[..i])
    {
      EscapedSnoc(value, i);
      r := r + EscapeChar(value[i]);
    }
    assert value[..|value|] == value;
    r := r + "'";
  }

  // ---------- Reading ----------

  function HexValue(c: char): Option<nat> {
    if '0' <= c <= '9' then Some((c - '0') as nat)
    else if 'a' <= c <= 'f' then Some((c - 'a') as nat + 10)
    else if 'A' <= c <= 'F' then Some((c - 'A') as nat + 10)
    else None
  }

  /** Four hexadecimal digits. */
  function ParseHex(s: string): (r: Option<nat>)
    requires |s| == 4
    ensures r.Some? ==> r.value < 0x1_0000
  {
    var a, b, c, d := HexValue(s[0]), HexValue(s[1]), HexValue(s[2]), HexValue(s[3]);
    if a.Some? && b.Some? && c.Some? && d.Some? then
      Some(((a.value * 16 + b.value) * 16 + c.value) * 16 + d.value)
    else None
  }

  /** A code unit written as a character; half of a surrogate pair becomes the replacement
      character. */
  function Rune(code: nat): char
    requires code < 0x1_0000
  {
    if 0xD800 <= code < 0xE000 then '\U{FFFD}' else code as char
  }

  /** What the escape at the front of the text stands for, and how long it is. */
  function EscapeAt(v: string): (r: (char, nat))
    requires |v| >= 2
    ensures 2 <= r.1 <= |v|
  {
    match v[1]
    case 'n' => ('\n', 2)
    case 'r' => ('\r', 2)
    case 't' => ('\t', 2)
    case 'b' => ('\U{8}', 2)
    case 'f' => ('\U{C}', 2)
    case '0' => ('\0', 2)
    case 'u' =>
      if |v| >= 6 && ParseHex(v[2..6]).Some? then (Rune(ParseHex(v[2..6]).value), 6) else ('u', 2)
    case c => (c, 2)
  }

  function Unescape(v: string): string
    decreases |v|
  {
    if v == [] then []
    else if v[0] != '\\' || |v| == 1 then [v[0]] + Unescape(v[1..])
    else [EscapeAt(v).0] + Unescape(v[EscapeAt(v).1..])
  }

  /** What each escape stands for: the named control characters, the zero character, a code unit of four
      digits with half a surrogate pair replaced, and otherwise the character itself. */
  lemma {:induction false} EscapesMean(c: char, rest: string)
    ensures Unescape(['\\', 'n'] + rest) == ['\n'] + Unescape(rest)
    ensures Unescape(['\\', 'r'] + rest) == ['\r'] + Unescape(rest)
    ensures Unescape(['\\', 't'] + rest) == ['\t'] + Unescape(rest)
    ensures Unescape(['\\', 'b'] + rest) == ['\U{8}'] + Unescape(rest)
    ensures Unescape(['\\', 'f'] + rest) == ['\U{C}'] + Unescape(rest)
    ensures Unescape(['\\', '0'] + rest) == ['\0'] + Unescape(rest)
    ensures c !in ['n', 'r', 't', 'b', 'f', '0', 'u'] ==> Unescape(['\\', c] + rest) == [c] + Unescape(rest)
  {
    forall e: char ensures (['\\', e] + rest)[2..] == rest && (['\\', e] + rest)[1] == e {}
  }

  lemma {:induction false} UnicodeMeans(digits: string, rest: string)
    requires |digits| == 4
    ensures var v := ['\\', 'u'] + digits + rest; var code := ParseHex(digits);
      && (code.None? ==> Unescape(v) == ['u'] + Unescape(digits + rest))
      && (code.Some? && 0xD800 <= code.value < 0xE000 ==> Unescape(v) == ['\U{FFFD}'] + Unescape(rest))
      && (code.Some? && !(0xD800 <= code.value < 0xE000) ==> Unescape(v) == [code.value as char] + Unescape(rest))
  {
    var v := ['\\', 'u'] + digits + rest;
    assert v[2..6] == digits && v[6..] == rest && v[2..] == digits + rest;
  }

  lemma {:induction false} UnescapeTurn(value: string, i: nat)
    requires i < |value|
    ensures Unescape(value[i..]) ==
      if value[i] != '\\' || i + 1 >= |value| then [value[i]] + Unescape(value[i + 1..])
      else [EscapeAt(value[i..]).0] + Unescape(value[i + EscapeAt(value[i..]).1..])
  {
    var v := value[i..];
    if value[i] != '\\' || i + 1 >= |value| {
      assert v[1..] == value[i + 1..];
    } else {
      assert v[EscapeAt(v).1..] == value[i + EscapeAt(v).1..];
    }
  }

  lemma {:induction false} Onward(r: string, c: char, rest: string)
    ensures (r + [c]) + rest == r + ([c] + rest)
  {}

  /** One turn of the loop: the next character and where to go on. */
  method UnescapeNext(value: string, i: nat) returns (c: char, next: nat)
    requires i < |value|
    ensures i < next <= |value| && Unescape(value[i..]) == [c] + Unescape(value[next..])
  {
    UnescapeTurn(value, i);
    if value[i] != '\\' || i + 1 >= |value| { return value[i], i + 1; }
    var (e, n) := EscapeAt(value[i..]);
    return e, i + n;
  }

  method UnescapeString(value: string) returns (r: string)
    ensures r == Unescape(value)
  {
    r := [];
    var i := 0;
    while i < |value|
      invariant i <= |value| && r + Unescape(value[i..]) == Unescape(value)
    {
      var c, next := UnescapeNext(value, i);
      Onward(r, c, Unescape(value[next..]));
      r := r + [c];
      i := next;
    }
  }

  /** A single- or double-quoted literal. */
  function ParseString(raw: string): Option<string> {
    var trimmed := TrimSpace(raw);
    if |trimmed| < 2 || !IsQuote(trimmed[0]) || trimmed[|trimmed| - 1] != trimmed[0] then None
    else Some(Unescape(trimmed[1..|trimmed| - 1]))
  }

  function ParseBool(raw: string): Option<bool> {
    if TrimSpace(raw) == "true" then Some(true) else if TrimSpace(raw) == "false" then Some(false) else None
  }

  function BoolText(flag: bool): string { if flag then "true" else "false" }

  // ---------- The round trip ----------

  lemma {:induction false} HexRoundTrip(n: nat)
    requires n < 0x20
    ensures ParseHex(['0', '0', HexDigit(n / 16), HexDigit(n % 16)]) == Some(n)
  {
    assert HexValue(HexDigit(n / 16)) == Some(n / 16);
    assert HexValue(HexDigit(n % 16)) == Some(n % 16);
  }

  lemma {:induction false} UnescapeChar(c: char, rest: string)
    ensures Unescape(EscapeChar(c) + rest) == [c] + Unescape(rest)
  {
    var e := EscapeChar(c);
    var v := e + rest;
    assert v[|e|..] == rest;
    if e == [c] {
      assert v[1..] == rest;
    } else if c < ' ' && c != '\n' && c != '\r' && c != '\t' {
      HexRoundTrip(c as nat);
      assert v[2..6] == ['0', '0', HexDigit(c as nat / 16), HexDigit(c as nat % 16)];
      assert EscapeAt(v) == (c, 6);
    } else {
      assert EscapeAt(v) == (c, 2);
    }
  }

  /** Reading a quoted string gives the string back. */
  lemma {:induction false} UnescapeEscaped(s: string)
    ensures Unescape(Escaped(s)) == s
  {
    if s != [] {
      UnescapeChar(s[0], Escaped(s[1..]));
      UnescapeEscaped(s[1..]);
    }
  }

  lemma {:induction false} ParseQuoted(s: string)
    ensures ParseString(Quoted(s)) == Some(s)
  {
    TrimSpaceKeeps(Quoted(s));
    assert Quoted(s)[1..|Quoted(s)| - 1] == Escaped(s);
    UnescapeEscaped(s);
  }

  lemma {:induction false} ParseBoolText(flag: bool)
    ensures ParseBool(BoolText(flag)) == Some(flag)
  {
    TrimSpaceKeeps(BoolText(flag));
  }

  // ---------- One token ----------

  /** An escaped character does not leave the literal. */
  lemma {:induction false} EscapeCharStays(c: char, below: Mode)
    ensures Run(Quote('\'', below), EscapeChar(c)) == Quote('\'', below)
  {
    var m := Quote('\'', below);
    var e := EscapeChar(c);
    if |e| == 2 {
      assert Run(m, e) == Run(Escape('\'', below), e[1..]) == Run(m, e[1..][1..]);
    } else if |e| == 6 {
      HexPlain(c as nat / 16);
      HexPlain(c as nat % 16);
      assert Run(m, e) == Run(Escape('\'', below), e[1..]) == Run(m, e[1..][1..]);
      assert e[1..][1..] == ['0', '0', e[4], e[5]];
      QuoteKeeps(['0', '0', e[4], e[5]], below);
    } else {
      assert e == [c] && Run(m, e) == Run(Step(m, c), e[1..]);
    }
  }

  lemma {:induction false} HexPlain(n: nat)
    requires n < 16
    ensures HexDigit(n) != '\\' && HexDigit(n) != '\''
  {}

  lemma {:induction false} QuoteKeeps(s: string, below: Mode)
    requires forall k :: 0 <= k < |s| ==> s[k] != '\\' && s[k] != '\''
    ensures Run(Quote('\'', below), s) == Quote('\'', below)
  {
    if s != [] { QuoteKeeps(s[1..], below); }
  }

  lemma {:induction false} EscapedStays(s: string, below: Mode)
    ensures Run(Quote('\'', below), Escaped(s)) == Quote('\'', below)
  {
    if s != [] {
      RunAppend(Quote('\'', below), EscapeChar(s[0]), Escaped(s[1..]));
      EscapeCharStays(s[0], below);
      EscapedStays(s[1..], below);
    }
  }

  /** To the value scanner a quoted string is one closed token. */
  lemma {:induction false} QuotedCloses(s: string, depth: nat)
    ensures Run(Plain(depth), Quoted(s)) == Plain(depth)
  {
    RunAppend(Plain(depth), "'", Escaped(s) + "'");
    RunAppend(Quote('\'', Plain(depth)), Escaped(s), "'");
    assert Quoted(s) == "'" + (Escaped(s) + "'");
    EscapedStays(s, Plain(depth));
    assert Run(Plain(depth), "'") == Quote('\'', Plain(depth));
    assert Run(Quote('\'', Plain(depth)), "'") == Plain(depth);
  }

  lemma {:induction false} EscapeCharEnd(text: string, j: nat, c: char)
    requires Has(text, j, EscapeChar(c))
    ensures QuotedEnd(text, j, '\'') == QuotedEnd(text, j + |EscapeChar(c)|, '\'')
  {
    var e := EscapeChar(c);
    forall k | 0 <= k < |e| ensures text[j + k] == e[k] { HasAt(text, j, e, k); }
    if |e| == 6 {
      HexPlain(c as nat / 16);
      HexPlain(c as nat % 16);
      assert text[j + 2] == e[2] && text[j + 3] == e[3] && text[j + 4] == e[4] && text[j + 5] == e[5];
      assert QuotedEnd(text, j, '\'') == QuotedEnd(text, j + 2, '\'') == QuotedEnd(text, j + 3, '\'')
        == QuotedEnd(text, j + 4, '\'') == QuotedEnd(text, j + 5, '\'') == QuotedEnd(text, j + 6, '\'');
    }
  }

  lemma {:induction false} EscapedEnd(text: string, j: nat, s: string)
    requires Has(text, j, Escaped(s))
    ensures QuotedEnd(text, j, '\'') == QuotedEnd(text, j + |Escaped(s)|, '\'')
    decreases |s|
  {
    if s != [] {
      EscapedHead(text, j, s);
      EscapedEnd(text, j + |EscapeChar(s[0])|, s[1..]);
    }
  }

  lemma {:induction false} EscapedHead(text: string, j: nat, s: string)
    requires s != [] && Has(text, j, Escaped(s))
    ensures var k := j + |EscapeChar(s[0])|;
      && Has(text, k, Escaped(s[1..])) && k + |Escaped(s[1..])| == j + |Escaped(s)|
      && QuotedEnd(text, j, '\'') == QuotedEnd(text, k, '\'')
  {
    HasParts(text, j, EscapeChar(s[0]), Escaped(s[1..]));
    EscapeCharEnd(text, j, s[0]);
  }

  lemma {:induction false} QuotedEndHere(text: string, i: nat, s: string)
    requires Has(text, i, Quoted(s))
    ensures QuotedEnd(text, i + 1, '\'') == i + |Quoted(s)|
  {
    HasParts(text, i, "'" + Escaped(s), "'");
    HasParts(text, i, "'", Escaped(s));
    HasAt(text, i + |"'" + Escaped(s)|, "'", 0);
    EscapedEnd(text, i + 1, s);
  }

  /** A key in quotes is the text between them as it is written, escapes and all. */
  lemma {:induction false} QuotedKeyAt(text: string, i: nat, s: string)
    requires Has(text, i, Quoted(s))
    ensures i < |text| && KeyAt(text, i) == Some((Escaped(s), i + |Quoted(s)|))
  {
    QuotedEndHere(text, i, s);
    HasAt(text, i, Quoted(s), 0);
    HasParts(text, i, "'" + Escaped(s), "'");
    HasParts(text, i, "'", Escaped(s));
    HasIff(text, i + 1, Escaped(s));
  }

  /** Whatever stands before and after it, a quoted string is one token: the literal ends with
      it, and the reader of a value goes on right behind it. */
  lemma {:induction false} QuotedIsOneToken(before: string, s: string, after: string, depth: nat)
    ensures var text := before + Quoted(s) + after;
      && QuotedEnd(text, |before| + 1, '\'') == |before| + |Quoted(s)|
      && Stop(Plain(depth), text, |before|) == Stop(Plain(depth), text, |before| + |Quoted(s)|)
  {
    var text := before + Quoted(s) + after;
    HasMiddle(before, Quoted(s), after);
    QuotedEndHere(text, |before|, s);
    QuotedCloses(s, depth);
    Advance(Plain(depth), text, |before|, Quoted(s));
  }
}
