/** Matching braces and the bodies of object literals (findMatchingBrace of
    internal/service/config.go, jsObjectBody and jsBlockBody of internal/service/logging_scan.go).

    This matcher is not the value scanner: a template literal is a plain string to it, and it
    takes the three characters of a slash, a star and a slash for a whole comment. */
module JsBraces {
  import opened Wrappers
  import opened JsScan
  import opened JsString

  datatype Brace =
    | Code(depth: nat)
    | Maybe(depth: nat) | ToNewline(depth: nat) | Comment(depth: nat) | CommentStar(depth: nat)
    | Text(quote: char, depth: nat) | TextEscape(quote: char, depth: nat)
    | Matched

  function CodeStep(depth: nat, c: char): Brace {
    if IsQuote(c) || c == '`' then Text(c, depth)
    else if c == '/' then Maybe(depth)
    else if c == '{' then Code(depth + 1)
    else if c == '}' then (if depth <= 1 then Matched else Code(depth - 1))
    else Code(depth)
  }

  function BraceStep(m: Brace, c: char): Brace {
    match m
    case Code(depth) => CodeStep(depth, c)
    case Maybe(depth) => if c == '/' then ToNewline(depth) else if c == '*' then CommentStar(depth)
      else CodeStep(depth, c)
    case ToNewline(depth) => if c == '\n' then Code(depth) else m
    case Comment(depth) => if c == '*' then CommentStar(depth) else m
    case CommentStar(depth) => if c == '/' then Code(depth) else if c == '*' then m else Comment(depth)
    case Text(quote, depth) => if c == '\\' then TextEscape(quote, depth) else if c == quote then Code(depth) else m
    case TextEscape(quote, depth) => Text(quote, depth)
    case Matched => Matched
  }

  /** The first closing brace that matches, or -1. */
  function MatchFrom(m: Brace, text: string, i: nat): (r: int)
    requires i <= |text|
    ensures r == -1 || i <= r < |text|
    decreases |text| - i
  {
    if i == |text| then -1
    else if BraceStep(m, text[i]) == Matched then i
    else MatchFrom(BraceStep(m, text[i]), text, i + 1)
  }

  lemma {:induction false} LineMatches(text: string, i: nat, depth: nat)
    requires i <= |text|
    ensures var r := LineEnd(text, i);
      MatchFrom(ToNewline(depth), text, i) ==
        if r > i && text[r - 1] == '\n' then MatchFrom(Code(depth), text, r) else -1
    decreases |text| - i
  {
    if i < |text| && text[i] != '\n' { LineMatches(text, i + 1, depth); }
  }

  /** A block comment is closed when its end mark was found. */
  predicate Closes(text: string, i: nat, r: nat)
    requires i <= r <= |text|
  {
    r >= i + 2 && text[r - 2] == '*' && text[r - 1] == '/'
  }

  lemma {:induction false} CommentMatches(text: string, i: nat, depth: nat)
    requires i <= |text|
    ensures var r := BlockEnd(text, i);
      && MatchFrom(Comment(depth), text, i) == (if Closes(text, i, r) then MatchFrom(Code(depth), text, r) else -1)
      && (i < |text| && text[i] == '*' ==>
            MatchFrom(CommentStar(depth), text, i + 1) ==
              if Closes(text, i, r) then MatchFrom(Code(depth), text, r) else -1)
    decreases |text| - i
  {
    if i + 1 < |text| { CommentMatches(text, i + 1, depth); }
  }

  lemma {:induction false} SlashMatches(text: string, i: nat, depth: nat)
    requires i < |text| && text[i] == '/'
    ensures LineStarts(text, i) ==> var r := LineEnd(text, i);
      MatchFrom(Code(depth), text, i) == if text[r - 1] == '\n' then MatchFrom(Code(depth), text, r) else -1
    ensures BlockStarts(text, i) ==> var r := BlockEnd(text, i + 1);
      MatchFrom(Code(depth), text, i) == if Closes(text, i + 1, r) then MatchFrom(Code(depth), text, r) else -1
    ensures !LineStarts(text, i) && !BlockStarts(text, i) ==>
      MatchFrom(Code(depth), text, i) == MatchFrom(Code(depth), text, i + 1)
  {
    assert MatchFrom(Code(depth), text, i) == MatchFrom(Maybe(depth), text, i + 1);
    if LineStarts(text, i) {
      LineMatches(text, i + 2, depth);
      assert LineEnd(text, i) == LineEnd(text, i + 1) == LineEnd(text, i + 2);
    } else if BlockStarts(text, i) {
      CommentMatches(text, i + 1, depth);
    }
  }

  method FindMatchingBrace(text: string, start: nat) returns (r: int)
    requires start < |text| && text[start] == '{'
    ensures r == MatchFrom(Code(0), text, start)
  {
    var depth, quote, i := 0, None, start;
    while i < |text|
      invariant start <= i <= |text|
      invariant i == start ==> depth == 0 && quote == None
      invariant i > start ==> depth >= 1
      invariant quote.Some? ==> quote.value != '\\'
      invariant MatchFrom(Code(0), text, start) ==
        MatchFrom(if quote.Some? then Text(quote.value, depth) else Code(depth), text, i)
      decreases |text| - i
    {
      var c := text[i];
      if quote.Some? {
        if c == '\\' && i + 1 < |text| {
          assert MatchFrom(Text(quote.value, depth), text, i) == MatchFrom(TextEscape(quote.value, depth), text, i + 1);
          i := i + 2;
          continue;
        }
        if c == quote.value { quote := None; }
      } else if IsQuote(c) || c == '`' {
        quote := Some(c);
      } else if c == '/' {
        SlashMatches(text, i, depth);
        if LineStarts(text, i) {
          var end := LineEnd(text, i);
          if text[end - 1] != '\n' { return -1; }
          i := end;
          continue;
        }
        if BlockStarts(text, i) {
          var end := BlockEnd(text, i + 1);
          if !Closes(text, i + 1, end) { return -1; }
          i := end;
          continue;
        }
      } else if c == '{' {
        depth := depth + 1;
      } else if c == '}' {
        depth := depth - 1;
        if depth == 0 { return i; }
      }
      i := i + 1;
    }
    r := -1;
  }

  // ---------- Reading piece by piece ----------

  function BraceRun(m: Brace, s: string): Brace
    decreases |s|
  {
    if s == [] then m else BraceRun(BraceStep(m, s[0]), s[1..])
  }

  lemma {:induction false} MatchedStays(s: string)
    ensures BraceRun(Matched, s) == Matched
  {
    if s != [] { MatchedStays(s[1..]); }
  }

  lemma {:induction false} BraceRunAppend(m: Brace, a: string, b: string)
    ensures BraceRun(m, a + b) == BraceRun(BraceRun(m, a), b)
    decreases |a|
  {
    if a == [] {
      assert a + b == b;
    } else {
      assert (a + b)[1..] == a[1..] + b;
      BraceRunAppend(BraceStep(m, a[0]), a[1..], b);
    }
  }

  lemma {:induction false} MatchAdvance(m: Brace, text: string, i: nat, s: string)
    requires Has(text, i, s) && BraceRun(m, s) != Matched
    ensures i + |s| <= |text| && MatchFrom(m, text, i) == MatchFrom(BraceRun(m, s), text, i + |s|)
    decreases |s|
  {
    if s != [] {
      MatchedStays(s[1..]);
      MatchAdvance(BraceStep(m, s[0]), text, i + 1, s[1..]);
    }
  }

  /** The matcher passes over the text, however deep it is in. */
  ghost predicate Balanced(s: string) {
    forall depth: nat {:trigger BraceRun(Code(depth), s)} :: depth >= 1 ==> BraceRun(Code(depth), s) == Code(depth)
  }

  lemma {:induction false} BalancedAppend(a: string, b: string)
    requires Balanced(a) && Balanced(b)
    ensures Balanced(a + b)
  {
    forall depth: nat | depth >= 1 ensures BraceRun(Code(depth), a + b) == Code(depth) {
      BraceRunAppend(Code(depth), a, b);
    }
  }

  lemma {:induction false} InBraces(s: string)
    requires Balanced(s)
    ensures Balanced("{" + s + "}")
  {
    forall depth: nat | depth >= 1 ensures BraceRun(Code(depth), "{" + s + "}") == Code(depth) {
      BraceRunAppend(Code(depth), "{" + s, "}");
      BraceRunAppend(Code(depth), "{", s);
      assert BraceRun(Code(depth), "{") == Code(depth + 1);
      assert BraceRun(Code(depth + 1), s) == Code(depth + 1);
      assert BraceRun(Code(depth + 1), "}") == Code(depth);
    }
  }

  /** Characters the matcher has no use for. */
  predicate IsOrdinary(c: char) { !IsQuote(c) && c != '`' && c != '/' && c != '{' && c != '}' }

  lemma {:induction false} OrdinaryBalanced(s: string)
    requires forall k :: 0 <= k < |s| ==> IsOrdinary(s[k])
    ensures Balanced(s)
  {
    forall depth: nat | depth >= 1 ensures BraceRun(Code(depth), s) == Code(depth) {
      OrdinaryRun(s, depth);
    }
  }

  lemma {:induction false} OrdinaryRun(s: string, depth: nat)
    requires forall k :: 0 <= k < |s| ==> IsOrdinary(s[k])
    ensures BraceRun(Code(depth), s) == Code(depth)
  {
    if s != [] { OrdinaryRun(s[1..], depth); }
  }

  // ---------- Bodies ----------

  /** The text between the braces of a bare object literal. */
  function ObjectBody(text: string): Option<string> {
    var trimmed := TrimSpace(text);
    if trimmed == [] || trimmed[0] != '{' then None
    else
      var end := MatchFrom(Code(0), trimmed, 0);
      if end < 1 then None else Some(trimmed[1..end])
  }

  function IndexOf(text: string, c: char, i: nat): (r: int)
    requires i <= |text|
    ensures r == -1 || (i <= r < |text| && text[r] == c)
    decreases |text| - i
  {
    if i == |text| then -1 else if text[i] == c then i else IndexOf(text, c, i + 1)
  }

  /** Where the first object literal of the text opens and closes. */
  function BlockSpan(text: string): (r: Option<(nat, nat)>)
    ensures r.Some? ==> r.value.0 < r.value.1 < |text|
  {
    var start := IndexOf(text, '{', 0);
    if start < 0 then None
    else
      var end := MatchFrom(Code(0), text, start);
      if end <= start then None else Some((start, end))
  }

  /** The brace that opens the text is matched right behind a balanced inside. */
  lemma {:induction false} MatchAround(text: string, i: nat, s: string)
    requires Balanced(s) && Has(text, i, "{" + s + "}")
    ensures i + 1 + |s| < |text| && MatchFrom(Code(0), text, i) == i + 1 + |s|
  {
    HasParts(text, i, "{" + s, "}");
    HasParts(text, i, "{", s);
    assert MatchFrom(Code(0), text, i) == MatchFrom(Code(1), text, i + 1);
    assert BraceRun(Code(1), s) == Code(1);
    MatchAdvance(Code(1), text, i + 1, s);
  }

  /** The body of a literal that may be followed by more. */
  lemma {:induction false} ObjectBodyOf(s: string, after: string)
    requires Balanced(s)
    ensures ObjectBody("{" + s + "}" + after) == Some(s)
  {
    var text := "{" + s + "}" + after;
    var literal := "{" + s + "}";
    TrimSpaceKeeps(text);
    var trimmed := TrimSpace(text);
    assert text[|literal| - 1] == '}';
    assert |trimmed| >= |literal|;
    assert trimmed[..|literal|] == text[..|literal|] == literal;
    HasIff(trimmed, 0, literal);
    MatchAround(trimmed, 0, s);
    assert trimmed[1..1 + |s|] == literal[1..1 + |s|] == s;
  }
}
