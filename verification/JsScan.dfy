/** The depth-aware scanner over JavaScript object literals (internal/service/logging_scan.go and
    findMatchingBrace of internal/service/config.go).

    What a stretch of text means to the value scanner is given by an automaton that reads one
    character at a time; the loops of the code jump from token to token and are proved to agree
    with it on every text.
 */
module JsScan {
  import opened Wrappers

  predicate IsSpace(c: char) { c == ' ' || c == '\t' || c == '\n' || c == '\r' }

  predicate IsIdentifierStart(c: char) {
    c == '_' || c == '$' || 'a' <= c <= 'z' || 'A' <= c <= 'Z'
  }

  predicate IsIdentifierPart(c: char) { IsIdentifierStart(c) || '0' <= c <= '9' }

  predicate IsQuote(c: char) { c == '\'' || c == '"' }

  // ---------- What the characters of a value mean ----------

  /** Where the reader of a value is.  `below` is where it goes on after a literal. */
  datatype Mode =
    | Plain(depth: nat)
    | Slash(depth: nat) | Line(depth: nat) | Block(depth: nat) | Star(depth: nat)
    | Quote(quote: char, below: Mode) | Escape(quote: char, below: Mode)
    | Template(below: Mode) | TemplateEscape(below: Mode) | Dollar(below: Mode)
    | Braces(depth: nat, below: Mode)
    | Halt

  function PlainStep(depth: nat, c: char): Mode {
    if IsQuote(c) then Quote(c, Plain(depth))
    else if c == '`' then Template(Plain(depth))
    else if c == '/' then Slash(depth)
    else if c == '{' || c == '[' || c == '(' then Plain(depth + 1)
    else if c == '}' || c == ']' || c == ')' then (if depth == 0 then Halt else Plain(depth - 1))
    else if c == ',' && depth == 0 then Halt
    else Plain(depth)
  }

  function TemplateStep(below: Mode, c: char): Mode {
    if c == '\\' then TemplateEscape(below)
    else if c == '`' then below
    else if c == '$' then Dollar(below)
    else Template(below)
  }

  function Step(m: Mode, c: char): Mode {
    match m
    case Plain(depth) => PlainStep(depth, c)
    case Slash(depth) => if c == '/' then Line(depth) else if c == '*' then Block(depth) else PlainStep(depth, c)
    case Line(depth) => if c == '\n' then Plain(depth) else m
    case Block(depth) => if c == '*' then Star(depth) else m
    case Star(depth) => if c == '/' then Plain(depth) else if c == '*' then m else Block(depth)
    case Quote(quote, below) => if c == '\\' then Escape(quote, below) else if c == quote then below else m
    case Escape(quote, below) => Quote(quote, below)
    case Template(below) => TemplateStep(below, c)
    case TemplateEscape(below) => Template(below)
    case Dollar(below) => if c == '{' then Braces(1, Template(below)) else TemplateStep(below, c)
    case Braces(depth, below) =>
      if IsQuote(c) then Quote(c, m)
      else if c == '`' then Template(m)
      else if c == '{' then Braces(depth + 1, below)
      else if c == '}' then (if depth <= 1 then below else Braces(depth - 1, below))
      else m
    case Halt => Halt
  }

  predicate InLiteral(m: Mode) {
    m.Quote? || m.Escape? || m.Template? || m.TemplateEscape? || m.Dollar? || m.Braces?
  }

  /** Where reading stops, and whether the text ran out inside a literal. */
  datatype Ending = Ending(at: nat, open: bool)

  function Stop(m: Mode, text: string, i: nat): (r: Ending)
    requires i <= |text|
    ensures i <= r.at <= |text| && (r.open ==> r.at == |text|)
    decreases |text| - i
  {
    if i == |text| then Ending(i, InLiteral(m))
    else if Step(m, text[i]) == Halt then Ending(i, false)
    else Stop(Step(m, text[i]), text, i + 1)
  }

  /** The end of the text without the white space before it. */
  function Trim(text: string, end: nat): (r: nat)
    requires end <= |text|
    ensures r <= end
  {
    if end > 0 && IsSpace(text[end - 1]) then Trim(text, end - 1) else end
  }

  /** What is trimmed is white space, and all of it is trimmed. */
  lemma {:induction false} TrimmedAway(text: string, end: nat, k: nat)
    requires k < end <= |text|
    ensures Trim(text, end) <= k ==> IsSpace(text[k])
    ensures k + 1 == Trim(text, end) ==> !IsSpace(text[k])
  {
    if IsSpace(text[end - 1]) && k < end - 1 { TrimmedAway(text, end - 1, k); }
  }

  /** The end of the value that starts at `i`: the first comma or closing bracket that nothing
      encloses, or the end of the text. */
  function ValueEnd(text: string, i: nat): (r: nat)
    requires i <= |text|
    ensures r <= |text|
  {
    var e := Stop(Plain(0), text, i);
    if e.open || (e.at < |text| && text[e.at] != ',') then e.at else Trim(text, e.at)
  }

  // ---------- Comments and literals ----------

  /** Just past the line comment. */
  function LineEnd(text: string, i: nat): (r: nat)
    requires i <= |text|
    ensures i <= r <= |text| && (i < |text| ==> i < r)
    decreases |text| - i
  {
    if i == |text| then i else if text[i] == '\n' then i + 1 else LineEnd(text, i + 1)
  }

  /** Just past the block comment whose inside starts at `i`. */
  function BlockEnd(text: string, i: nat): (r: nat)
    requires i <= |text|
    ensures i <= r <= |text|
    decreases |text| - i
  {
    if i + 1 >= |text| then |text|
    else if text[i] == '*' && text[i + 1] == '/' then i + 2
    else BlockEnd(text, i + 1)
  }

  predicate LineStarts(text: string, i: nat) { i + 1 < |text| && text[i] == '/' && text[i + 1] == '/' }

  predicate BlockStarts(text: string, i: nat) { i + 1 < |text| && text[i] == '/' && text[i + 1] == '*' }

  /** Past the white space or the comment at the offset, if there is one. */
  function BlankAt(text: string, i: nat): (r: nat)
    requires i <= |text|
    ensures i <= r <= |text|
  {
    if i == |text| then i
    else if IsSpace(text[i]) then i + 1
    else if LineStarts(text, i) then LineEnd(text, i)
    else if BlockStarts(text, i) then BlockEnd(text, i + 2)
    else i
  }

  /** The next character that is neither white space nor in a comment. */
  function SkipBlank(text: string, i: nat): (r: nat)
    requires i <= |text|
    ensures i <= r <= |text|
    decreases |text| - i
  {
    if BlankAt(text, i) > i then SkipBlank(text, BlankAt(text, i)) else i
  }

  /** Just past the quoted literal whose inside starts at `j`, or -1. */
  function QuotedEnd(text: string, j: nat, quote: char): (r: int)
    requires j <= |text|
    ensures r == -1 || j < r <= |text|
    decreases |text| - j
  {
    if j == |text| then -1
    else if text[j] == '\\' then (if j + 2 <= |text| then QuotedEnd(text, j + 2, quote) else -1)
    else if text[j] == quote then j + 1
    else QuotedEnd(text, j + 1, quote)
  }

  lemma {:induction false} QuoteStops(text: string, j: nat, quote: char, below: Mode)
    requires j <= |text| && below != Halt && quote != '\\'
    ensures var r := QuotedEnd(text, j, quote);
      Stop(Quote(quote, below), text, j) == if r < 0 then Ending(|text|, true) else Stop(below, text, r)
    decreases |text| - j
  {
    if j < |text| {
      if text[j] == '\\' {
        assert Stop(Quote(quote, below), text, j) == Stop(Escape(quote, below), text, j + 1);
        if j + 2 <= |text| { QuoteStops(text, j + 2, quote, below); }
      } else if text[j] != quote {
        QuoteStops(text, j + 1, quote, below);
      }
    }
  }

  lemma {:induction false} LineStops(text: string, i: nat, depth: nat)
    requires i <= |text|
    ensures Stop(Line(depth), text, i) == Stop(Plain(depth), text, LineEnd(text, i))
    decreases |text| - i
  {
    if i < |text| && text[i] != '\n' { LineStops(text, i + 1, depth); }
  }

  lemma {:induction false} BlockStops(text: string, i: nat, depth: nat)
    requires i <= |text|
    ensures Stop(Block(depth), text, i) == Stop(Plain(depth), text, BlockEnd(text, i))
    ensures i < |text| && text[i] == '*' ==>
      Stop(Star(depth), text, i + 1) == Stop(Plain(depth), text, BlockEnd(text, i))
    decreases |text| - i
  {
    if i + 1 < |text| {
      BlockStops(text, i + 1, depth);
    } else if i + 1 == |text| {
      assert Stop(Block(depth), text, |text|) == Stop(Star(depth), text, |text|) == Stop(Plain(depth), text, |text|);
    }
  }

  /** A comment in a value is skipped as a unit. */
  lemma {:induction false} CommentStops(text: string, i: nat, depth: nat)
    requires i < |text|
    ensures LineStarts(text, i) ==> Stop(Plain(depth), text, i) == Stop(Plain(depth), text, LineEnd(text, i))
    ensures BlockStarts(text, i) ==> Stop(Plain(depth), text, i) == Stop(Plain(depth), text, BlockEnd(text, i + 2))
    ensures text[i] == '/' && !LineStarts(text, i) && !BlockStarts(text, i) ==>
      Stop(Plain(depth), text, i) == Stop(Plain(depth), text, i + 1)
  {
    if LineStarts(text, i) {
      LineStops(text, i + 2, depth);
      assert Stop(Plain(depth), text, i) == Stop(Slash(depth), text, i + 1) == Stop(Line(depth), text, i + 2);
      assert LineEnd(text, i) == LineEnd(text, i + 1) == LineEnd(text, i + 2);
    } else if BlockStarts(text, i) {
      BlockStops(text, i + 2, depth);
      assert Stop(Plain(depth), text, i) == Stop(Slash(depth), text, i + 1) == Stop(Block(depth), text, i + 2);
    } else if text[i] == '/' {
      assert Stop(Plain(depth), text, i) == Stop(Slash(depth), text, i + 1);
    }
  }

  lemma {:induction false} DollarStops(text: string, j: nat, below: Mode)
    requires j < |text| && text[j] == '$' && below != Halt
    ensures Stop(Template(below), text, j) ==
      if j + 1 < |text| && text[j + 1] == '{' then Stop(Braces(1, Template(below)), text, j + 2)
      else Stop(Template(below), text, j + 1)
  {
    assert Stop(Template(below), text, j) == Stop(Dollar(below), text, j + 1);
  }

  lemma {:induction false} TemplateEscapeStops(text: string, j: nat, below: Mode)
    requires j < |text| && text[j] == '\\' && below != Halt
    ensures Stop(Template(below), text, j) ==
      if j + 2 <= |text| then Stop(Template(below), text, j + 2) else Ending(|text|, true)
  {
    assert Stop(Template(below), text, j) == Stop(TemplateEscape(below), text, j + 1);
  }

  lemma {:induction false} BracesStops(text: string, j: nat, depth: nat, below: Mode)
    requires j < |text| && depth >= 1 && below != Halt
    ensures Stop(Braces(depth, below), text, j) ==
      if IsQuote(text[j]) || text[j] == '`' then Stop(InsideOf(text[j], Braces(depth, below)), text, j + 1)
      else Stop(AtDepth(DepthAfter(text[j], depth), below), text, j + 1)
  {}

  /** The literal this character opens. */
  function InsideOf(c: char, below: Mode): Mode { if IsQuote(c) then Quote(c, below) else Template(below) }

  function DepthAfter(c: char, depth: nat): nat {
    if c == '{' then depth + 1 else if c == '}' && depth > 0 then depth - 1 else depth
  }

  function AtDepth(depth: nat, below: Mode): Mode { if depth == 0 then below else Braces(depth, below) }

  // ---------- The loops of the value scanner ----------

  method SkipQuoted(text: string, i: nat, quote: char) returns (r: int)
    requires i < |text|
    ensures r == QuotedEnd(text, i + 1, quote)
  {
    var j := i + 1;
    while j < |text|
      invariant i < j <= |text| + 1
      invariant QuotedEnd(text, i + 1, quote) == if j <= |text| then QuotedEnd(text, j, quote) else -1
    {
      if text[j] == '\\' {
        j := j + 1;
      } else if text[j] == quote {
        return j + 1;
      }
      j := j + 1;
    }
    r := -1;
  }

  /** Just past the template literal that starts at `i`, or -1: where the reader is back to what
      it was doing before. */
  method SkipTemplate(text: string, i: nat, ghost below: Mode) returns (r: int)
    requires i < |text| && below != Halt
    ensures r < 0 ==> Stop(Template(below), text, i + 1) == Ending(|text|, true)
    ensures r >= 0 ==> i < r <= |text| && Stop(Template(below), text, i + 1) == Stop(below, text, r)
    decreases |text| - i, 0
  {
    var j := i + 1;
    ghost var ending := Stop(Template(below), text, j);
    while j < |text|
      invariant i < j <= |text| + 1
      invariant ending == if j <= |text| then Stop(Template(below), text, j) else Ending(|text|, true)
    {
      if text[j] == '\\' {
        TemplateEscapeStops(text, j, below);
        j := j + 1;
      } else if text[j] == '`' {
        return j + 1;
      } else if text[j] == '$' {
        DollarStops(text, j, below);
        if j + 1 < |text| && text[j + 1] == '{' {
          var end := SkipBraces(text, j + 1, Template(below));
          if end < 0 { return -1; }
          j := end - 1;
        }
      }
      j := j + 1;
    }
    r := -1;
  }

  /** Just past the brace that matches the one at `start`, or -1. */
  method SkipBraces(text: string, start: nat, ghost below: Mode) returns (r: int)
    requires start < |text| && text[start] == '{' && below != Halt
    ensures r < 0 ==> Stop(Braces(1, below), text, start + 1) == Ending(|text|, true)
    ensures r >= 0 ==> start + 1 < r <= |text| && Stop(Braces(1, below), text, start + 1) == Stop(below, text, r)
    decreases |text| - start, 0
  {
    var depth, j := 0, start;
    ghost var ending := Stop(Braces(1, below), text, start + 1);
    while j < |text|
      invariant start <= j <= |text|
      invariant if j == start then depth == 0 else depth >= 1 && ending == Stop(Braces(depth, below), text, j)
    {
      var c := text[j];
      if j > start { BracesStops(text, j, depth, below); }
      if IsQuote(c) || c == '`' {
        var end := SkipLiteral(text, j, Braces(depth, below));
        if end < 0 { return -1; }
        j := end - 1;
      } else if c == '{' {
        depth := depth + 1;
      } else if c == '}' {
        depth := depth - 1;
        if depth == 0 { return j + 1; }
      }
      j := j + 1;
    }
    r := -1;
  }

  method SkipLiteral(text: string, i: nat, ghost below: Mode) returns (r: int)
    requires i < |text| && (IsQuote(text[i]) || text[i] == '`') && below != Halt
    ensures var inside := InsideOf(text[i], below);
      && (r < 0 ==> Stop(inside, text, i + 1) == Ending(|text|, true))
      && (r >= 0 ==> i < r <= |text| && Stop(inside, text, i + 1) == Stop(below, text, r))
    decreases |text| - i, 1
  {
    if text[i] == '`' {
      r := SkipTemplate(text, i, below);
    } else {
      QuoteStops(text, i + 1, text[i], below);
      r := SkipQuoted(text, i, text[i]);
    }
  }

  method TrimTrailingSpace(text: string, end: nat) returns (r: nat)
    requires end <= |text|
    ensures r == Trim(text, end)
  {
    r := end;
    while r > 0 && IsSpace(text[r - 1])
      invariant r <= end && Trim(text, r) == Trim(text, end)
    {
      r := r - 1;
    }
  }

  method ScanValueEnd(text: string, start: nat) returns (r: nat)
    requires start <= |text|
    ensures r == ValueEnd(text, start)
  {
    var depth, i := 0, start;
    while i < |text|
      invariant start <= i <= |text|
      invariant Stop(Plain(0), text, start) == Stop(Plain(depth), text, i)
      decreases |text| - i
    {
      var c := text[i];
      if IsQuote(c) || c == '`' {
        var end := SkipLiteral(text, i, Plain(depth));
        if end < 0 { return |text|; }
        i := end;
        continue;
      } else if c == '/' {
        CommentStops(text, i, depth);
        if LineStarts(text, i) {
          i := LineEnd(text, i);
          continue;
        }
        if BlockStarts(text, i) {
          i := BlockEnd(text, i + 2);
          continue;
        }
      } else if c == '{' || c == '[' || c == '(' {
        depth := depth + 1;
      } else if c == '}' || c == ']' || c == ')' {
        if depth == 0 { return i; }
        depth := depth - 1;
      } else if c == ',' && depth == 0 {
        r := TrimTrailingSpace(text, i);
        return;
      }
      i := i + 1;
    }
    r := TrimTrailingSpace(text, |text|);
  }

  // ---------- Keys and entries ----------

  function IdentifierEnd(text: string, i: nat): (r: nat)
    requires i <= |text|
    ensures i <= r <= |text|
    decreases |text| - i
  {
    if i < |text| && IsIdentifierPart(text[i]) then IdentifierEnd(text, i + 1) else i
  }

  /** The property name at the offset, and just past it. */
  function KeyAt(text: string, i: nat): (r: Option<(string, nat)>)
    requires i < |text|
    ensures r.Some? ==> i < r.value.1 <= |text|
  {
    if IsQuote(text[i]) then
      var end := QuotedEnd(text, i + 1, text[i]);
      if end < 0 then None else Some((text[i + 1..end - 1], end))
    else if IsIdentifierStart(text[i]) then
      var end := IdentifierEnd(text, i);
      Some((text[i..end], end))
    else None
  }

  /** One direct child of an object literal: its name, where the name starts, the span of its
      value, and just past its comma (or its value, without one). */
  datatype Entry = Entry(key: string, start: nat, valueStart: nat, valueEnd: nat, commaEnd: nat)

  function SpacesEnd(text: string, i: nat): (r: nat)
    requires i <= |text|
    ensures i <= r <= |text|
    decreases |text| - i
  {
    if i < |text| && IsSpace(text[i]) then SpacesEnd(text, i + 1) else i
  }

  function CommaEnd(text: string, valueEnd: nat): (r: nat)
    requires valueEnd <= |text|
    ensures valueEnd <= r <= |text|
  {
    var probe := SpacesEnd(text, valueEnd);
    if probe < |text| && text[probe] == ',' then probe + 1 else valueEnd
  }

  /** The entry whose key ended at `next`, if a colon follows. */
  function EntryAt(text: string, start: nat, key: string, next: nat): (r: Option<Entry>)
    requires start < next <= |text|
    ensures r.Some? ==> r.value.key == key && r.value.start == start
    ensures r.Some? ==> start < r.value.valueStart <= |text| && start < r.value.valueEnd <= r.value.commaEnd <= |text|
  {
    var colon := SkipBlank(text, next);
    if colon == |text| || text[colon] != ':' then None
    else Some(ValueAt(text, start, key, colon))
  }

  /** The entry with its colon at `colon`. */
  function ValueAt(text: string, start: nat, key: string, colon: nat): (r: Entry)
    requires start < colon < |text| && text[colon] == ':'
    ensures r.key == key && r.start == start
    ensures colon < r.valueStart <= |text| && colon < r.valueEnd <= r.commaEnd <= |text|
  {
    var valueStart := SkipBlank(text, colon + 1);
    var valueEnd := ValueEnd(text, valueStart);
    TrimStays(text, colon, valueStart);
    Entry(key, start, valueStart, valueEnd, CommaEnd(text, valueEnd))
  }

  /** Trimming an empty value cannot go past the colon. */
  lemma {:induction false} TrimStays(text: string, colon: nat, valueStart: nat)
    requires colon < valueStart <= |text| && text[colon] == ':'
    ensures colon < ValueEnd(text, valueStart)
  {
    var e := Stop(Plain(0), text, valueStart);
    TrimmedAway(text, e.at, colon);
  }

  /** What the scanner meets at the offset, and where it goes on. */
  function TurnAt(text: string, i: nat): (r: (Option<Entry>, nat))
    requires i < |text|
    ensures i < r.1 <= |text|
  {
    if text[i] == ',' then (None, i + 1)
    else if BlankAt(text, i) > i then (None, BlankAt(text, i))
    else
      match KeyAt(text, i)
      case None => (None, i + 1)
      case Some((key, next)) =>
        var e := EntryAt(text, i, key, next);
        (e, if e.Some? then e.value.commaEnd else next)
  }

  /** The direct children of the object literal with this body, from `i` on. */
  function Entries(text: string, i: nat): seq<Entry>
    requires i <= |text|
    decreases |text| - i
  {
    if i == |text| then []
    else
      var (e, next) := TurnAt(text, i);
      (if e.Some? then [e.value] else []) + Entries(text, next)
  }

  method SkipSpaceAndComments(text: string, start: nat) returns (r: nat)
    requires start <= |text|
    ensures r == SkipBlank(text, start)
  {
    r := start;
    while r < |text|
      invariant start <= r <= |text| && SkipBlank(text, r) == SkipBlank(text, start)
      decreases |text| - r
    {
      if IsSpace(text[r]) {
        r := r + 1;
      } else if LineStarts(text, r) {
        r := LineEnd(text, r);
      } else if BlockStarts(text, r) {
        r := BlockEnd(text, r + 2);
      } else {
        return;
      }
    }
  }

  method ScanKey(text: string, i: nat) returns (r: Option<(string, nat)>)
    requires i < |text|
    ensures r == KeyAt(text, i)
  {
    var c := text[i];
    if IsQuote(c) {
      var end := SkipQuoted(text, i, c);
      return if end < 0 then None else Some((text[i + 1..end - 1], end));
    }
    if !IsIdentifierStart(c) { return None; }
    var j := i;
    while j < |text| && IsIdentifierPart(text[j])
      invariant i <= j <= |text| && IdentifierEnd(text, i) == IdentifierEnd(text, j)
    {
      j := j + 1;
    }
    r := Some((text[i..j], j));
  }

  method ScanObjectEntries(body: string) returns (entries: seq<Entry>)
    ensures entries == Entries(body, 0)
  {
    entries := [];
    var i := 0;
    while i < |body|
      invariant 0 <= i <= |body| && entries + Entries(body, i) == Entries(body, 0)
      decreases |body| - i
    {
      var e;
      ghost var before := entries;
      e, i := ScanNext(body, i);
      if e.Some? { entries := entries + [e.value]; }
      Append(before, if e.Some? then [e.value] else [], Entries(body, i));
    }
  }

  lemma {:induction false} Append(a: seq<Entry>, b: seq<Entry>, c: seq<Entry>)
    ensures a + (b + c) == (a + b) + c && a + [] == a
  {}

  /** One turn of the loop: an entry, or something that is skipped. */
  method ScanNext(body: string, i: nat) returns (e: Option<Entry>, next: nat)
    requires i < |body|
    ensures i < next <= |body|
    ensures (e, next) == TurnAt(body, i)
  {
    e := None;
    if body[i] == ',' || IsSpace(body[i]) {
      return None, i + 1;
    } else if LineStarts(body, i) {
      return None, LineEnd(body, i);
    } else if BlockStarts(body, i) {
      return None, BlockEnd(body, i + 2);
    }
    var key := ScanKey(body, i);
    if key.None? { return None, i + 1; }
    e := ScanEntry(body, i, key.value.0, key.value.1);
    next := if e.None? then key.value.1 else e.value.commaEnd;
  }

  method ScanEntry(body: string, start: nat, key: string, next: nat) returns (r: Option<Entry>)
    requires start < next <= |body|
    ensures r == EntryAt(body, start, key, next)
  {
    var colon := SkipSpaceAndComments(body, next);
    if colon >= |body| || body[colon] != ':' { return None; }
    var e := ScanValue(body, start, key, colon);
    r := Some(e);
  }

  method ScanValue(body: string, start: nat, key: string, colon: nat) returns (r: Entry)
    requires start < colon < |body| && body[colon] == ':'
    ensures r == ValueAt(body, start, key, colon)
  {
    var valueStart := SkipSpaceAndComments(body, colon + 1);
    var valueEnd := ScanValueEnd(body, valueStart);
    var commaEnd := ProbeComma(body, valueEnd);
    r := Entry(key, start, valueStart, valueEnd, commaEnd);
  }

  method ProbeComma(body: string, valueEnd: nat) returns (commaEnd: nat)
    requires valueEnd <= |body|
    ensures commaEnd == CommaEnd(body, valueEnd)
  {
    commaEnd := valueEnd;
    var probe := valueEnd;
    while probe < |body| && IsSpace(body[probe])
      invariant valueEnd <= probe <= |body| && SpacesEnd(body, probe) == SpacesEnd(body, valueEnd)
    {
      probe := probe + 1;
    }
    if probe < |body| && body[probe] == ',' { commaEnd := probe + 1; }
  }

  // ---------- What the scanner returns, on every text ----------

  predicate IsCloser(c: char) { c == '}' || c == ']' || c == ')' }

  /** The offsets of an entry are inside the text and in order.  A value span is inverted exactly
      when there is no value and white space stands before where it should be. */
  ghost predicate WellPlaced(text: string, e: Entry) {
    && e.start < e.valueStart <= |text|
    && e.start < e.valueEnd <= e.commaEnd <= |text|
    && (e.valueStart < e.valueEnd <==>
        e.valueStart < |text| && text[e.valueStart] != ',' && !IsCloser(text[e.valueStart]))
    && (e.valueEnd < e.valueStart <==>
        (e.valueStart == |text| || text[e.valueStart] == ',') && IsSpace(text[e.valueStart - 1]))
  }

  lemma {:induction false} SkipBlankStopsAt(text: string, i: nat)
    requires i <= |text|
    ensures var r := SkipBlank(text, i);
      r == |text| || (!IsSpace(text[r]) && !LineStarts(text, r) && !BlockStarts(text, r))
    decreases |text| - i
  {
    if BlankAt(text, i) > i { SkipBlankStopsAt(text, BlankAt(text, i)); }
  }

  /** A value span is empty exactly when the first character already ends it. */
  lemma {:induction false} ValueSpan(text: string, i: nat)
    requires 0 < i <= |text| && (i == |text| || !IsSpace(text[i]))
    ensures i < ValueEnd(text, i) <==> i < |text| && text[i] != ',' && !IsCloser(text[i])
    ensures ValueEnd(text, i) < i <==> (i == |text| || text[i] == ',') && IsSpace(text[i - 1])
  {
    var e := Stop(Plain(0), text, i);
    if i < |text| && text[i] != ',' && !IsCloser(text[i]) {
      assert PlainStep(0, text[i]) != Halt;
      assert i < e.at;
      TrimmedAway(text, e.at, i);
    } else {
      assert e == Ending(i, false);
      TrimmedAway(text, i, i - 1);
    }
  }

  lemma {:induction false} EntryPlaced(text: string, start: nat, key: string, next: nat)
    requires start < next <= |text| && EntryAt(text, start, key, next).Some?
    ensures WellPlaced(text, EntryAt(text, start, key, next).value)
  {
    var colon := SkipBlank(text, next);
    var valueStart := SkipBlank(text, colon + 1);
    SkipBlankStopsAt(text, colon + 1);
    ValueSpan(text, valueStart);
  }

  /** The entries lie in the text from `i` on, one after the other. */
  ghost predicate InOrder(text: string, i: nat, es: seq<Entry>) {
    && (forall k :: 0 <= k < |es| ==> i <= es[k].start && WellPlaced(text, es[k]))
    && (forall k, l :: 0 <= k < l < |es| ==> es[k].commaEnd <= es[l].start)
  }

  lemma {:induction false} InOrderCons(text: string, i: nat, e: Entry, es: seq<Entry>)
    requires i <= e.start && WellPlaced(text, e) && InOrder(text, e.commaEnd, es)
    ensures InOrder(text, i, [e] + es)
  {}

  /** Every text is scanned to the end into entries that lie in it one after the other. */
  lemma {:induction false} EntriesInOrder(text: string, i: nat)
    requires i <= |text|
    ensures InOrder(text, i, Entries(text, i))
    decreases |text| - i
  {
    if i < |text| {
      var (e, next) := TurnAt(text, i);
      EntriesInOrder(text, next);
      if e.Some? {
        EntryPlaced(text, i, KeyAt(text, i).value.0, KeyAt(text, i).value.1);
        InOrderCons(text, i, e.value, Entries(text, next));
      }
    }
  }

  // ---------- Reading a text piece by piece ----------

  /** The text holds `s` at `i`. */
  ghost predicate Has(text: string, i: nat, s: string): (r: bool)
    ensures r ==> i + |s| <= |text|
    decreases |s|
  {
    if s == [] then i <= |text| else i < |text| && text[i] == s[0] && Has(text, i + 1, s[1..])
  }

  lemma {:induction false} HasIff(text: string, i: nat, s: string)
    ensures Has(text, i, s) <==> i + |s| <= |text| && text[i..i + |s|] == s
    decreases |s|
  {
    if s != [] {
      HasIff(text, i + 1, s[1..]);
      if i + |s| <= |text| {
        assert text[i..i + |s|] == [text[i]] + text[i + 1..i + |s|];
        assert s == [s[0]] + s[1..];
      }
    }
  }

  lemma {:induction false} HasParts(text: string, i: nat, a: string, b: string)
    ensures Has(text, i, a + b) <==> Has(text, i, a) && Has(text, i + |a|, b)
    decreases |a|
  {
    if a == [] {
      assert a + b == b;
      HasIff(text, i, b);
    } else {
      assert (a + b)[1..] == a[1..] + b;
      HasParts(text, i + 1, a[1..], b);
    }
  }

  lemma {:induction false} HasAt(text: string, i: nat, s: string, k: nat)
    requires Has(text, i, s) && k < |s|
    ensures i + |s| <= |text| && text[i + k] == s[k]
  {
    HasIff(text, i, s);
    assert text[i..i + |s|][k] == s[k];
  }

  lemma {:induction false} HasMiddle(before: string, s: string, after: string)
    ensures Has(before + s + after, |before|, s)
  {
    HasIff(before + s + after, |before|, s);
  }

  function Run(m: Mode, s: string): Mode
    decreases |s|
  {
    if s == [] then m else Run(Step(m, s[0]), s[1..])
  }

  lemma {:induction false} HaltStays(s: string)
    ensures Run(Halt, s) == Halt
  {
    if s != [] { HaltStays(s[1..]); }
  }

  lemma {:induction false} RunAppend(m: Mode, a: string, b: string)
    ensures Run(m, a + b) == Run(Run(m, a), b)
    decreases |a|
  {
    if a == [] {
      assert a + b == b;
    } else {
      assert (a + b)[1..] == a[1..] + b;
      RunAppend(Step(m, a[0]), a[1..], b);
    }
  }

  /** Reading on from where a piece of the text leads. */
  lemma {:induction false} Advance(m: Mode, text: string, i: nat, s: string)
    requires Has(text, i, s) && Run(m, s) != Halt
    ensures i + |s| <= |text| && Stop(m, text, i) == Stop(Run(m, s), text, i + |s|)
    decreases |s|
  {
    if s != [] {
      HaltStays(s[1..]);
      Advance(Step(m, text[i]), text, i + 1, s[1..]);
    }
  }

  /** The same place, deeper. */
  function Lift(m: Mode, deeper: nat): Mode {
    match m
    case Plain(depth) => Plain(depth + deeper)
    case Slash(depth) => Slash(depth + deeper)
    case Line(depth) => Line(depth + deeper)
    case Block(depth) => Block(depth + deeper)
    case Star(depth) => Star(depth + deeper)
    case Quote(quote, below) => Quote(quote, Lift(below, deeper))
    case Escape(quote, below) => Escape(quote, Lift(below, deeper))
    case Template(below) => Template(Lift(below, deeper))
    case TemplateEscape(below) => TemplateEscape(Lift(below, deeper))
    case Dollar(below) => Dollar(Lift(below, deeper))
    case Braces(depth, below) => Braces(depth, Lift(below, deeper))
    case Halt => Halt
  }

  lemma {:induction false} LiftStep(m: Mode, c: char, deeper: nat)
    requires Step(m, c) != Halt
    ensures Step(Lift(m, deeper), c) == Lift(Step(m, c), deeper)
  {
    match m
    case Plain(_) =>
    case Slash(_) =>
    case _ =>
  }

  /** What is read without stopping is read the same way inside more brackets. */
  lemma {:induction false} LiftRun(m: Mode, s: string, deeper: nat)
    requires Run(m, s) != Halt
    ensures Run(Lift(m, deeper), s) == Lift(Run(m, s), deeper)
    decreases |s|
  {
    if s != [] {
      HaltStays(s[1..]);
      LiftStep(m, s[0], deeper);
      LiftRun(Step(m, s[0]), s[1..], deeper);
    }
  }

  // ---------- Gaps ----------

  /** Reading white space and comments only. */
  function GapStep(m: Mode, c: char): Mode {
    match m
    case Plain(_) => if IsSpace(c) then m else if c == '/' then Slash(0) else Halt
    case Slash(_) => if c == '/' then Line(0) else if c == '*' then Block(0) else Halt
    case Line(_) => if c == '\n' then Plain(0) else m
    case Block(_) => if c == '*' then Star(0) else m
    case Star(_) => if c == '/' then Plain(0) else if c == '*' then m else Block(0)
    case _ => Halt
  }

  function GapRun(m: Mode, s: string): Mode
    decreases |s|
  {
    if s == [] then m else GapRun(GapStep(m, s[0]), s[1..])
  }

  /** White space and whole comments. */
  predicate IsGap(s: string) { GapRun(Plain(0), s) == Plain(0) }

  lemma {:induction false} GapHaltStays(s: string)
    ensures GapRun(Halt, s) == Halt
  {
    if s != [] { GapHaltStays(s[1..]); }
  }

  predicate AtGround(m: Mode) { (m.Plain? || m.Slash? || m.Line? || m.Block? || m.Star?) && m.depth == 0 }

  lemma {:induction false} GapRunAgrees(m: Mode, s: string)
    requires AtGround(m) && GapRun(m, s) != Halt
    ensures Run(m, s) == GapRun(m, s) && AtGround(GapRun(m, s))
    decreases |s|
  {
    if s != [] {
      GapHaltStays(s[1..]);
      GapRunAgrees(GapStep(m, s[0]), s[1..]);
    }
  }

  lemma {:induction false} SpacesAreGap(s: string)
    requires forall k :: 0 <= k < |s| ==> IsSpace(s[k])
    ensures IsGap(s)
  {
    if s != [] { SpacesAreGap(s[1..]); }
  }

  /** Where the reader of a gap is back on the ground. */
  function Resume(m: Mode, text: string, i: nat): (r: nat)
    requires i <= |text|
    ensures r <= |text|
  {
    if m.Slash? && i > 0 then i - 1
    else if m.Line? then LineEnd(text, i)
    else if m.Block? then BlockEnd(text, i)
    else if m.Star? && i > 0 then BlockEnd(text, i - 1)
    else i
  }

  /** A slash or a star is remembered only right behind it. */
  predicate Remembers(m: Mode, text: string, i: nat) {
    && (m.Slash? ==> 0 < i <= |text| && text[i - 1] == '/')
    && (m.Star? ==> 0 < i <= |text| && text[i - 1] == '*')
  }

  lemma {:induction false} GapStepSkips(m: Mode, text: string, i: nat)
    requires AtGround(m) && i < |text| && GapStep(m, text[i]) != Halt && Remembers(m, text, i)
    ensures var next := GapStep(m, text[i]);
      && AtGround(next) && Remembers(next, text, i + 1)
      && SkipBlank(text, Resume(m, text, i)) == SkipBlank(text, Resume(next, text, i + 1))
      && Entries(text, Resume(m, text, i)) == Entries(text, Resume(next, text, i + 1))
  {
    match m
    case Plain(_) =>
    case Slash(_) =>
      if text[i] == '/' {
        assert LineEnd(text, i - 1) == LineEnd(text, i) == LineEnd(text, i + 1);
      } else {
        assert BlockStarts(text, i - 1);
      }
    case Line(_) => assert text[i] != '\n' ==> LineEnd(text, i) == LineEnd(text, i + 1);
    case Block(_) => assert text[i] != '*' ==> BlockEnd(text, i) == BlockEnd(text, i + 1);
    case Star(_) =>
      if text[i] != '/' {
        assert BlockEnd(text, i - 1) == BlockEnd(text, i);
        assert text[i] != '*' ==> BlockEnd(text, i) == BlockEnd(text, i + 1);
      }
  }

  /** A gap is skipped, between keys and values and between entries alike. */
  lemma {:induction false} GapSkips(m: Mode, text: string, i: nat, s: string)
    requires Has(text, i, s) && AtGround(m) && GapRun(m, s) == Plain(0) && Remembers(m, text, i)
    ensures i + |s| <= |text|
    ensures SkipBlank(text, Resume(m, text, i)) == SkipBlank(text, i + |s|)
    ensures Entries(text, Resume(m, text, i)) == Entries(text, i + |s|)
    decreases |s|
  {
    if s != [] {
      GapHaltStays(s[1..]);
      GapStepSkips(m, text, i);
      GapSkips(GapStep(m, text[i]), text, i + 1, s[1..]);
    }
  }
}
