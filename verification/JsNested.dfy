/** A tidy body in its braces is itself a value: nested object literals
    (internal/service/logging_scan.go). */
module JsNested {
  import opened JsScan
  import opened JsBraces
  import opened JsObject

  /** The value scanner passes over the text inside one bracket. */
  predicate Level(s: string) { Run(Plain(1), s) == Plain(1) }

  lemma {:induction false} LevelAppend(a: string, b: string)
    requires Level(a) && Level(b)
    ensures Level(a + b)
  {
    RunAppend(Plain(1), a, b);
  }

  lemma {:induction false} GapLevel(s: string)
    requires IsGap(s)
    ensures Level(s)
  {
    GapRunAgrees(Plain(0), s);
    LiftRun(Plain(0), s, 1);
  }

  lemma {:induction false} ValueLevel(s: string)
    requires IsValue(s)
    ensures Level(s)
  {
    LiftRun(Plain(0), s, 1);
  }

  /** Characters that mean nothing to the scanner inside a bracket. */
  predicate IsInert(c: char) { IsIdentifierPart(c) || IsSpace(c) || c == ':' || c == ',' }

  lemma {:induction false} InertLevel(s: string)
    requires forall k :: 0 <= k < |s| ==> IsInert(s[k])
    ensures Level(s)
  {
    if s != [] { InertLevel(s[1..]); }
  }

  lemma {:induction false} InertBalanced(s: string)
    requires forall k :: 0 <= k < |s| ==> IsInert(s[k])
    ensures Balanced(s)
  {
    OrdinaryBalanced(s);
  }

  lemma {:induction false} PieceLevel(p: Piece)
    requires RegularPiece(p)
    ensures Level(p.Text())
  {
    GapLevel(p.gap);
    InertLevel(p.key);
    GapLevel(p.beforeColon);
    InertLevel(":");
    GapLevel(p.afterColon);
    ValueLevel(p.value);
    InertLevel(p.Tail());
    LevelAppend(p.gap, p.key);
    LevelAppend(p.gap + p.key, p.beforeColon);
    LevelAppend(p.gap + p.key + p.beforeColon, ":");
    LevelAppend(p.gap + p.key + p.beforeColon + ":", p.afterColon);
    LevelAppend(p.Head(), p.value);
    LevelAppend(p.Head() + p.value, p.Tail());
  }

  lemma {:induction false} PieceBalanced(p: Piece)
    requires RegularPiece(p)
    ensures Balanced(p.Text())
  {
    InertBalanced(p.key);
    InertBalanced(":");
    InertBalanced(p.Tail());
    BalancedAppend(p.gap, p.key);
    BalancedAppend(p.gap + p.key, p.beforeColon);
    BalancedAppend(p.gap + p.key + p.beforeColon, ":");
    BalancedAppend(p.gap + p.key + p.beforeColon + ":", p.afterColon);
    BalancedAppend(p.Head(), p.value);
    BalancedAppend(p.Head() + p.value, p.Tail());
  }

  lemma {:induction false} BodyPasses(b: Body)
    requires Tidy(b)
    ensures Level(Render(b)) && Balanced(Render(b))
    decreases |b.pieces|
  {
    if b.pieces == [] {
      assert Render(b) == b.trailing;
      GapLevel(b.trailing);
    } else {
      var rest := Body(b.pieces[1..], b.trailing);
      TidyRest(b);
      BodyPasses(rest);
      PieceLevel(b.pieces[0]);
      PieceBalanced(b.pieces[0]);
      LevelAppend(b.pieces[0].Text(), Render(rest));
      BalancedAppend(b.pieces[0].Text(), Render(rest));
    }
  }

  /** An object literal with a tidy body is one closed value. */
  lemma {:induction false} ObjectIsValue(b: Body)
    requires Tidy(b)
    ensures IsValue("{" + Render(b) + "}") && Balanced("{" + Render(b) + "}")
  {
    BodyPasses(b);
    InBraces(Render(b));
    RunAppend(Plain(0), "{" + Render(b), "}");
    RunAppend(Plain(0), "{", Render(b));
    assert Run(Plain(0), "{") == Plain(1) && Run(Plain(1), "}") == Plain(0);
  }
}
