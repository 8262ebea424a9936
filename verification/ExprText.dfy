/** Printing expressions and parsing them back, at the level of tokens. */
module ExprText {
  import opened KconfigLang
  import opened Evaluation

  /** A choice, which only dependency propagation puts into expressions, prints as something no symbol is spelled
      like: Sym(Mode(c)) stands for it. */
  datatype Token = Sym(leaf: Leaf) | AndTok | OrTok | NotTok | Open | Close | RelTok(op: Relation)

  datatype Parsed = Parsed(e: Expr, rest: seq<Token>)

  // expr_str()

  function Print(e: Expr): seq<Token>
    decreases e, 0
  {
    match e
    case Atom(x) => [Sym(x)]
    case And(l, r) => AndSide(l) + [AndTok] + AndSide(r)
    case Or(l, r) => OrSide(l) + [OrTok] + OrSide(r)
    case Not(e1) => if e1.Atom? then [NotTok] + Print(e1) else [NotTok, Open] + Print(e1) + [Close]
    case Rel(op, a, b) => [Sym(a), RelTok(op), Sym(b)]
  }

  function AndSide(e: Expr): seq<Token>
    decreases e, 1
  {
    if e.Or? then [Open] + OrSide(e.l) + [OrTok] + OrSide(e.r) + [Close]
    else if e.And? then AndSide(e.l) + [AndTok] + AndSide(e.r)
    else Print(e)
  }

  function OrSide(e: Expr): seq<Token>
    decreases e, 1
  {
    if e.And? then [Open] + AndSide(e.l) + [AndTok] + AndSide(e.r) + [Close]
    else if e.Or? then OrSide(e.l) + [OrTok] + OrSide(e.r)
    else Print(e)
  }

  predicate IsChoice(t: Token) {
    t.Sym? && t.leaf.Mode?
  }

  /** The expression mentions no choice. */
  predicate ChoiceFree(e: Expr) {
    match e
    case Atom(x) => !x.Mode?
    case And(l, r) => ChoiceFree(l) && ChoiceFree(r)
    case Or(l, r) => ChoiceFree(l) && ChoiceFree(r)
    case Not(e1) => ChoiceFree(e1)
    case Rel(_, a, b) => !a.Mode? && !b.Mode?
  }

  // The parser

  function ParseExpr(ts: seq<Token>): (r: Option<Parsed>)
    ensures r.Some? ==> |r.value.rest| < |ts|
    decreases |ts|, 2
  {
    var first := ParseAnd(ts);
    if first.None? || first.value.rest == [] || first.value.rest[0] != OrTok then first
    else
      var more := ParseExpr(first.value.rest[1..]);
      if more.None? then None else Some(Parsed(Or(first.value.e, more.value.e), more.value.rest))
  }

  function ParseAnd(ts: seq<Token>): (r: Option<Parsed>)
    ensures r.Some? ==> |r.value.rest| < |ts|
    decreases |ts|, 1
  {
    var first := ParseFactor(ts);
    if first.None? || first.value.rest == [] || first.value.rest[0] != AndTok then first
    else
      var more := ParseAnd(first.value.rest[1..]);
      if more.None? then None else Some(Parsed(And(first.value.e, more.value.e), more.value.rest))
  }

  function ParseFactor(ts: seq<Token>): (r: Option<Parsed>)
    ensures r.Some? ==> |r.value.rest| < |ts|
    decreases |ts|, 0
  {
    if ts == [] then None
    else match ts[0]
      case Sym(x) =>
        if IsChoice(ts[0]) then None
        else if |ts| == 1 || !ts[1].RelTok? then Some(Parsed(Atom(x), ts[1..]))
        else if |ts| >= 3 && ts[2].Sym? && !IsChoice(ts[2]) then Some(Parsed(Rel(ts[1].op, x, ts[2].leaf), ts[3..]))
        else None
      case NotTok =>
        var r := ParseFactor(ts[1..]);
        if r.None? then None else Some(Parsed(Not(r.value.e), r.value.rest))
      case Open =>
        var r := ParseExpr(ts[1..]);
        if r.None? || r.value.rest == [] || r.value.rest[0] != Close then None
        else Some(Parsed(r.value.e, r.value.rest[1..]))
      case _ => None
  }

  // What printing and parsing does to an expression: && and || chains become right-nested

  function JoinAnd(l: Expr, r: Expr): Expr {
    if l.And? then And(l.l, JoinAnd(l.r, r)) else And(l, r)
  }

  function JoinOr(l: Expr, r: Expr): Expr {
    if l.Or? then Or(l.l, JoinOr(l.r, r)) else Or(l, r)
  }

  function RightNested(e: Expr): Expr {
    match e
    case And(l, r) => JoinAnd(RightNested(l), RightNested(r))
    case Or(l, r) => JoinOr(RightNested(l), RightNested(r))
    case Not(e1) => Not(RightNested(e1))
    case _ => e
  }

  /** The operands of the top-level && chain, or || chain, of an expression. */
  function SplitAnd(e: Expr): seq<Expr> {
    if e.And? then SplitAnd(e.l) + SplitAnd(e.r) else [e]
  }

  function SplitOr(e: Expr): seq<Expr> {
    if e.Or? then SplitOr(e.l) + SplitOr(e.r) else [e]
  }

  function NestAll(es: seq<Expr>): seq<Expr> {
    if es == [] then [] else [RightNested(es[0])] + NestAll(es[1..])
  }

  lemma {:induction false} JoinAndAssoc(a: Expr, b: Expr, c: Expr)
    ensures JoinAnd(JoinAnd(a, b), c) == JoinAnd(a, JoinAnd(b, c))
  {
    if a.And? { JoinAndAssoc(a.r, b, c); }
  }

  lemma {:induction false} JoinOrAssoc(a: Expr, b: Expr, c: Expr)
    ensures JoinOr(JoinOr(a, b), c) == JoinOr(a, JoinOr(b, c))
  {
    if a.Or? { JoinOrAssoc(a.r, b, c); }
  }

  /** What may follow a printed expression: nothing that would continue it. */
  predicate Ends(rest: seq<Token>) {
    rest == [] || !(rest[0].RelTok? || rest[0].AndTok? || rest[0].OrTok?)
  }

  predicate NoRel(rest: seq<Token>) {
    rest == [] || !rest[0].RelTok?
  }

  /** Atoms, relations and negations print as factors. */
  lemma {:induction false} ParsePlainFactor(e: Expr, rest: seq<Token>)
    requires ChoiceFree(e) && !e.And? && !e.Or? && NoRel(rest)
    ensures ParseFactor(Print(e) + rest) == Some(Parsed(RightNested(e), rest))
    decreases Size(e), 0
  {
    var ts := Print(e) + rest;
    match e
    case Atom(x) => assert ts[1..] == rest;
    case Rel(_, _, _) => assert ts[3..] == rest;
    case Not(e1) =>
      if e1.Atom? {
        assert ts[1..] == Print(e1) + rest;
        ParsePlainFactor(e1, rest);
      } else {
        assert ts[1..] == [Open] + Print(e1) + ([Close] + rest);
        ParseParens(e1, rest);
        assert [Open] + Print(e1) + [Close] + rest == [Open] + Print(e1) + ([Close] + rest);
      }
  }

  lemma {:induction false} ParseParens(e: Expr, rest: seq<Token>)
    requires ChoiceFree(e)
    ensures ParseFactor([Open] + Print(e) + [Close] + rest) == Some(Parsed(RightNested(e), rest))
    decreases Size(e), 5
  {
    var ts := [Open] + Print(e) + [Close] + rest;
    assert ts[1..] == Print(e) + ([Close] + rest);
    ParsePrint(e, [Close] + rest);
    assert ([Close] + rest)[1..] == rest;
  }

  /** The parenthesized forms. */
  lemma SideParens(e: Expr)
    ensures e.Or? ==> AndSide(e) == [Open] + Print(e) + [Close]
    ensures e.And? ==> OrSide(e) == [Open] + Print(e) + [Close]
    ensures e.And? ==> AndSide(e) == Print(e)
    ensures e.Or? ==> OrSide(e) == Print(e)
    ensures !e.And? && !e.Or? ==> AndSide(e) == Print(e) && OrSide(e) == Print(e)
  {
  }

  /** An operand of && that is not itself a && parses as a factor. */
  lemma {:induction false} AndFactor(e: Expr, rest: seq<Token>)
    requires ChoiceFree(e) && !e.And? && NoRel(rest)
    ensures ParseFactor(AndSide(e) + rest) == Some(Parsed(RightNested(e), rest))
    decreases Size(e), 6
  {
    SideParens(e);
    if e.Or? { ParseParens(e, rest); } else { ParsePlainFactor(e, rest); }
  }

  lemma {:induction false} OrFactor(e: Expr, rest: seq<Token>)
    requires ChoiceFree(e) && !e.Or? && NoRel(rest)
    ensures ParseFactor(OrSide(e) + rest) == Some(Parsed(RightNested(e), rest))
    decreases Size(e), 6
  {
    SideParens(e);
    if e.And? { ParseParens(e, rest); } else { ParsePlainFactor(e, rest); }
  }

  lemma Regroup(l: seq<Token>, op: Token, r: seq<Token>, ts: seq<Token>)
    ensures (l + [op] + r) + [op] + ts == l + [op] + (r + [op] + ts)
  {
  }

  /** A && chain followed by && and more operands. */
  lemma {:induction false} AndChain(e: Expr, ts: seq<Token>, y: Expr, rest: seq<Token>)
    requires ChoiceFree(e) && ParseAnd(ts) == Some(Parsed(y, rest))
    ensures ParseAnd(AndSide(e) + [AndTok] + ts) == Some(Parsed(JoinAnd(RightNested(e), y), rest))
    decreases Size(e), if e.And? then 1 else 7
  {
    if e.And? {
      AndChain(e.r, ts, y, rest);
      AndChain(e.l, AndSide(e.r) + [AndTok] + ts, JoinAnd(RightNested(e.r), y), rest);
      JoinAndAssoc(RightNested(e.l), RightNested(e.r), y);
      Regroup(AndSide(e.l), AndTok, AndSide(e.r), ts);
    } else {
      AndFactor(e, [AndTok] + ts);
      assert AndSide(e) + [AndTok] + ts == AndSide(e) + ([AndTok] + ts);
      assert ([AndTok] + ts)[1..] == ts;
      NestedKind(e);
    }
  }

  lemma {:induction false} OrChain(e: Expr, ts: seq<Token>, y: Expr, rest: seq<Token>)
    requires ChoiceFree(e) && ParseExpr(ts) == Some(Parsed(y, rest))
    ensures ParseExpr(OrSide(e) + [OrTok] + ts) == Some(Parsed(JoinOr(RightNested(e), y), rest))
    decreases Size(e), if e.Or? then 1 else 7
  {
    if e.Or? {
      OrChain(e.r, ts, y, rest);
      OrChain(e.l, OrSide(e.r) + [OrTok] + ts, JoinOr(RightNested(e.r), y), rest);
      JoinOrAssoc(RightNested(e.l), RightNested(e.r), y);
      Regroup(OrSide(e.l), OrTok, OrSide(e.r), ts);
    } else {
      OrFactor(e, [OrTok] + ts);
      assert OrSide(e) + [OrTok] + ts == OrSide(e) + ([OrTok] + ts);
      assert ([OrTok] + ts)[1..] == ts;
      NestedKind(e);
    }
  }

  lemma NestedKind(e: Expr)
    ensures RightNested(e).And? == e.And? && RightNested(e).Or? == e.Or?
  {
  }

  /** A whole && chain, or a single operand of one. */
  lemma {:induction false} AndEnd(e: Expr, rest: seq<Token>)
    requires ChoiceFree(e) && NoRel(rest) && (rest == [] || rest[0] != AndTok)
    ensures ParseAnd(AndSide(e) + rest) == Some(Parsed(RightNested(e), rest))
    decreases Size(e), if e.And? then 1 else 7
  {
    if e.And? {
      AndEnd(e.r, rest);
      AndChain(e.l, AndSide(e.r) + rest, RightNested(e.r), rest);
      assert AndSide(e) + rest == AndSide(e.l) + [AndTok] + (AndSide(e.r) + rest);
    } else {
      AndFactor(e, rest);
    }
  }

  lemma {:induction false} OrEnd(e: Expr, rest: seq<Token>)
    requires ChoiceFree(e) && Ends(rest)
    ensures ParseExpr(OrSide(e) + rest) == Some(Parsed(RightNested(e), rest))
    decreases Size(e), if e.Or? then 1 else 7
  {
    if e.Or? {
      OrEnd(e.r, rest);
      OrChain(e.l, OrSide(e.r) + rest, RightNested(e.r), rest);
      assert OrSide(e) + rest == OrSide(e.l) + [OrTok] + (OrSide(e.r) + rest);
    } else {
      OrFactor(e, rest);
    }
  }

  lemma {:induction false} ParsePrint(e: Expr, rest: seq<Token>)
    requires ChoiceFree(e) && Ends(rest)
    ensures ParseExpr(Print(e) + rest) == Some(Parsed(RightNested(e), rest))
    decreases Size(e), 4
  {
    SideParens(e);
    if e.Or? {
      OrEnd(e, rest);
    } else if e.And? {
      AndEnd(e, rest);
    } else {
      ParsePlainFactor(e, rest);
    }
  }

  /** rest is what is left of ts after tokens none of which is a choice. */
  predicate ReadTo(ts: seq<Token>, rest: seq<Token>) {
    && |rest| < |ts| && ts[|ts| - |rest|..] == rest
    && forall k :: 0 <= k < |ts| - |rest| ==> !IsChoice(ts[k])
  }

  lemma ReadOn(ts: seq<Token>, mid: seq<Token>, rest: seq<Token>)
    requires ReadTo(ts, mid) && mid != [] && !IsChoice(mid[0]) && ReadTo(mid[1..], rest)
    ensures ReadTo(ts, rest)
  {
    var n := |ts| - |mid|;
    assert forall k :: 0 <= k < |mid| ==> ts[n + k] == mid[k];
    forall k | 0 <= k < |ts| - |rest| ensures !IsChoice(ts[k]) {
      if k > n { assert ts[k] == mid[1..][k - n - 1]; }
    }
  }

  lemma {:induction false} ExprReads(ts: seq<Token>)
    ensures var r := ParseExpr(ts); r.Some? ==> ReadTo(ts, r.value.rest)
    decreases |ts|, 2
  {
    AndReads(ts);
    var first := ParseAnd(ts);
    if first.Some? && first.value.rest != [] && first.value.rest[0] == OrTok && ParseExpr(ts).Some? {
      ExprReads(first.value.rest[1..]);
      ReadOn(ts, first.value.rest, ParseExpr(ts).value.rest);
    }
  }

  lemma {:induction false} AndReads(ts: seq<Token>)
    ensures var r := ParseAnd(ts); r.Some? ==> ReadTo(ts, r.value.rest)
    decreases |ts|, 1
  {
    FactorReads(ts);
    var first := ParseFactor(ts);
    if first.Some? && first.value.rest != [] && first.value.rest[0] == AndTok && ParseAnd(ts).Some? {
      AndReads(first.value.rest[1..]);
      ReadOn(ts, first.value.rest, ParseAnd(ts).value.rest);
    }
  }

  lemma {:induction false} FactorReads(ts: seq<Token>)
    ensures var r := ParseFactor(ts); r.Some? ==> ReadTo(ts, r.value.rest)
    decreases |ts|, 0
  {
    if ParseFactor(ts).Some? {
      match ts[0]
      case NotTok =>
        FactorReads(ts[1..]);
        ReadFirst(ts, ParseFactor(ts).value.rest);
      case Open =>
        ExprReads(ts[1..]);
        ParensRead(ts, ParseExpr(ts[1..]).value.rest);
      case _ => OperandsRead(ts);
    }
  }

  lemma OperandsRead(ts: seq<Token>)
    requires ts != [] && ts[0].Sym? && ParseFactor(ts).Some?
    ensures ReadTo(ts, ParseFactor(ts).value.rest)
  {
  }

  lemma ParensRead(ts: seq<Token>, inner: seq<Token>)
    requires ts != [] && ts[0].Open? && ReadTo(ts[1..], inner) && inner != [] && inner[0].Close?
    ensures ReadTo(ts, inner[1..])
  {
    ReadFirst(ts, inner);
    assert forall k :: 0 <= k < |inner| ==> ts[|ts| - |inner| + k] == inner[k];
  }

  lemma ReadFirst(ts: seq<Token>, rest: seq<Token>)
    requires ts != [] && !IsChoice(ts[0]) && ReadTo(ts[1..], rest)
    ensures ReadTo(ts, rest)
  {
    forall k | 0 <= k < |ts| - |rest| ensures !IsChoice(ts[k]) {
      if k > 0 { assert ts[k] == ts[1..][k - 1]; }
    }
  }

  predicate NoChoiceIn(ts: seq<Token>) {
    forall k :: 0 <= k < |ts| ==> !IsChoice(ts[k])
  }

  lemma NoChoiceConcat(a: seq<Token>, b: seq<Token>)
    ensures NoChoiceIn(a + b) <==> NoChoiceIn(a) && NoChoiceIn(b)
  {
    if NoChoiceIn(a + b) {
      forall k | 0 <= k < |a| ensures !IsChoice(a[k]) { assert (a + b)[k] == a[k]; }
      forall k | 0 <= k < |b| ensures !IsChoice(b[k]) { assert (a + b)[|a| + k] == b[k]; }
    }
  }

  lemma {:induction false} PrintShowsChoices(e: Expr)
    ensures NoChoiceIn(Print(e)) <==> ChoiceFree(e)
    ensures NoChoiceIn(AndSide(e)) <==> ChoiceFree(e)
    ensures NoChoiceIn(OrSide(e)) <==> ChoiceFree(e)
  {
    SideParens(e);
    match e
    case Atom(x) => assert Print(e)[0] == Sym(x);
    case Rel(_, a, b) => assert Print(e)[0] == Sym(a) && Print(e)[2] == Sym(b);
    case And(l, r) =>
      PrintShowsChoices(l);
      PrintShowsChoices(r);
      Around(AndSide(l), AndTok, AndSide(r));
      Bracketed([Open], Print(e));
    case Or(l, r) =>
      PrintShowsChoices(l);
      PrintShowsChoices(r);
      Around(OrSide(l), OrTok, OrSide(r));
      Bracketed([Open], Print(e));
    case Not(e1) =>
      PrintShowsChoices(e1);
      if e1.Atom? { NoChoiceConcat([NotTok], Print(e1)); } else { Bracketed([NotTok, Open], Print(e1)); }
  }

  lemma Around(a: seq<Token>, op: Token, b: seq<Token>)
    requires !IsChoice(op)
    ensures NoChoiceIn(a + [op] + b) <==> NoChoiceIn(a) && NoChoiceIn(b)
  {
    NoChoiceConcat(a + [op], b);
    NoChoiceConcat(a, [op]);
  }

  lemma Bracketed(before: seq<Token>, ts: seq<Token>)
    requires NoChoiceIn(before)
    ensures NoChoiceIn(before + ts + [Close]) <==> NoChoiceIn(ts)
  {
    NoChoiceConcat(before + ts, [Close]);
    NoChoiceConcat(before, ts);
  }

  /** What an expression prints as can be parsed exactly if it mentions no choice, and then gives the expression back,
      up to the nesting of && and || chains. */
  lemma PrintThenParse(e: Expr)
    ensures var r := ParseExpr(Print(e));
            && (r.Some? && r.value.rest == [] <==> ChoiceFree(e))
            && (ChoiceFree(e) ==> r == Some(Parsed(RightNested(e), [])))
  {
    assert Print(e) + [] == Print(e);
    if ChoiceFree(e) {
      ParsePrint(e, []);
    } else {
      ExprReads(Print(e));
      PrintShowsChoices(e);
    }
  }

  lemma {:induction false} SplitJoin(l: Expr, r: Expr)
    ensures IsRightNestedAnd(l) ==> SplitAnd(JoinAnd(l, r)) == SplitAnd(l) + SplitAnd(r)
    ensures IsRightNestedOr(l) ==> SplitOr(JoinOr(l, r)) == SplitOr(l) + SplitOr(r)
  {
    if l.And? && IsRightNestedAnd(l) {
      SplitJoin(l.r, r);
      assert [l.l] + (SplitAnd(l.r) + SplitAnd(r)) == [l.l] + SplitAnd(l.r) + SplitAnd(r);
    }
    if l.Or? && IsRightNestedOr(l) {
      SplitJoin(l.r, r);
      assert [l.l] + (SplitOr(l.r) + SplitOr(r)) == [l.l] + SplitOr(l.r) + SplitOr(r);
    }
  }

  predicate IsRightNestedAnd(e: Expr) {
    e.And? ==> !e.l.And? && IsRightNestedAnd(e.r)
  }

  predicate IsRightNestedOr(e: Expr) {
    e.Or? ==> !e.l.Or? && IsRightNestedOr(e.r)
  }

  lemma {:induction false} JoinNested(l: Expr, r: Expr)
    ensures IsRightNestedAnd(l) && IsRightNestedAnd(r) ==> IsRightNestedAnd(JoinAnd(l, r))
    ensures IsRightNestedOr(l) && IsRightNestedOr(r) ==> IsRightNestedOr(JoinOr(l, r))
  {
    if l.And? { JoinNested(l.r, r); }
    if l.Or? { JoinNested(l.r, r); }
  }

  lemma {:induction false} RightNestedIs(e: Expr)
    ensures IsRightNestedAnd(RightNested(e)) && IsRightNestedOr(RightNested(e))
  {
    if e.And? || e.Or? {
      RightNestedIs(e.l);
      RightNestedIs(e.r);
      JoinNested(RightNested(e.l), RightNested(e.r));
    }
  }

  lemma {:induction false} NestAllConcat(a: seq<Expr>, b: seq<Expr>)
    ensures NestAll(a + b) == NestAll(a) + NestAll(b)
  {
    if a == [] {
      assert a + b == b;
    } else {
      assert (a + b)[1..] == a[1..] + b;
      NestAllConcat(a[1..], b);
    }
  }

  /** Re-nesting keeps the operands of top-level chains, in order. */
  lemma {:induction false} SplitsKept(e: Expr)
    ensures SplitAnd(RightNested(e)) == NestAll(SplitAnd(e)) && SplitOr(RightNested(e)) == NestAll(SplitOr(e))
  {
    NestedKind(e);
    if e.And? || e.Or? {
      SplitsKept(e.l);
      SplitsKept(e.r);
      RightNestedIs(e.l);
      SplitJoin(RightNested(e.l), RightNested(e.r));
      NestAllConcat(SplitAnd(e.l), SplitAnd(e.r));
      NestAllConcat(SplitOr(e.l), SplitOr(e.r));
    }
  }

  lemma {:induction false} JoinValue(cfg: Config, u: User, l: Expr, r: Expr)
    requires Sane(cfg, u)
    ensures Ev(cfg, u, JoinAnd(l, r)) == Ev(cfg, u, And(l, r)) && Ev(cfg, u, JoinOr(l, r)) == Ev(cfg, u, Or(l, r))
  {
    if l.And? { JoinValue(cfg, u, l.r, r); }
    if l.Or? { JoinValue(cfg, u, l.r, r); }
  }

  /** Re-nesting keeps the value of an expression under every valuation. */
  lemma {:induction false} NestedValue(cfg: Config, u: User, e: Expr)
    requires Sane(cfg, u)
    ensures Ev(cfg, u, RightNested(e)) == Ev(cfg, u, e)
  {
    match e
    case And(l, r) =>
      NestedValue(cfg, u, l);
      NestedValue(cfg, u, r);
      JoinValue(cfg, u, RightNested(l), RightNested(r));
    case Or(l, r) =>
      NestedValue(cfg, u, l);
      NestedValue(cfg, u, r);
      JoinValue(cfg, u, RightNested(l), RightNested(r));
    case Not(e1) => NestedValue(cfg, u, e1);
    case _ =>
  }

  /** Printing and parsing back keeps the meaning of every expression for which it succeeds. */
  lemma PrintThenParseMeaning(cfg: Config, u: User, e: Expr)
    requires Sane(cfg, u)
    ensures var r := ParseExpr(Print(e));
            && (r.Some? && r.value.rest == [] <==> ChoiceFree(e))
            && (ChoiceFree(e) ==> Ev(cfg, u, r.value.e) == Ev(cfg, u, e))
  {
    PrintThenParse(e);
    NestedValue(cfg, u, e);
  }

  // What the parser makes of && and ||

  predicate IsFactor(e: Expr) {
    ChoiceFree(e) && !e.And? && !e.Or?
  }

  /** Factors with && between them. */
  predicate IsGroup(g: seq<Expr>) {
    |g| > 0 && forall k :: 0 <= k < |g| ==> IsFactor(g[k])
  }

  function GroupText(g: seq<Expr>): seq<Token>
    requires |g| > 0
  {
    if |g| == 1 then Print(g[0]) else Print(g[0]) + [AndTok] + GroupText(g[1..])
  }

  predicate AreGroups(gs: seq<seq<Expr>>) {
    |gs| > 0 && forall k :: 0 <= k < |gs| ==> IsGroup(gs[k])
  }

  /** Groups with || between them. */
  function GroupsText(gs: seq<seq<Expr>>): seq<Token>
    requires AreGroups(gs)
  {
    assert IsGroup(gs[0]);
    if |gs| == 1 then GroupText(gs[0]) else GroupText(gs[0]) + [OrTok] + GroupsText(gs[1..])
  }

  function LowestOf(cfg: Config, u: User, g: seq<Expr>): Tri
    requires Sane(cfg, u)
  {
    if g == [] then 2 else if Ev(cfg, u, g[0]) <= LowestOf(cfg, u, g[1..]) then Ev(cfg, u, g[0]) else LowestOf(cfg, u, g[1..])
  }

  function HighestOf(cfg: Config, u: User, gs: seq<seq<Expr>>): Tri
    requires Sane(cfg, u)
  {
    if gs == [] then 0
    else if LowestOf(cfg, u, gs[0]) >= HighestOf(cfg, u, gs[1..]) then LowestOf(cfg, u, gs[0])
    else HighestOf(cfg, u, gs[1..])
  }

  lemma FactorAlone(e: Expr, rest: seq<Token>)
    requires IsFactor(e) && NoRel(rest) && (rest == [] || rest[0] != AndTok)
    ensures ParseAnd(Print(e) + rest) == Some(Parsed(RightNested(e), rest))
  {
    SideParens(e);
    AndEnd(e, rest);
  }

  lemma FactorThen(e: Expr, ts: seq<Token>, y: Expr, rest: seq<Token>)
    requires IsFactor(e) && ParseAnd(ts) == Some(Parsed(y, rest))
    ensures ParseAnd(Print(e) + [AndTok] + ts) == Some(Parsed(And(RightNested(e), y), rest))
  {
    SideParens(e);
    AndChain(e, ts, y, rest);
    NestedKind(e);
  }

  lemma OrStep(ts: seq<Token>, e: Expr, more: seq<Token>, y: Expr, rest: seq<Token>)
    requires ParseAnd(ts) == Some(Parsed(e, [OrTok] + more)) && ParseExpr(more) == Some(Parsed(y, rest))
    ensures ParseExpr(ts) == Some(Parsed(Or(e, y), rest))
  {
    assert ([OrTok] + more)[1..] == more;
  }

  function GroupExpr(g: seq<Expr>): Expr
    requires |g| > 0
  {
    if |g| == 1 then RightNested(g[0]) else And(RightNested(g[0]), GroupExpr(g[1..]))
  }

  function GroupsExpr(gs: seq<seq<Expr>>): Expr
    requires AreGroups(gs)
  {
    assert IsGroup(gs[0]);
    if |gs| == 1 then GroupExpr(gs[0]) else Or(GroupExpr(gs[0]), GroupsExpr(gs[1..]))
  }

  lemma Reassociate(a: seq<Token>, b: seq<Token>, c: seq<Token>)
    ensures (a + b) + c == a + (b + c)
  {
  }

  lemma GroupTail(g: seq<Expr>, rest: seq<Token>)
    requires |g| > 1
    ensures GroupText(g) + rest == Print(g[0]) + [AndTok] + (GroupText(g[1..]) + rest)
  {
    Reassociate(Print(g[0]) + [AndTok], GroupText(g[1..]), rest);
  }

  lemma GroupsTail(gs: seq<seq<Expr>>, rest: seq<Token>)
    requires AreGroups(gs) && |gs| > 1
    ensures IsGroup(gs[0]) && AreGroups(gs[1..])
    ensures GroupsText(gs) + rest == GroupText(gs[0]) + ([OrTok] + (GroupsText(gs[1..]) + rest))
  {
    assert IsGroup(gs[0]);
    Reassociate(GroupText(gs[0]) + [OrTok], GroupsText(gs[1..]), rest);
    Reassociate(GroupText(gs[0]), [OrTok], GroupsText(gs[1..]) + rest);
  }

  lemma {:induction false} GroupParses(g: seq<Expr>, rest: seq<Token>)
    requires IsGroup(g) && NoRel(rest) && (rest == [] || rest[0] != AndTok)
    ensures ParseAnd(GroupText(g) + rest) == Some(Parsed(GroupExpr(g), rest))
    decreases |g|
  {
    if |g| == 1 {
      FactorAlone(g[0], rest);
    } else {
      var more := GroupText(g[1..]) + rest;
      GroupParses(g[1..], rest);
      FactorThen(g[0], more, GroupExpr(g[1..]), rest);
      GroupTail(g, rest);
    }
  }

  lemma {:induction false} GroupsParse(gs: seq<seq<Expr>>, rest: seq<Token>)
    requires AreGroups(gs) && Ends(rest)
    ensures ParseExpr(GroupsText(gs) + rest) == Some(Parsed(GroupsExpr(gs), rest))
    decreases |gs|
  {
    if |gs| == 1 {
      GroupParses(gs[0], rest);
    } else {
      GroupsTail(gs, rest);
      var more := GroupsText(gs[1..]) + rest;
      GroupsParse(gs[1..], rest);
      GroupParses(gs[0], [OrTok] + more);
      OrStep(GroupsText(gs) + rest, GroupExpr(gs[0]), more, GroupsExpr(gs[1..]), rest);
    }
  }

  lemma {:induction false} GroupValue(cfg: Config, u: User, g: seq<Expr>)
    requires Sane(cfg, u) && |g| > 0
    ensures Ev(cfg, u, GroupExpr(g)) == LowestOf(cfg, u, g)
    decreases |g|
  {
    NestedValue(cfg, u, g[0]);
    if |g| == 1 { assert LowestOf(cfg, u, g[1..]) == 2; } else { GroupValue(cfg, u, g[1..]); }
  }

  lemma {:induction false} GroupsValue(cfg: Config, u: User, gs: seq<seq<Expr>>)
    requires Sane(cfg, u) && AreGroups(gs)
    ensures Ev(cfg, u, GroupsExpr(gs)) == HighestOf(cfg, u, gs)
    decreases |gs|
  {
    GroupValue(cfg, u, gs[0]);
    if |gs| == 1 { assert HighestOf(cfg, u, gs[1..]) == 0; } else { GroupsValue(cfg, u, gs[1..]); }
  }

  /** || binds weaker than &&: without parentheses, the value is the highest, over the parts between ||, of the lowest
      operand between &&. */
  lemma ParsedGroups(cfg: Config, u: User, gs: seq<seq<Expr>>)
    requires Sane(cfg, u) && AreGroups(gs)
    ensures var r := ParseExpr(GroupsText(gs));
            r.Some? && r.value.rest == [] && Ev(cfg, u, r.value.e) == HighestOf(cfg, u, gs)
  {
    GroupsParse(gs, []);
    GroupsValue(cfg, u, gs);
    assert GroupsText(gs) + [] == GroupsText(gs);
  }
}
