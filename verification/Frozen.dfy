/** Re-evaluating each symbol once, in another user state but with the values that its inputs have now. */
module Frozen {
  import opened KconfigLang
  import opened Evaluation
  import opened Dependents
  import opened EvaluationOrder

  /** Replaces each reference to a symbol, and each comparison of symbols, by its present value. Modes of choices
      remain. */
  function FreezeExpr(cfg: Config, u: User, e: Expr): Expr
    requires Sane(cfg, u)
  {
    match e
    case Atom(x) => if x.Ref? then Atom(Nmy(LeafTri(cfg, u, x))) else e
    case And(l, r) => And(FreezeExpr(cfg, u, l), FreezeExpr(cfg, u, r))
    case Or(l, r) => Or(FreezeExpr(cfg, u, l), FreezeExpr(cfg, u, r))
    case Not(e1) => Not(FreezeExpr(cfg, u, e1))
    case Rel(_, a, b) => if a.Mode? || b.Mode? then e else Atom(Nmy(Ev(cfg, u, e)))
  }

  function FreezeLeaf(cfg: Config, u: User, x: Leaf): Leaf
    requires Sane(cfg, u)
  {
    if x.Ref? then Lit(LeafStr(cfg, u, x)) else x
  }

  function FreezeDefault(cfg: Config, u: User, typ: SymType, d: Default): Default
    requires Sane(cfg, u)
  {
    Default(if Boolish(typ) then FreezeExpr(cfg, u, d.value) else Atom(FreezeLeaf(cfg, u, DefaultLeaf(d.value))),
            FreezeExpr(cfg, u, d.cond))
  }

  function FreezeNode(cfg: Config, u: User, n: Node): Node
    requires Sane(cfg, u)
  {
    n.(prompt := if n.prompt.Some? then Some(FreezeExpr(cfg, u, n.prompt.value)) else None)
  }

  function FreezeNodes(cfg: Config, u: User, nodes: seq<Node>): seq<Node>
    requires Sane(cfg, u)
  {
    seq(|nodes|, k requires 0 <= k < |nodes| => FreezeNode(cfg, u, nodes[k]))
  }

  function FreezeRange(cfg: Config, u: User, r: Range): Range
    requires Sane(cfg, u)
  {
    Range(FreezeLeaf(cfg, u, r.low), FreezeLeaf(cfg, u, r.high), FreezeExpr(cfg, u, r.cond))
  }

  function FreezeSym(cfg: Config, u: User, d: SymDef): SymDef
    requires Sane(cfg, u)
  {
    d.(nodes := FreezeNodes(cfg, u, d.nodes),
       defaults := seq(|d.defaults|, k requires 0 <= k < |d.defaults| => FreezeDefault(cfg, u, d.typ, d.defaults[k])),
       ranges := seq(|d.ranges|, k requires 0 <= k < |d.ranges| => FreezeRange(cfg, u, d.ranges[k])),
       revDep := FreezeExpr(cfg, u, d.revDep),
       weakRevDep := FreezeExpr(cfg, u, d.weakRevDep),
       directDep := FreezeExpr(cfg, u, d.directDep))
  }

  function FreezeChoice(cfg: Config, u: User, d: ChoiceDef): ChoiceDef
    requires Sane(cfg, u)
  {
    d.(nodes := FreezeNodes(cfg, u, d.nodes),
       defaults := seq(|d.defaults|, k requires 0 <= k < |d.defaults| =>
                         Pick(d.defaults[k].sym, FreezeExpr(cfg, u, d.defaults[k].cond))))
  }

  function Frozen(cfg: Config, u: User): Config
    requires Sane(cfg, u)
  {
    cfg.(syms := seq(|cfg.syms|, s requires 0 <= s < |cfg.syms| => FreezeSym(cfg, u, cfg.syms[s])),
         choices := seq(|cfg.choices|, c requires 0 <= c < |cfg.choices| => FreezeChoice(cfg, u, cfg.choices[c])))
  }

  // Frozen configurations can be evaluated

  lemma FrozenAt(cfg: Config, u: User)
    requires Sane(cfg, u)
    ensures var f := Frozen(cfg, u);
            && (forall s: nat :: SymAt(f, s) == FreezeSym(cfg, u, SymAt(cfg, s)))
            && (forall c: nat :: ChoiceAt(f, c) == FreezeChoice(cfg, u, ChoiceAt(cfg, c)))
            && (forall i :: Rank(f, i) == Rank(cfg, i))
  {
    assert FreezeSym(cfg, u, NO_SYM) == NO_SYM;
    assert FreezeChoice(cfg, u, NO_CHOICE) == NO_CHOICE;
  }

  lemma {:induction false} FrozenMentions(cfg: Config, u: User, e: Expr, j: Item)
    requires Sane(cfg, u) && Mentions(FreezeExpr(cfg, u, e), j)
    ensures Mentions(e, j)
  {
    match e
    case And(l, r) =>
      if Mentions(FreezeExpr(cfg, u, l), j) { FrozenMentions(cfg, u, l, j); } else { FrozenMentions(cfg, u, r, j); }
    case Or(l, r) =>
      if Mentions(FreezeExpr(cfg, u, l), j) { FrozenMentions(cfg, u, l, j); } else { FrozenMentions(cfg, u, r, j); }
    case Not(e1) => FrozenMentions(cfg, u, e1, j);
    case _ =>
  }

  lemma FrozenSymDepends(cfg: Config, u: User, d: SymDef, j: Item)
    requires Sane(cfg, u) && SymDepends(FreezeSym(cfg, u, d), j)
    ensures SymDepends(d, j)
  {
    forall e | Mentions(FreezeExpr(cfg, u, e), j) ensures Mentions(e, j) {
      FrozenMentions(cfg, u, e, j);
    }
  }

  lemma FrozenChoiceUses(cfg: Config, u: User, d: ChoiceDef, j: Item)
    requires Sane(cfg, u) && ChoiceUses(FreezeChoice(cfg, u, d), j)
    ensures ChoiceUses(d, j)
  {
    forall e | Mentions(FreezeExpr(cfg, u, e), j) ensures Mentions(e, j) {
      FrozenMentions(cfg, u, e, j);
    }
  }

  lemma FrozenSane(cfg: Config, u: User, w: User)
    requires Sane(cfg, u) && Sane(cfg, w)
    ensures Sane(Frozen(cfg, u), w)
  {
    var f := Frozen(cfg, u);
    FrozenAt(cfg, u);
    forall s: nat ensures SymRanked(f, s) {
      SymRankedIff(f, s);
      SymRankedIff(cfg, s);
      forall j | SymDepends(SymAt(f, s), j) ensures ItemLevel(f, j) <= 8 * Rank(f, S(s)) + 2 {
        FrozenSymDepends(cfg, u, SymAt(cfg, s), j);
      }
    }
    forall c: nat ensures ChoiceRanked(f, c) {
      ChoiceRankedIff(f, c);
      ChoiceRankedIff(cfg, c);
      forall j | ChoiceUses(ChoiceAt(f, c), j) ensures ItemLevel(f, j) <= 8 * Rank(f, C(c)) {
        FrozenChoiceUses(cfg, u, ChoiceAt(cfg, c), j);
      }
    }
  }

  // What a frozen configuration evaluates to

  ghost predicate SameSym(cfg: Config, u: User, w: User, s: nat)
    requires Sane(cfg, u) && Sane(cfg, w)
  {
    TriOf(cfg, u, s).val == TriOf(cfg, w, s).val && StrOf(cfg, u, s).val == StrOf(cfg, w, s).val
  }

  /** The two user states give the same values to all symbols ranked below r. */
  ghost predicate AgreeBelow(cfg: Config, u: User, w: User, r: nat) {
    && Sane(cfg, u) && Sane(cfg, w) && Sane(Frozen(cfg, u), w)
    && forall s: nat :: Rank(cfg, S(s)) < r ==> SameSym(cfg, u, w, s)
  }

  lemma FrozenLeaf(cfg: Config, u: User, w: User, r: nat, x: Leaf)
    requires AgreeBelow(cfg, u, w, r) && LeafLevel(cfg, x) <= 8 * r + 2
    ensures var f := Frozen(cfg, u);
            && LeafTri(f, w, x) == LeafTri(cfg, w, x) && LeafStr(f, w, x) == LeafStr(cfg, w, x)
            && LeafType(f, x) == LeafType(cfg, x) && LeafNum(f, w, x) == LeafNum(cfg, w, x)
    ensures LeafStr(Frozen(cfg, u), w, FreezeLeaf(cfg, u, x)) == LeafStr(cfg, w, x)
    decreases LeafLevel(cfg, x), 0, 0
  {
    FrozenAt(cfg, u);
    match x
    case Ref(s) =>
      FrozenTri(cfg, u, w, r, s);
      FrozenStr(cfg, u, w, r, s);
      assert SameSym(cfg, u, w, s);
    case Mode(c) => FrozenMode(cfg, u, w, r, c);
    case _ =>
  }

  lemma AgreeLeaf(cfg: Config, u: User, w: User, r: nat, x: Leaf)
    requires AgreeBelow(cfg, u, w, r) && LeafLevel(cfg, x) <= 8 * r + 2 && !x.Mode?
    ensures LeafTri(cfg, u, x) == LeafTri(cfg, w, x) && LeafStr(cfg, u, x) == LeafStr(cfg, w, x)
    ensures LeafNum(cfg, u, x) == LeafNum(cfg, w, x)
  {
    if x.Ref? { assert SameSym(cfg, u, w, x.s); }
  }

  lemma {:induction false} FrozenExpr(cfg: Config, u: User, w: User, r: nat, e: Expr)
    requires AgreeBelow(cfg, u, w, r) && ExprLevel(cfg, e) <= 8 * r + 2
    ensures Ev(Frozen(cfg, u), w, FreezeExpr(cfg, u, e)) == Ev(cfg, w, e)
    decreases ExprLevel(cfg, e), 1, Size(e)
  {
    match e
    case Atom(x) =>
      if x.Ref? { AgreeLeaf(cfg, u, w, r, x); } else { FrozenLeaf(cfg, u, w, r, x); }
    case And(a, b) => FrozenExpr(cfg, u, w, r, a); FrozenExpr(cfg, u, w, r, b);
    case Or(a, b) => FrozenExpr(cfg, u, w, r, a); FrozenExpr(cfg, u, w, r, b);
    case Not(e1) => FrozenExpr(cfg, u, w, r, e1);
    case Rel(_, a, b) =>
      if a.Mode? || b.Mode? {
        FrozenLeaf(cfg, u, w, r, a);
        FrozenLeaf(cfg, u, w, r, b);
        assert Compare(Frozen(cfg, u), w, a, b) == Compare(cfg, w, a, b);
      } else {
        AgreeCompare(cfg, u, w, r, a, b);
      }
  }

  lemma AgreeCompare(cfg: Config, u: User, w: User, r: nat, a: Leaf, b: Leaf)
    requires AgreeBelow(cfg, u, w, r) && ExprLevel(cfg, Rel(EQUAL, a, b)) <= 8 * r + 2 && !a.Mode? && !b.Mode?
    ensures Compare(cfg, u, a, b) == Compare(cfg, w, a, b)
  {
    AgreeLeaf(cfg, u, w, r, a);
    AgreeLeaf(cfg, u, w, r, b);
  }

  lemma FrozenPrompts(cfg: Config, u: User, w: User, r: nat, i: Item, n: nat)
    requires AgreeBelow(cfg, u, w, r) && Rank(cfg, i) <= r && n <= |NodesOf(cfg, i)|
    ensures |NodesOf(Frozen(cfg, u), i)| == |NodesOf(cfg, i)|
    ensures Prompts(Frozen(cfg, u), w, i, n) == Prompts(cfg, w, i, n)
    decreases VisLevel(cfg, i), 2, n
  {
    FrozenAt(cfg, u);
    if n > 0 {
      FrozenPrompts(cfg, u, w, r, i, n - 1);
      assert i.S? ==> SymRanked(cfg, i.s);
      assert i.C? ==> ChoiceRanked(cfg, i.c);
      var p := NodesOf(cfg, i)[n - 1].prompt;
      if p.Some? { FrozenExpr(cfg, u, w, r, p.value); }
    }
  }

  lemma FrozenType(cfg: Config, u: User, w: User, r: nat, s: nat)
    requires AgreeBelow(cfg, u, w, r) && Rank(cfg, S(s)) <= r
    ensures SymTypeOf(Frozen(cfg, u), w, s) == SymTypeOf(cfg, w, s)
    decreases 8 * Rank(cfg, S(s)) + 2, 2, 0
  {
    FrozenAt(cfg, u);
    assert SymRanked(cfg, s);
    var d := SymAt(cfg, s);
    if d.typ == TRISTATE {
      if d.choice.Some? { FrozenMode(cfg, u, w, r, d.choice.value); }
      FrozenTri(cfg, u, w, r, cfg.modules);
    }
  }

  lemma FrozenChoiceType(cfg: Config, u: User, w: User, r: nat, c: nat)
    requires AgreeBelow(cfg, u, w, r) && Rank(cfg, C(c)) <= r
    ensures ChoiceTypeOf(Frozen(cfg, u), w, c) == ChoiceTypeOf(cfg, w, c)
    decreases 8 * Rank(cfg, C(c)), 2, 0
  {
    FrozenAt(cfg, u);
    assert ChoiceRanked(cfg, c);
    if ChoiceAt(cfg, c).typ == TRISTATE { FrozenTri(cfg, u, w, r, cfg.modules); }
  }

  lemma FrozenVis(cfg: Config, u: User, w: User, r: nat, i: Item)
    requires AgreeBelow(cfg, u, w, r) && Rank(cfg, i) <= r
    ensures Vis(Frozen(cfg, u), w, i) == Vis(cfg, w, i)
    decreases VisLevel(cfg, i), 3, 0
  {
    FrozenAt(cfg, u);
    FrozenPrompts(cfg, u, w, r, i, |NodesOf(cfg, i)|);
    match i
    case C(c) => FrozenChoiceType(cfg, u, w, r, c);
    case S(s) =>
      FrozenType(cfg, u, w, r, s);
      if SymAt(cfg, s).choice.Some? { FrozenMode(cfg, u, w, r, SymAt(cfg, s).choice.value); }
  }

  lemma FrozenMode(cfg: Config, u: User, w: User, r: nat, c: nat)
    requires AgreeBelow(cfg, u, w, r) && Rank(cfg, C(c)) <= r
    ensures ModeOf(Frozen(cfg, u), w, c) == ModeOf(cfg, w, c)
    decreases 8 * Rank(cfg, C(c)) + 1, 3, 0
  {
    FrozenAt(cfg, u);
    FrozenVis(cfg, u, w, r, C(c));
    FrozenChoiceType(cfg, u, w, r, c);
  }

  lemma FrozenFirst(cfg: Config, u: User, w: User, r: nat, c: nat, k: nat)
    requires AgreeBelow(cfg, u, w, r) && Rank(cfg, C(c)) <= r && k <= |ChoiceAt(cfg, c).syms|
    ensures ChoiceAt(Frozen(cfg, u), c).syms == ChoiceAt(cfg, c).syms
    ensures FirstVisible(Frozen(cfg, u), w, c, k) == FirstVisible(cfg, w, c, k)
    decreases 8 * Rank(cfg, C(c)) + 3, 2, |ChoiceAt(cfg, c).syms| - k
  {
    FrozenAt(cfg, u);
    assert ChoiceRanked(cfg, c);
    if k < |ChoiceAt(cfg, c).syms| {
      FrozenVis(cfg, u, w, r, S(ChoiceAt(cfg, c).syms[k]));
      FrozenFirst(cfg, u, w, r, c, k + 1);
    }
  }

  lemma FrozenSelDefault(cfg: Config, u: User, w: User, r: nat, c: nat, k: nat)
    requires AgreeBelow(cfg, u, w, r) && Rank(cfg, C(c)) <= r && k <= |ChoiceAt(cfg, c).defaults|
    ensures |ChoiceAt(Frozen(cfg, u), c).defaults| == |ChoiceAt(cfg, c).defaults|
    ensures SelDefault(Frozen(cfg, u), w, c, k) == SelDefault(cfg, w, c, k)
    decreases 8 * Rank(cfg, C(c)) + 3, 2, |ChoiceAt(cfg, c).defaults| - k + |ChoiceAt(cfg, c).syms| + 1
  {
    FrozenAt(cfg, u);
    assert ChoiceRanked(cfg, c);
    if k == |ChoiceAt(cfg, c).defaults| {
      FrozenFirst(cfg, u, w, r, c, 0);
    } else {
      var p := ChoiceAt(cfg, c).defaults[k];
      FrozenExpr(cfg, u, w, r, p.cond);
      FrozenVis(cfg, u, w, r, S(p.sym));
      FrozenSelDefault(cfg, u, w, r, c, k + 1);
    }
  }

  lemma FrozenSel(cfg: Config, u: User, w: User, r: nat, c: nat)
    requires AgreeBelow(cfg, u, w, r) && Rank(cfg, C(c)) <= r
    ensures SelOf(Frozen(cfg, u), w, c) == SelOf(cfg, w, c)
    decreases 8 * Rank(cfg, C(c)) + 3, 3, 0
  {
    FrozenMode(cfg, u, w, r, c);
    if c in w.pick { FrozenVis(cfg, u, w, r, S(w.pick[c])); }
    FrozenSelDefault(cfg, u, w, r, c, 0);
  }

  lemma FrozenDefaultTri(cfg: Config, u: User, w: User, r: nat, s: nat, k: nat)
    requires AgreeBelow(cfg, u, w, r) && Rank(cfg, S(s)) <= r && Boolish(SymAt(cfg, s).typ) && k <= |SymAt(cfg, s).defaults|
    ensures |SymAt(Frozen(cfg, u), s).defaults| == |SymAt(cfg, s).defaults|
    ensures DefaultTri(Frozen(cfg, u), w, s, k) == DefaultTri(cfg, w, s, k)
    decreases 8 * Rank(cfg, S(s)) + 4, 2, |SymAt(cfg, s).defaults| - k
  {
    FrozenAt(cfg, u);
    assert SymRanked(cfg, s);
    if k < |SymAt(cfg, s).defaults| {
      FrozenExpr(cfg, u, w, r, SymAt(cfg, s).defaults[k].cond);
      FrozenExpr(cfg, u, w, r, SymAt(cfg, s).defaults[k].value);
      FrozenDefaultTri(cfg, u, w, r, s, k + 1);
    }
  }

  lemma FrozenTri(cfg: Config, u: User, w: User, r: nat, s: nat)
    requires AgreeBelow(cfg, u, w, r) && Rank(cfg, S(s)) <= r
    ensures TriOf(Frozen(cfg, u), w, s) == TriOf(cfg, w, s)
    decreases 8 * Rank(cfg, S(s)) + 4, 3, 0
  {
    FrozenAt(cfg, u);
    var d := SymAt(cfg, s);
    assert SymRanked(cfg, s);
    if Boolish(d.typ) {
      FrozenVis(cfg, u, w, r, S(s));
      if d.choice.Some? {
        FrozenSel(cfg, u, w, r, d.choice.value);
      } else {
        FrozenDefaultTri(cfg, u, w, r, s, 0);
        FrozenExpr(cfg, u, w, r, d.revDep);
        FrozenExpr(cfg, u, w, r, d.weakRevDep);
        FrozenExpr(cfg, u, w, r, d.directDep);
        FrozenType(cfg, u, w, r, s);
        assert Wanted(Frozen(cfg, u), w, s) == Wanted(cfg, w, s);
      }
    }
  }

  lemma FrozenDefaultStr(cfg: Config, u: User, w: User, r: nat, s: nat, k: nat)
    requires AgreeBelow(cfg, u, w, r) && Rank(cfg, S(s)) <= r && !Boolish(SymAt(cfg, s).typ) && k <= |SymAt(cfg, s).defaults|
    ensures |SymAt(Frozen(cfg, u), s).defaults| == |SymAt(cfg, s).defaults|
    ensures DefaultStr(Frozen(cfg, u), w, s, k) == DefaultStr(cfg, w, s, k)
    decreases 8 * Rank(cfg, S(s)) + 5, 2, |SymAt(cfg, s).defaults| - k
  {
    FrozenAt(cfg, u);
    assert SymRanked(cfg, s);
    if k < |SymAt(cfg, s).defaults| {
      FrozenExpr(cfg, u, w, r, SymAt(cfg, s).defaults[k].cond);
      FrozenLeaf(cfg, u, w, r, DefaultLeaf(SymAt(cfg, s).defaults[k].value));
      FrozenDefaultStr(cfg, u, w, r, s, k + 1);
    }
  }

  lemma FrozenRange(cfg: Config, u: User, w: User, r: nat, s: nat, k: nat)
    requires AgreeBelow(cfg, u, w, r) && Rank(cfg, S(s)) <= r && k <= |SymAt(cfg, s).ranges|
    ensures |SymAt(Frozen(cfg, u), s).ranges| == |SymAt(cfg, s).ranges|
    ensures ActiveRange(Frozen(cfg, u), w, s, k) == ActiveRange(cfg, w, s, k)
    decreases 8 * Rank(cfg, S(s)) + 5, 2, |SymAt(cfg, s).ranges| - k
  {
    FrozenAt(cfg, u);
    assert SymRanked(cfg, s);
    if k < |SymAt(cfg, s).ranges| {
      FrozenExpr(cfg, u, w, r, SymAt(cfg, s).ranges[k].cond);
      FrozenLeaf(cfg, u, w, r, SymAt(cfg, s).ranges[k].low);
      FrozenLeaf(cfg, u, w, r, SymAt(cfg, s).ranges[k].high);
      FrozenRange(cfg, u, w, r, s, k + 1);
    }
  }

  lemma FrozenStr(cfg: Config, u: User, w: User, r: nat, s: nat)
    requires AgreeBelow(cfg, u, w, r) && Rank(cfg, S(s)) <= r
    ensures StrOf(Frozen(cfg, u), w, s) == StrOf(cfg, w, s)
    decreases 8 * Rank(cfg, S(s)) + 5, 3, 0
  {
    FrozenAt(cfg, u);
    assert SymRanked(cfg, s);
    if Boolish(SymAt(cfg, s).typ) {
      FrozenTri(cfg, u, w, r, s);
    } else {
      FrozenVis(cfg, u, w, r, S(s));
      FrozenDefaultStr(cfg, u, w, r, s, 0);
      FrozenRange(cfg, u, w, r, s, 0);
    }
  }

  /** Symbol s keeps its text when it is evaluated once in user state w from the present values of its inputs. */
  ghost predicate KeepsText(cfg: Config, u: User, w: User, s: nat)
    requires Sane(cfg, u) && Sane(cfg, w)
  {
    Sane(Frozen(cfg, u), w) && StrOf(Frozen(cfg, u), w, s).val == StrOf(cfg, u, s).val
  }

  lemma TextTellsValue(cfg: Config, u: User, w: User, s: nat)
    requires Sane(cfg, u) && Sane(cfg, w) && StrOf(cfg, u, s).val == StrOf(cfg, w, s).val
    ensures SameSym(cfg, u, w, s)
  {
  }

  lemma {:induction false} KeptBelow(cfg: Config, u: User, w: User, r: nat)
    requires Sane(cfg, u) && Sane(cfg, w) && forall s: nat :: KeepsText(cfg, u, w, s)
    ensures AgreeBelow(cfg, u, w, r)
  {
    FrozenSane(cfg, u, w);
    if r > 0 {
      KeptBelow(cfg, u, w, r - 1);
      forall s: nat | Rank(cfg, S(s)) < r ensures SameSym(cfg, u, w, s) {
        FrozenStr(cfg, u, w, r - 1, s);
        assert KeepsText(cfg, u, w, s);
        TextTellsValue(cfg, u, w, s);
      }
    }
  }

  /** Two user states give the same values to all symbols exactly if each symbol, evaluated once in the second state
      from the values of the first, keeps its text. */
  lemma SameIffKept(cfg: Config, u: User, w: User)
    requires Sane(cfg, u) && Sane(cfg, w)
    ensures (forall s: nat :: SameSym(cfg, u, w, s)) <==> (forall s: nat :: KeepsText(cfg, u, w, s))
  {
    FrozenSane(cfg, u, w);
    if forall s: nat :: SameSym(cfg, u, w, s) {
      forall s: nat ensures KeepsText(cfg, u, w, s) {
        FrozenStr(cfg, u, w, Rank(cfg, S(s)), s);
        assert SameSym(cfg, u, w, s);
      }
    }
    if forall s: nat :: KeepsText(cfg, u, w, s) {
      forall s: nat ensures SameSym(cfg, u, w, s) {
        KeptBelow(cfg, u, w, Rank(cfg, S(s)) + 1);
      }
    }
  }
}
