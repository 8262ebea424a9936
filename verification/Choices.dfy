/** Well-formed configurations, and what choices guarantee in them. */
module Choices {
  import opened KconfigLang
  import opened Evaluation

  /** d is an operand of the conjunction e, or has been simplified away. */
  predicate Guards(d: Expr, e: Expr) {
    e == N || d == Y || e == d || (e.And? && (Guards(d, e.l) || Guards(d, e.r)))
  }

  /** d is an operand of the disjunction e, or has been simplified away. */
  predicate Offers(d: Expr, e: Expr) {
    e == Y || d == N || e == d || (e.Or? && (Offers(d, e.l) || Offers(d, e.r)))
  }

  /** Every prompt of a choice symbol lies inside its choice, so the mode of the choice guards it. */
  ghost predicate ChoiceSymOk(cfg: Config, s: nat) {
    var d := SymAt(cfg, s);
    d.choice.Some? ==>
      && d.choice.value < |cfg.choices|
      && s in ChoiceAt(cfg, d.choice.value).syms
      && Boolish(d.typ) && Boolish(ChoiceAt(cfg, d.choice.value).typ)
      && forall k :: 0 <= k < |d.nodes| && d.nodes[k].prompt.Some? ==>
                       Guards(Atom(Mode(d.choice.value)), d.nodes[k].prompt.value)
  }

  ghost predicate ChoicesOk(cfg: Config) {
    forall s: nat :: ChoiceSymOk(cfg, s)
  }

  /** The dependency of each menu node guards its prompt, and the direct dependency of a symbol is the
      disjunction over its menu nodes. */
  ghost predicate DepsOk(cfg: Config, s: nat) {
    var d := SymAt(cfg, s);
    forall k :: 0 <= k < |d.nodes| && d.nodes[k].prompt.Some? ==>
                  Guards(d.nodes[k].dep, d.nodes[k].prompt.value) && Offers(d.nodes[k].dep, d.directDep)
  }

  lemma GuardBounds(cfg: Config, u: User, d: Expr, e: Expr)
    requires Sane(cfg, u) && Guards(d, e)
    ensures Ev(cfg, u, e) <= Ev(cfg, u, d)
  {
  }

  lemma OfferBounds(cfg: Config, u: User, d: Expr, e: Expr)
    requires Sane(cfg, u) && Offers(d, e)
    ensures Ev(cfg, u, d) <= Ev(cfg, u, e)
  {
  }

  /** A non-n maximum over prompts comes from one of them. */
  lemma {:induction false} PromptWitness(cfg: Config, u: User, i: Item, n: nat) returns (k: nat)
    requires Sane(cfg, u) && n <= |NodesOf(cfg, i)| && Prompts(cfg, u, i, n) != 0
    ensures k < n && NodesOf(cfg, i)[k].prompt.Some?
    ensures Ev(cfg, u, NodesOf(cfg, i)[k].prompt.value) == Prompts(cfg, u, i, n)
  {
    var p := NodesOf(cfg, i)[n - 1].prompt;
    if p.Some? && Ev(cfg, u, p.value) == Prompts(cfg, u, i, n) {
      k := n - 1;
    } else {
      k := PromptWitness(cfg, u, i, n - 1);
    }
  }

  /** A symbol that the user can see has its dependencies met. */
  lemma VisibleHasDeps(cfg: Config, u: User, s: nat)
    requires Sane(cfg, u) && DepsOk(cfg, s) && Vis(cfg, u, S(s)) != 0
    ensures Ev(cfg, u, SymAt(cfg, s).directDep) != 0
  {
    var k := PromptWitness(cfg, u, S(s), |SymAt(cfg, s).nodes|);
    var node := SymAt(cfg, s).nodes[k];
    GuardBounds(cfg, u, node.dep, node.prompt.value);
    OfferBounds(cfg, u, node.dep, SymAt(cfg, s).directDep);
  }

  lemma PromptsBelowMode(cfg: Config, u: User, s: nat)
    requires Sane(cfg, u) && ChoiceSymOk(cfg, s) && SymAt(cfg, s).choice.Some?
    ensures Prompts(cfg, u, S(s), |SymAt(cfg, s).nodes|) <= ModeOf(cfg, u, SymAt(cfg, s).choice.value)
  {
    var d := SymAt(cfg, s);
    if Prompts(cfg, u, S(s), |d.nodes|) != 0 {
      var k := PromptWitness(cfg, u, S(s), |d.nodes|);
      GuardBounds(cfg, u, Atom(Mode(d.choice.value)), d.nodes[k].prompt.value);
    }
  }

  /** The mode of a choice bounds the visibility of its symbols. */
  lemma ModeBoundsVisibility(cfg: Config, u: User, s: nat)
    requires Sane(cfg, u) && ChoiceSymOk(cfg, s) && SymAt(cfg, s).choice.Some?
    ensures Vis(cfg, u, S(s)) <= ModeOf(cfg, u, SymAt(cfg, s).choice.value)
  {
    PromptsBelowMode(cfg, u, s);
  }

  /** A symbol of a choice in y mode has visibility n or y. */
  lemma VisibilityInYMode(cfg: Config, u: User, s: nat)
    requires Sane(cfg, u) && ChoiceSymOk(cfg, s) && SymAt(cfg, s).choice.Some?
    requires ModeOf(cfg, u, SymAt(cfg, s).choice.value) == 2
    ensures Vis(cfg, u, S(s)) != 1
  {
    var d := SymAt(cfg, s);
    if Prompts(cfg, u, S(s), |d.nodes|) == 1 && d.typ == BOOL {
      assert SymTypeOf(cfg, u, s) == BOOL;
    }
  }

  lemma FirstVisibleIs(cfg: Config, u: User, c: nat, k: nat)
    requires Sane(cfg, u) && k <= |ChoiceAt(cfg, c).syms|
    ensures var r := FirstVisible(cfg, u, c, k);
            && (r.Some? ==> r.value in ChoiceAt(cfg, c).syms && Vis(cfg, u, S(r.value)) != 0)
            && (r.None? ==> forall j :: k <= j < |ChoiceAt(cfg, c).syms| ==> Vis(cfg, u, S(ChoiceAt(cfg, c).syms[j])) == 0)
    decreases |ChoiceAt(cfg, c).syms| - k
  {
  }

  lemma SelDefaultIs(cfg: Config, u: User, c: nat, k: nat)
    requires Sane(cfg, u) && k <= |ChoiceAt(cfg, c).defaults|
    ensures var r := SelDefault(cfg, u, c, k);
            && (r.Some? ==> SymAt(cfg, r.value).choice == Some(c) && Vis(cfg, u, S(r.value)) != 0)
            && (r.None? ==> forall s :: s in ChoiceAt(cfg, c).syms ==> Vis(cfg, u, S(s)) == 0)
    decreases |ChoiceAt(cfg, c).defaults| - k
  {
    assert ChoiceRanked(cfg, c);
    if k == |ChoiceAt(cfg, c).defaults| {
      FirstVisibleIs(cfg, u, c, 0);
    } else {
      SelDefaultIs(cfg, u, c, k + 1);
    }
  }

  /** A choice selects a visible one of its symbols, exactly when it is in y mode and has a visible symbol. */
  lemma SelectionIsVisible(cfg: Config, u: User, c: nat)
    requires Sane(cfg, u) && ChoicesOk(cfg)
    ensures var r := SelOf(cfg, u, c);
            && (r.Some? ==> ModeOf(cfg, u, c) == 2 && SymAt(cfg, r.value).choice == Some(c) && Vis(cfg, u, S(r.value)) != 0)
            && (r.None? && ModeOf(cfg, u, c) == 2 ==>
                  forall s: nat :: SymAt(cfg, s).choice == Some(c) ==> Vis(cfg, u, S(s)) == 0)
  {
    SelDefaultIs(cfg, u, c, 0);
    forall s: nat | SymAt(cfg, s).choice == Some(c)
      ensures s in ChoiceAt(cfg, c).syms
    {
      assert ChoiceSymOk(cfg, s);
    }
  }

  /** In y mode exactly the selected symbol is y and the others are n; in m mode no symbol is y; in n mode
      all symbols are n. */
  lemma ChoiceExclusivity(cfg: Config, u: User, c: nat, s: nat)
    requires Sane(cfg, u) && ChoicesOk(cfg) && SymAt(cfg, s).choice == Some(c)
    ensures ModeOf(cfg, u, c) == 2 ==> TriOf(cfg, u, s).val == if SelOf(cfg, u, c) == Some(s) then 2 else 0
    ensures ModeOf(cfg, u, c) == 1 ==> TriOf(cfg, u, s).val <= 1
    ensures ModeOf(cfg, u, c) == 0 ==> TriOf(cfg, u, s).val == 0
    ensures TriOf(cfg, u, s).val == 2 <==> SelOf(cfg, u, c) == Some(s)
  {
    assert ChoiceSymOk(cfg, s) && ChoiceRanked(cfg, c);
    ModeBoundsVisibility(cfg, u, s);
    SelectionIsVisible(cfg, u, c);
    if ModeOf(cfg, u, c) == 2 {
      VisibilityInYMode(cfg, u, s);
    }
  }
}
