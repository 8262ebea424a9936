/** Why a saved configuration reproduces every value: evaluation from the saved values, or from a subset of them
    that omits only what defaults, selects and default choice selections bring back. */
module Reproduction {
  import opened KconfigLang
  import opened Evaluation
  import opened Choices
  import opened Dependents
  import opened UserState

  // Configurations without MODULES

  /** Only bool and tristate symbols are selected, and no symbol gets its value automatically. */
  ghost predicate SymPlain(cfg: Config, s: nat) {
    (!Boolish(SymAt(cfg, s).typ) ==> SymAt(cfg, s).revDep == N) && !SymAt(cfg, s).isAuto
  }

  /** A well-formed configuration in which MODULES is not defined. */
  ghost predicate PlainConfig(cfg: Config) {
    && Ranked(cfg) && ChoicesOk(cfg) && cfg.modules >= |cfg.syms|
    && (forall s: nat :: SymPlain(cfg, s) && DepsOk(cfg, s))
  }

  lemma SymVisibility(cfg: Config, u: User, s: nat)
    requires Sane(cfg, u) && PlainConfig(cfg)
    ensures Vis(cfg, u, S(s)) != 1 && SymTypeOf(cfg, u, s) != TRISTATE
  {
    assert TriOf(cfg, u, cfg.modules).val == 0;
    assert SymTypeOf(cfg, u, s) != TRISTATE;
  }

  lemma ChoiceVisibility(cfg: Config, u: User, c: nat)
    requires Sane(cfg, u) && PlainConfig(cfg)
    ensures Vis(cfg, u, C(c)) != 1 && ChoiceTypeOf(cfg, u, c) != TRISTATE
  {
    assert TriOf(cfg, u, cfg.modules).val == 0;
    assert ChoiceTypeOf(cfg, u, c) != TRISTATE;
  }

  /** Without modules no symbol has the value m. */
  lemma NoModuleValues(cfg: Config, u: User, s: nat)
    requires Sane(cfg, u) && PlainConfig(cfg)
    ensures TriOf(cfg, u, s).val != 1
  {
    SymVisibility(cfg, u, s);
  }

  // Saved values

  /** The user value that the saved text of a symbol turns into: none if set_value() rejects the text. */
  function SavedVal(cfg: Config, u: User, s: nat): Option<UserVal>
    requires Sane(cfg, u)
  {
    var v := Coerce(SymAt(cfg, s).typ, Text(StrOf(cfg, u, s).val));
    if Acceptable(cfg, SymAt(cfg, s).typ, v) then Some(v) else None
  }

  predicate SavedAsY(cfg: Config, u: User, kept: set<nat>, c: nat)
    requires Sane(cfg, u)
  {
    SelOf(cfg, u, c).Some? && SelOf(cfg, u, c).value in kept
  }

  predicate SavedAsM(cfg: Config, u: User, kept: set<nat>, c: nat)
    requires Sane(cfg, u)
  {
    exists s :: s in kept && SymAt(cfg, s).choice == Some(c) && TriOf(cfg, u, s).val == 1
  }

  /** What saving the symbols in kept and loading them over u0 leaves behind: their values, and for each choice the
      mode and user selection that its y symbol or m symbols give it. With m symbols only, the user selection is that
      of u0. */
  function SavedState(cfg: Config, u: User, u0: User, kept: set<nat>): User
    requires Sane(cfg, u)
  {
    User(map s | s in kept && SavedVal(cfg, u, s).Some? :: SavedVal(cfg, u, s).value,
         map c | 0 <= c < |cfg.choices| && (SavedAsY(cfg, u, kept, c) || SavedAsM(cfg, u, kept, c)) ::
           (if SavedAsY(cfg, u, kept, c) then 2 else 1),
         map c | 0 <= c < |cfg.choices| && (SavedAsY(cfg, u, kept, c) || (SavedAsM(cfg, u, kept, c) && c in u0.pick)) ::
           (if SavedAsY(cfg, u, kept, c) then SelOf(cfg, u, c).value else u0.pick[c]))
  }

  lemma SelectionOfChoice(cfg: Config, u: User, c: nat)
    requires Sane(cfg, u) && ChoicesOk(cfg)
    ensures SelOf(cfg, u, c).Some? ==> c < |cfg.choices| && SymAt(cfg, SelOf(cfg, u, c).value).choice == Some(c)
  {
    SelectionIsVisible(cfg, u, c);
    if SelOf(cfg, u, c).Some? { assert ChoiceSymOk(cfg, SelOf(cfg, u, c).value); }
  }

  lemma SavedStateSane(cfg: Config, u: User, u0: User, kept: set<nat>)
    requires Sane(cfg, u) && PicksOk(cfg, u0) && ChoicesOk(cfg)
    ensures Sane(cfg, SavedState(cfg, u, u0, kept))
  {
    forall c | c in SavedState(cfg, u, u0, kept).pick
      ensures SymAt(cfg, SavedState(cfg, u, u0, kept).pick[c]).choice == Some(c)
    {
      SelectionOfChoice(cfg, u, c);
    }
  }

  /** The value a symbol would get from defaults, selects and implies alone, as computed when writing minimal
      configurations. */
  function StrDefault(cfg: Config, u: User, s: nat): string
    requires Sane(cfg, u)
  {
    var d := SymAt(cfg, s);
    if Boolish(d.typ) then
      if d.choice.Some? then "n"
      else
        var v := Max(Max(Ev(cfg, u, d.revDep), Ev(cfg, u, d.weakRevDep)), DefaultTri(cfg, u, s, 0));
        TriStr(if v == 1 && SymTypeOf(cfg, u, s) == BOOL then 2 else v)
    else if d.typ == UNKNOWN then ""
    else
      var t := DefaultStr(cfg, u, s, 0);
      if t.Some? then t.value else ""
  }

  /** The first skip rule: a symbol the user cannot change. */
  predicate Fixed(cfg: Config, u: User, s: nat)
    requires Sane(cfg, u)
  {
    SymAt(cfg, s).choice.None? && Vis(cfg, u, S(s)) <= Ev(cfg, u, SymAt(cfg, s).revDep)
  }

  /** The second skip rule: a symbol with its default value. */
  predicate AtDefault(cfg: Config, u: User, s: nat)
    requires Sane(cfg, u)
  {
    StrOf(cfg, u, s).val == StrDefault(cfg, u, s)
  }

  /** The third skip rule: a symbol that its non-optional choice selects by default. */
  predicate DefaultSelection(cfg: Config, u: User, s: nat)
    requires Sane(cfg, u)
  {
    var d := SymAt(cfg, s);
    && d.choice.Some? && !ChoiceAt(cfg, d.choice.value).optional
    && SelDefault(cfg, u, d.choice.value, 0) == Some(s)
    && d.typ == BOOL && TriOf(cfg, u, s).val == 2
  }

  predicate Droppable(cfg: Config, u: User, s: nat)
    requires Sane(cfg, u)
  {
    !WriteOf(cfg, u, s) || Fixed(cfg, u, s) || AtDefault(cfg, u, s) || DefaultSelection(cfg, u, s)
  }

  ghost predicate HasSym(cfg: Config, u: User, u': User, kept: set<nat>, s: nat)
    requires Sane(cfg, u)
  {
    && (s in u'.val <==> s in kept && SavedVal(cfg, u, s).Some?)
    && (s in u'.val ==> u'.val[s] == SavedVal(cfg, u, s).value)
  }

  /** The kept symbol with value y in choice c, if any, determines the mode and user selection of c. */
  ghost predicate HasChoice(cfg: Config, u: User, u': User, kept: set<nat>, c: nat)
    requires Sane(cfg, u)
  {
    var y := SelOf(cfg, u, c);
    if y.Some? && y.value in kept
    then c in u'.mode && u'.mode[c] == 2 && c in u'.pick && u'.pick[c] == y.value
    else c !in u'.mode && c !in u'.pick
  }

  /** The one mode that is lost: an optional choice set to y without any visible symbol. */
  predicate EmptyMode(cfg: Config, u: User, c: nat)
    requires Sane(cfg, u)
  {
    ChoiceAt(cfg, c).optional && ModeOf(cfg, u, c) == 2 && SelOf(cfg, u, c).None?
  }

  /** A mode that is lost is not missed: only the symbols of its choice depend on it. */
  ghost predicate ModesKept(cfg: Config, u: User)
    requires Sane(cfg, u)
  {
    forall c: nat, i :: EmptyMode(cfg, u, c) && DependsOn(cfg, i, C(c)) ==> i.S? && SymAt(cfg, i.s).choice == Some(c)
  }

  /** u' holds exactly the saved values of the symbols in kept. */
  ghost predicate HoldsSaved(cfg: Config, u: User, u': User, kept: set<nat>) {
    && PlainConfig(cfg) && UserOk(cfg, u) && Sane(cfg, u) && Sane(cfg, u') && ModesKept(cfg, u)
    && (forall s: nat :: HasSym(cfg, u, u', kept, s))
    && (forall c: nat :: HasChoice(cfg, u, u', kept, c))
    && (forall s: nat :: s in kept || Droppable(cfg, u, s))
  }

  lemma SavedStateHolds(cfg: Config, u: User, u0: User, kept: set<nat>)
    requires PlainConfig(cfg) && UserOk(cfg, u) && UserOk(cfg, u0) && ModesKept(cfg, u)
    requires forall s: nat :: s in kept || Droppable(cfg, u, s)
    ensures HoldsSaved(cfg, u, SavedState(cfg, u, u0, kept), kept)
  {
    SavedStateSane(cfg, u, u0, kept);
    forall c: nat ensures HasChoice(cfg, u, SavedState(cfg, u, u0, kept), kept, c) {
      SelectionOfChoice(cfg, u, c);
      forall s: nat ensures TriOf(cfg, u, s).val != 1 { NoModuleValues(cfg, u, s); }
    }
  }

  // Expressions, types and visibility

  /** No mode that e mentions is lost. */
  ghost predicate NoLostMode(cfg: Config, u: User, e: Expr)
    requires Sane(cfg, u)
  {
    forall c: nat :: Mentions(e, C(c)) ==> !EmptyMode(cfg, u, c)
  }

  lemma SameLeaf(cfg: Config, u: User, u': User, kept: set<nat>, x: Leaf)
    requires HoldsSaved(cfg, u, u', kept) && NoLostMode(cfg, u, Atom(x))
    ensures LeafTri(cfg, u, x) == LeafTri(cfg, u', x) && LeafStr(cfg, u, x) == LeafStr(cfg, u', x)
    decreases LeafLevel(cfg, x), 0, 0
  {
    match x
    case Ref(s) =>
      SameTri(cfg, u, u', kept, s);
      SameStr(cfg, u, u', kept, s);
    case Mode(c) =>
      assert Mentions(Atom(x), C(c));
      SameMode(cfg, u, u', kept, c);
    case _ =>
  }

  lemma {:induction false} SameExpr(cfg: Config, u: User, u': User, kept: set<nat>, e: Expr)
    requires HoldsSaved(cfg, u, u', kept) && NoLostMode(cfg, u, e)
    ensures Ev(cfg, u, e) == Ev(cfg, u', e)
    decreases ExprLevel(cfg, e), 1, Size(e)
  {
    match e
    case Atom(x) => SameLeaf(cfg, u, u', kept, x);
    case And(l, r) =>
      assert NoLostMode(cfg, u, l) && NoLostMode(cfg, u, r);
      SameExpr(cfg, u, u', kept, l);
      SameExpr(cfg, u, u', kept, r);
    case Or(l, r) =>
      assert NoLostMode(cfg, u, l) && NoLostMode(cfg, u, r);
      SameExpr(cfg, u, u', kept, l);
      SameExpr(cfg, u, u', kept, r);
    case Not(e1) =>
      assert NoLostMode(cfg, u, e1);
      SameExpr(cfg, u, u', kept, e1);
    case Rel(_, a, b) =>
      assert NoLostMode(cfg, u, Atom(a)) && NoLostMode(cfg, u, Atom(b));
      SameLeaf(cfg, u, u', kept, a);
      SameLeaf(cfg, u, u', kept, b);
      assert LeafNum(cfg, u, a) == LeafNum(cfg, u', a) && LeafNum(cfg, u, b) == LeafNum(cfg, u', b);
      assert Compare(cfg, u, a, b) == Compare(cfg, u', a, b);
  }

  /** The conditions of an item outside choices, or in a choice whose mode is kept, mention no lost mode. */
  ghost predicate Unaffected(cfg: Config, u: User, i: Item)
    requires Sane(cfg, u)
  {
    i.S? && SymAt(cfg, i.s).choice.Some? ==> !EmptyMode(cfg, u, SymAt(cfg, i.s).choice.value)
  }

  lemma SameItemExpr(cfg: Config, u: User, u': User, kept: set<nat>, i: Item, e: Expr)
    requires HoldsSaved(cfg, u, u', kept) && Unaffected(cfg, u, i)
    requires forall c: nat :: Mentions(e, C(c)) ==> DependsOn(cfg, i, C(c))
    ensures Ev(cfg, u, e) == Ev(cfg, u', e)
    decreases ExprLevel(cfg, e), 1, Size(e) + 1
  {
    forall c: nat | Mentions(e, C(c)) ensures !EmptyMode(cfg, u, c) {
      assert DependsOn(cfg, i, C(c));
    }
    SameExpr(cfg, u, u', kept, e);
  }

  lemma SameItemLeaf(cfg: Config, u: User, u': User, kept: set<nat>, i: Item, x: Leaf)
    requires HoldsSaved(cfg, u, u', kept) && Unaffected(cfg, u, i)
    requires forall c: nat :: LeafIs(x, C(c)) ==> DependsOn(cfg, i, C(c))
    ensures LeafStr(cfg, u, x) == LeafStr(cfg, u', x)
    decreases LeafLevel(cfg, x), 0, 1
  {
    forall c: nat | Mentions(Atom(x), C(c)) ensures !EmptyMode(cfg, u, c) {
      assert DependsOn(cfg, i, C(c));
    }
    SameLeaf(cfg, u, u', kept, x);
  }

  lemma SamePrompts(cfg: Config, u: User, u': User, kept: set<nat>, i: Item, n: nat)
    requires HoldsSaved(cfg, u, u', kept) && n <= |NodesOf(cfg, i)| && Unaffected(cfg, u, i)
    ensures Prompts(cfg, u, i, n) == Prompts(cfg, u', i, n)
    decreases VisLevel(cfg, i), 2, n
  {
    if n > 0 {
      SamePrompts(cfg, u, u', kept, i, n - 1);
      assert i.S? ==> SymRanked(cfg, i.s);
      assert i.C? ==> ChoiceRanked(cfg, i.c);
      var p := NodesOf(cfg, i)[n - 1].prompt;
      if p.Some? { SameItemExpr(cfg, u, u', kept, i, p.value); }
    }
  }

  lemma SameChoiceVis(cfg: Config, u: User, u': User, kept: set<nat>, c: nat)
    requires HoldsSaved(cfg, u, u', kept)
    ensures Vis(cfg, u, C(c)) == Vis(cfg, u', C(c))
    decreases VisLevel(cfg, C(c)), 3, 0
  {
    SamePrompts(cfg, u, u', kept, C(c), |NodesOf(cfg, C(c))|);
    ChoiceVisibility(cfg, u, c);
    ChoiceVisibility(cfg, u', c);
  }

  /** A visible symbol that its choice selects is saved, unless the choice selects it by default anyway. */
  lemma SelectionKept(cfg: Config, u: User, u': User, kept: set<nat>, c: nat)
    requires HoldsSaved(cfg, u, u', kept) && SelOf(cfg, u, c).Some?
    ensures SelOf(cfg, u, c).value in kept || DefaultSelection(cfg, u, SelOf(cfg, u, c).value)
  {
    var s := SelOf(cfg, u, c).value;
    SelectionIsVisible(cfg, u, c);
    ChoiceExclusivity(cfg, u, c, s);
    assert ChoiceSymOk(cfg, s);
    assert s in kept || Droppable(cfg, u, s);
  }

  lemma SameMode(cfg: Config, u: User, u': User, kept: set<nat>, c: nat)
    requires HoldsSaved(cfg, u, u', kept)
    ensures if EmptyMode(cfg, u, c) then ModeOf(cfg, u', c) == 0 else ModeOf(cfg, u, c) == ModeOf(cfg, u', c)
    decreases 8 * Rank(cfg, C(c)) + 1, 3, 0
  {
    SameChoiceVis(cfg, u, u', kept, c);
    ChoiceVisibility(cfg, u, c);
    ChoiceVisibility(cfg, u', c);
    assert HasChoice(cfg, u, u', kept, c);
    SelectionIsVisible(cfg, u, c);
    if SelOf(cfg, u, c).Some? {
      SelectionKept(cfg, u, u', kept, c);
      assert ChoiceSymOk(cfg, SelOf(cfg, u, c).value);
    }
    assert RawMode(cfg, u', c) == Min(if c in u'.mode then 2 else if ChoiceAt(cfg, c).optional then 0 else 1, Vis(cfg, u', C(c)));
  }

  lemma SameSymVis(cfg: Config, u: User, u': User, kept: set<nat>, s: nat)
    requires HoldsSaved(cfg, u, u', kept)
    ensures Vis(cfg, u, S(s)) == Vis(cfg, u', S(s))
    decreases VisLevel(cfg, S(s)), 3, 0
  {
    var d := SymAt(cfg, s);
    SymVisibility(cfg, u, s);
    SymVisibility(cfg, u', s);
    if d.choice.None? {
      SamePrompts(cfg, u, u', kept, S(s), |d.nodes|);
    } else {
      var c := d.choice.value;
      assert ChoiceSymOk(cfg, s);
      SameMode(cfg, u, u', kept, c);
      if EmptyMode(cfg, u, c) {
        SelectionIsVisible(cfg, u, c);
        ModeBoundsVisibility(cfg, u', s);
      } else {
        SamePrompts(cfg, u, u', kept, S(s), |d.nodes|);
      }
    }
  }

  // Choice selections

  lemma SameFirstVisible(cfg: Config, u: User, u': User, kept: set<nat>, c: nat, k: nat)
    requires HoldsSaved(cfg, u, u', kept) && k <= |ChoiceAt(cfg, c).syms|
    ensures FirstVisible(cfg, u, c, k) == FirstVisible(cfg, u', c, k)
    decreases 8 * Rank(cfg, C(c)) + 3, 2, |ChoiceAt(cfg, c).syms| - k
  {
    assert ChoiceRanked(cfg, c);
    if k < |ChoiceAt(cfg, c).syms| {
      SameSymVis(cfg, u, u', kept, ChoiceAt(cfg, c).syms[k]);
      SameFirstVisible(cfg, u, u', kept, c, k + 1);
    }
  }

  lemma SameSelDefault(cfg: Config, u: User, u': User, kept: set<nat>, c: nat, k: nat)
    requires HoldsSaved(cfg, u, u', kept) && k <= |ChoiceAt(cfg, c).defaults|
    ensures SelDefault(cfg, u, c, k) == SelDefault(cfg, u', c, k)
    decreases 8 * Rank(cfg, C(c)) + 3, 2, |ChoiceAt(cfg, c).defaults| - k + |ChoiceAt(cfg, c).syms| + 1
  {
    assert ChoiceRanked(cfg, c);
    if k == |ChoiceAt(cfg, c).defaults| {
      SameFirstVisible(cfg, u, u', kept, c, 0);
    } else {
      var p := ChoiceAt(cfg, c).defaults[k];
      SameItemExpr(cfg, u, u', kept, C(c), p.cond);
      SameSymVis(cfg, u, u', kept, p.sym);
      SameSelDefault(cfg, u, u', kept, c, k + 1);
    }
  }

  lemma SameSel(cfg: Config, u: User, u': User, kept: set<nat>, c: nat, s: nat)
    requires HoldsSaved(cfg, u, u', kept) && SymAt(cfg, s).choice == Some(c)
    ensures SelOf(cfg, u, c) == SelOf(cfg, u', c)
    decreases 8 * Rank(cfg, C(c)) + 3, 3, 0
  {
    SameMode(cfg, u, u', kept, c);
    SelectionIsVisible(cfg, u, c);
    assert HasChoice(cfg, u, u', kept, c);
    if SelOf(cfg, u, c).Some? {
      var y := SelOf(cfg, u, c).value;
      assert ChoiceSymOk(cfg, y);
      SameSymVis(cfg, u, u', kept, y);
      SelectionKept(cfg, u, u', kept, c);
      if y !in kept { SameSelDefault(cfg, u, u', kept, c, 0); }
    } else if ModeOf(cfg, u', c) == 2 {
      SameSelDefault(cfg, u, u', kept, c, 0);
      SelDefaultIs(cfg, u, c, 0);
      SelDefaultNeedsVisible(cfg, u, c);
    }
  }

  lemma SelDefaultNeedsVisible(cfg: Config, u: User, c: nat)
    requires Sane(cfg, u) && ChoicesOk(cfg) && ModeOf(cfg, u, c) == 2 && SelOf(cfg, u, c).None?
    ensures SelDefault(cfg, u, c, 0).None?
  {
  }

  // Values

  lemma SameDefaultTri(cfg: Config, u: User, u': User, kept: set<nat>, s: nat, k: nat)
    requires HoldsSaved(cfg, u, u', kept) && SymAt(cfg, s).choice.None? && k <= |SymAt(cfg, s).defaults|
    ensures DefaultTri(cfg, u, s, k) == DefaultTri(cfg, u', s, k)
    decreases 8 * Rank(cfg, S(s)) + 4, 2, |SymAt(cfg, s).defaults| - k
  {
    assert SymRanked(cfg, s) && SymPlain(cfg, s);
    if k < |SymAt(cfg, s).defaults| {
      SameItemExpr(cfg, u, u', kept, S(s), SymAt(cfg, s).defaults[k].cond);
      SameItemExpr(cfg, u, u', kept, S(s), SymAt(cfg, s).defaults[k].value);
      SameDefaultTri(cfg, u, u', kept, s, k + 1);
    }
  }

  lemma SameDeps(cfg: Config, u: User, u': User, kept: set<nat>, s: nat)
    requires HoldsSaved(cfg, u, u', kept) && SymAt(cfg, s).choice.None?
    ensures var d := SymAt(cfg, s);
            && Ev(cfg, u, d.revDep) == Ev(cfg, u', d.revDep) && Ev(cfg, u, d.weakRevDep) == Ev(cfg, u', d.weakRevDep)
            && Ev(cfg, u, d.directDep) == Ev(cfg, u', d.directDep)
    decreases 8 * Rank(cfg, S(s)) + 4, 2, 0
  {
    assert SymRanked(cfg, s) && SymPlain(cfg, s);
    SameItemExpr(cfg, u, u', kept, S(s), SymAt(cfg, s).revDep);
    SameItemExpr(cfg, u, u', kept, S(s), SymAt(cfg, s).weakRevDep);
    SameItemExpr(cfg, u, u', kept, S(s), SymAt(cfg, s).directDep);
  }

  lemma SavedTri(cfg: Config, u: User, s: nat)
    requires Sane(cfg, u) && PlainConfig(cfg) && Boolish(SymAt(cfg, s).typ)
    ensures SavedVal(cfg, u, s) == Some(TriVal(TriOf(cfg, u, s).val))
  {
    NoModuleValues(cfg, u, s);
  }

  lemma SamePlainTri(cfg: Config, u: User, u': User, kept: set<nat>, s: nat)
    requires HoldsSaved(cfg, u, u', kept) && Boolish(SymAt(cfg, s).typ) && SymAt(cfg, s).choice.None?
    ensures TriOf(cfg, u, s).val == TriOf(cfg, u', s).val
    decreases 8 * Rank(cfg, S(s)) + 4, 2, |SymAt(cfg, s).defaults| + 1
  {
    var d := SymAt(cfg, s);
    SameSymVis(cfg, u, u', kept, s);
    SameDefaultTri(cfg, u, u', kept, s, 0);
    SameDeps(cfg, u, u', kept, s);
    SymVisibility(cfg, u, s);
    SymVisibility(cfg, u', s);
    assert HasSym(cfg, u, u', kept, s);
    if Vis(cfg, u, S(s)) != 0 {
      if s in kept {
        SavedTri(cfg, u, s);
        NoModuleValues(cfg, u, s);
      } else {
        assert DepsOk(cfg, s) && Droppable(cfg, u, s);
        VisibleHasDeps(cfg, u, s);
        VisibleDropped(cfg, u, s);
      }
    }
  }

  /** A visible symbol may only be dropped when it is selected to y or has its default value. */
  lemma VisibleDropped(cfg: Config, u: User, s: nat)
    requires Sane(cfg, u) && PlainConfig(cfg) && Boolish(SymAt(cfg, s).typ) && SymAt(cfg, s).choice.None?
    requires Vis(cfg, u, S(s)) != 0 && Droppable(cfg, u, s)
    ensures var d := SymAt(cfg, s);
            var v := Max(Max(Ev(cfg, u, d.revDep), Ev(cfg, u, d.weakRevDep)), DefaultTri(cfg, u, s, 0));
            Ev(cfg, u, d.revDep) == 2 || TriOf(cfg, u, s).val == if v == 1 then 2 else v
  {
    SymVisibility(cfg, u, s);
  }

  lemma SameTri(cfg: Config, u: User, u': User, kept: set<nat>, s: nat)
    requires HoldsSaved(cfg, u, u', kept)
    ensures TriOf(cfg, u, s).val == TriOf(cfg, u', s).val
    decreases 8 * Rank(cfg, S(s)) + 4, 3, 0
  {
    var d := SymAt(cfg, s);
    if Boolish(d.typ) {
      if d.choice.None? {
        SamePlainTri(cfg, u, u', kept, s);
      } else {
        SameSymVis(cfg, u, u', kept, s);
        SymVisibility(cfg, u, s);
        assert ChoiceSymOk(cfg, s);
        SameSel(cfg, u, u', kept, d.choice.value, s);
      }
    }
  }

  lemma SameDefaultStr(cfg: Config, u: User, u': User, kept: set<nat>, s: nat, k: nat)
    requires HoldsSaved(cfg, u, u', kept) && SymAt(cfg, s).choice.None? && k <= |SymAt(cfg, s).defaults|
    ensures DefaultStr(cfg, u, s, k) == DefaultStr(cfg, u', s, k)
    decreases 8 * Rank(cfg, S(s)) + 5, 2, |SymAt(cfg, s).defaults| - k
  {
    assert SymRanked(cfg, s) && SymPlain(cfg, s);
    if k < |SymAt(cfg, s).defaults| {
      SameItemExpr(cfg, u, u', kept, S(s), SymAt(cfg, s).defaults[k].cond);
      SameItemLeaf(cfg, u, u', kept, S(s), DefaultLeaf(SymAt(cfg, s).defaults[k].value));
      SameDefaultStr(cfg, u, u', kept, s, k + 1);
    }
  }

  lemma SameRange(cfg: Config, u: User, u': User, kept: set<nat>, s: nat, k: nat)
    requires HoldsSaved(cfg, u, u', kept) && SymAt(cfg, s).choice.None? && k <= |SymAt(cfg, s).ranges|
    ensures ActiveRange(cfg, u, s, k) == ActiveRange(cfg, u', s, k)
    decreases 8 * Rank(cfg, S(s)) + 5, 2, |SymAt(cfg, s).ranges| - k
  {
    assert SymRanked(cfg, s) && SymPlain(cfg, s);
    if k < |SymAt(cfg, s).ranges| {
      var r := SymAt(cfg, s).ranges[k];
      SameItemExpr(cfg, u, u', kept, S(s), r.cond);
      SameItemLeaf(cfg, u, u', kept, S(s), r.low);
      SameItemLeaf(cfg, u, u', kept, S(s), r.high);
      SameRange(cfg, u, u', kept, s, k + 1);
    }
  }

  /** A visible string, int or hex symbol is only dropped when its text is that of its default. */
  lemma VisibleTextDropped(cfg: Config, u: User, s: nat)
    requires Sane(cfg, u) && PlainConfig(cfg) && Vis(cfg, u, S(s)) != 0 && Droppable(cfg, u, s)
    requires !Boolish(SymAt(cfg, s).typ) && SymAt(cfg, s).typ != UNKNOWN
    ensures StrOf(cfg, u, s).val == StrDefault(cfg, u, s)
  {
    assert SymPlain(cfg, s) && ChoiceSymOk(cfg, s);
    assert Ev(cfg, u, SymAt(cfg, s).revDep) == 0;
    assert StrOf(cfg, u, s).write;
  }

  lemma SameText(cfg: Config, u: User, u': User, kept: set<nat>, s: nat)
    requires HoldsSaved(cfg, u, u', kept) && !Boolish(SymAt(cfg, s).typ) && SymAt(cfg, s).typ != UNKNOWN
    ensures StrOf(cfg, u, s).val == StrOf(cfg, u', s).val
    decreases 8 * Rank(cfg, S(s)) + 5, 2, |SymAt(cfg, s).ranges| + |SymAt(cfg, s).defaults| + 1
  {
    assert ChoiceSymOk(cfg, s);
    SameSymVis(cfg, u, u', kept, s);
    SameDefaultStr(cfg, u, u', kept, s, 0);
    SameRange(cfg, u, u', kept, s, 0);
    assert HasSym(cfg, u, u', kept, s) && (s in kept || Droppable(cfg, u, s));
    if Vis(cfg, u, S(s)) != 0 && s !in kept { VisibleTextDropped(cfg, u, s); }
  }

  lemma SameStr(cfg: Config, u: User, u': User, kept: set<nat>, s: nat)
    requires HoldsSaved(cfg, u, u', kept)
    ensures StrOf(cfg, u, s).val == StrOf(cfg, u', s).val
    decreases 8 * Rank(cfg, S(s)) + 5, 3, 0
  {
    if Boolish(SymAt(cfg, s).typ) {
      SameTri(cfg, u, u', kept, s);
    } else if SymAt(cfg, s).typ != UNKNOWN {
      SameText(cfg, u, u', kept, s);
    }
  }
}
