/** The 'assignable' attribute against its documentation: the values that would be respected if assigned. */
module Assignability {
  import opened KconfigLang
  import opened Evaluation
  import opened Choices
  import opened Dependents
  import opened Frames
  import opened UserState
  import opened Unchanged

  /** Assigning t to s gives s the value t. */
  predicate Respected(cfg: Config, u: User, s: nat, t: Tri)
    requires Sane(cfg, u) && Sane(cfg, SetSym(cfg, u, s, TriVal(t)))
  {
    TriOf(cfg, SetSym(cfg, u, s, TriVal(t)), s).val == t
  }

  /** A symbol of visibility m that is selected to m and implied to y: locked to m, says _assignable(), but the
      implication turns its m into y. */
  predicate MisleadingLock(cfg: Config, u: User, s: nat)
    requires Sane(cfg, u)
  {
    Vis(cfg, u, S(s)) == 1 && Ev(cfg, u, SymAt(cfg, s).revDep) == 1 && Ev(cfg, u, SymAt(cfg, s).weakRevDep) == 2
  }

  lemma SetSymSane(cfg: Config, u: User, s: nat, v: UserVal)
    requires Sane(cfg, u)
    ensures Sane(cfg, SetSym(cfg, u, s, v))
  {
  }

  /** What the value of a symbol outside choices depends on stays the same when only its own user value changes. */
  lemma OwnInputs(cfg: Config, u: User, s: nat, v: UserVal)
    requires Sane(cfg, u) && ChoicesOk(cfg) && SymAt(cfg, s).choice.None?
    ensures var u', d := SetSym(cfg, u, s, v), SymAt(cfg, s);
            && Sane(cfg, u')
            && Vis(cfg, u', S(s)) == Vis(cfg, u, S(s)) && SymTypeOf(cfg, u', s) == SymTypeOf(cfg, u, s)
            && Ev(cfg, u', d.revDep) == Ev(cfg, u, d.revDep) && Ev(cfg, u', d.weakRevDep) == Ev(cfg, u, d.weakRevDep)
  {
    var u', d, top := SetSym(cfg, u, s, v), SymAt(cfg, s), 8 * Rank(cfg, S(s)) + 3;
    assert SymRanked(cfg, s);
    forall t: nat | 8 * Rank(cfg, S(t)) + 4 <= top ensures SymAlike(cfg, u, u', t) {
      assert t != s && SameVal(u, u', t);
    }
    assert AlikeBelow(cfg, u, u', top);
    AlikeVis(cfg, u, u', S(s), top);
    AlikeType(cfg, u, u', s, top);
    AlikeExpr(cfg, u, u', d.revDep, top);
    AlikeExpr(cfg, u, u', d.weakRevDep, top);
  }

  /** The value of a visible bool or tristate symbol outside choices after assigning t to it. */
  lemma AssignedValue(cfg: Config, u: User, s: nat, t: Tri)
    requires Sane(cfg, u) && ChoicesOk(cfg) && UserOk(cfg, u)
    requires Boolish(SymAt(cfg, s).typ) && SymAt(cfg, s).choice.None? && Vis(cfg, u, S(s)) != 0
    requires Takes(cfg, u, s, TriVal(t))
    ensures var u', d := SetSym(cfg, u, s, TriVal(t)), SymAt(cfg, s);
            var v := Max(Ev(cfg, u, d.revDep), Min(t, Vis(cfg, u, S(s))));
            && Sane(cfg, u')
            && TriOf(cfg, u', s).val ==
               if v == 1 && (SymTypeOf(cfg, u, s) == BOOL || Ev(cfg, u, d.weakRevDep) == 2) then 2 else v
  {
    OwnInputs(cfg, u, s, TriVal(t));
    var u' := SetSym(cfg, u, s, TriVal(t));
    assert u'.val[s] == TriVal(t);
    assert Wanted(cfg, u', s).val == Min(t, Vis(cfg, u, S(s)));
  }

  lemma VisibleMIsTristate(cfg: Config, u: User, s: nat)
    requires Sane(cfg, u) && Vis(cfg, u, S(s)) == 1
    ensures SymTypeOf(cfg, u, s) == TRISTATE && SymAt(cfg, s).typ == TRISTATE
  {
  }

  /** A bool symbol cannot be m. */
  lemma BoolIsNotM(cfg: Config, u: User, s: nat)
    requires Sane(cfg, u) && SymAt(cfg, s).typ == BOOL && SymAt(cfg, s).choice.None?
    ensures TriOf(cfg, u, s).val != 1
  {
    assert SymTypeOf(cfg, u, s) == BOOL;
  }

  lemma RespectedIffAssignable(cfg: Config, u: User, s: nat, t: Tri)
    requires Sane(cfg, u) && ChoicesOk(cfg) && UserOk(cfg, u)
    requires Boolish(SymAt(cfg, s).typ) && SymAt(cfg, s).choice.None? && Vis(cfg, u, S(s)) != 0
    ensures Sane(cfg, SetSym(cfg, u, s, TriVal(t)))
    ensures !MisleadingLock(cfg, u, s) ==> (t in AsgOf(cfg, u, S(s)) <==> Respected(cfg, u, s, t))
    ensures MisleadingLock(cfg, u, s) ==> AsgOf(cfg, u, S(s)) == [1] && (Respected(cfg, u, s, t) <==> t == 2)
  {
    SetSymSane(cfg, u, s, TriVal(t));
    if Vis(cfg, u, S(s)) == 1 { VisibleMIsTristate(cfg, u, s); }
    if Takes(cfg, u, s, TriVal(t)) {
      AssignedValue(cfg, u, s, t);
    } else {
      assert SymAt(cfg, s).typ == BOOL && t == 1;
      BoolIsNotM(cfg, u, s);
      assert SymTypeOf(cfg, u, s) == BOOL;
    }
  }

  /** For a visible bool or tristate symbol outside choices, the assignable values are the respected ones, exactly
      if it is not locked misleadingly. */
  lemma AssignableAreRespected(cfg: Config, u: User, s: nat)
    requires Sane(cfg, u) && ChoicesOk(cfg) && UserOk(cfg, u)
    requires Boolish(SymAt(cfg, s).typ) && SymAt(cfg, s).choice.None? && Vis(cfg, u, S(s)) != 0
    ensures forall t: Tri :: Sane(cfg, SetSym(cfg, u, s, TriVal(t)))
    ensures (forall t: Tri :: t in AsgOf(cfg, u, S(s)) <==> Respected(cfg, u, s, t)) <==> !MisleadingLock(cfg, u, s)
  {
    forall t: Tri ensures Sane(cfg, SetSym(cfg, u, s, TriVal(t))) { SetSymSane(cfg, u, s, TriVal(t)); }
    if MisleadingLock(cfg, u, s) {
      RespectedIffAssignable(cfg, u, s, 1);
      assert 1 in AsgOf(cfg, u, S(s)) && !Respected(cfg, u, s, 1);
    } else {
      forall t: Tri ensures t in AsgOf(cfg, u, S(s)) <==> Respected(cfg, u, s, t) {
        RespectedIffAssignable(cfg, u, s, t);
      }
    }
  }

  /** A y-visible choice symbol can be assigned y only, and is y when it is. */
  lemma ChoiceSymbolRespected(cfg: Config, u: User, s: nat)
    requires Sane(cfg, u) && ChoicesOk(cfg) && SymAt(cfg, s).choice.Some? && Vis(cfg, u, S(s)) == 2
    ensures AsgOf(cfg, u, S(s)) == [2]
    ensures Sane(cfg, SetSym(cfg, u, s, TriVal(2))) && Respected(cfg, u, s, 2)
  {
    var u', d, top := SetSym(cfg, u, s, TriVal(2)), SymAt(cfg, s), 8 * Rank(cfg, S(s)) + 2;
    var c := d.choice.value;
    SetSymSane(cfg, u, s, TriVal(2));
    assert ChoiceSymOk(cfg, s) && SymRanked(cfg, s);
    assert Rank(cfg, C(c)) == Rank(cfg, S(s));
    forall t: nat | 8 * Rank(cfg, S(t)) + 4 <= top ensures SymAlike(cfg, u, u', t) {
      assert t != s && SameVal(u, u', t);
    }
    assert AlikeBelow(cfg, u, u', top);
    AlikeVis(cfg, u, u', S(s), top);
    AlikeMode(cfg, u, u', c, top);
    ModeBoundsVisibility(cfg, u, s);
    assert SelOf(cfg, u', c) == Some(s);
  }

  /** For a visible choice, the assignable modes are exactly the respected ones. */
  lemma AssignableModesAreRespected(cfg: Config, u: User, c: nat, m: Tri)
    requires Sane(cfg, u) && ChoicesOk(cfg) && UserOk(cfg, u) && Boolish(ChoiceAt(cfg, c).typ) && Vis(cfg, u, C(c)) != 0
    ensures var u' := SetMode(cfg, u, c, m);
            Sane(cfg, u') && (m in AsgOf(cfg, u, C(c)) <==> ModeOf(cfg, u', c) == m)
  {
    var u', top := SetMode(cfg, u, c, m), 8 * Rank(cfg, C(c));
    forall b: nat | 8 * Rank(cfg, C(b)) + 1 <= top ensures ModeAlike(u, u', b) {
      assert b != c;
    }
    forall s: nat ensures SymAlike(cfg, u, u', s) { assert SameVal(u, u', s); }
    assert AlikeBelow(cfg, u, u', top);
    AlikeVis(cfg, u, u', C(c), top);
    AlikeChoiceType(cfg, u, u', c, top);
    if !TakesMode(cfg, u, c, m) { assert ChoiceAt(cfg, c).typ == BOOL && ChoiceTypeOf(cfg, u, c) == BOOL; }
  }

  // A misleading lock

  /** MODULES is y and implies A; T is m and selects A, which has 'prompt ... if m'. */
  function Locked(num: Numerals): Config {
    Config(
      [SymDef("MODULES", BOOL, [Node(None, Y)], [Default(Y, Y)], [], N, N, Y, None, false),
       SymDef("T", TRISTATE, [Node(None, Y)], [Default(Atom(Nmy(1)), Y)], [], N, N, Y, None, false),
       SymDef("A", TRISTATE, [Node(Some(Atom(Nmy(1))), Y)], [], [], Atom(Ref(1)), Atom(Ref(0)), Y, None, false)],
      [], 0, [0, 1, 2], [], num)
  }

  lemma LockedConstants(num: Numerals)
    ensures Sane(Locked(num), NOBODY) && ChoicesOk(Locked(num))
  {
    var cfg := Locked(num);
    assert LeafLevel(cfg, Ref(1)) == 14 && LeafLevel(cfg, Ref(0)) == 6;
    forall s: nat ensures SymRanked(cfg, s) && ChoiceSymOk(cfg, s) {}
    forall c: nat ensures ChoiceRanked(cfg, c) {}
  }

  /** The value of a promptless symbol with one default. */
  lemma DefaultOnly(num: Numerals, s: nat, t: Tri)
    requires Sane(Locked(num), NOBODY) && s < 2 && t == if s == 0 then 2 else 1
    requires s == 1 ==> TriOf(Locked(num), NOBODY, 0).val == 2
    ensures TriOf(Locked(num), NOBODY, s).val == t
  {
    var cfg := Locked(num);
    assert SymAt(cfg, s).defaults == [Default(Atom(Nmy(t)), Y)] && NodesOf(cfg, S(s)) == [Node(None, Y)];
    assert LeafTri(cfg, NOBODY, Nmy(t)) == t && Ev(cfg, NOBODY, Atom(Nmy(t))) == t;
    assert LeafTri(cfg, NOBODY, Nmy(2)) == 2 && Ev(cfg, NOBODY, Y) == 2;
    assert LeafTri(cfg, NOBODY, Nmy(0)) == 0 && Ev(cfg, NOBODY, N) == 0;
    assert Prompts(cfg, NOBODY, S(s), 0) == 0 && Vis(cfg, NOBODY, S(s)) == 0;
    assert DefaultTri(cfg, NOBODY, s, 0) == t;
    assert SymAt(cfg, s).revDep == N && SymAt(cfg, s).weakRevDep == N;
    assert Wanted(cfg, NOBODY, s).val == t;
    if s == 1 { assert cfg.modules == 0 && SymTypeOf(cfg, NOBODY, 1) == TRISTATE; }
    assert Promoted(cfg, NOBODY, s, t) == t;
  }

  /** A can only be assigned m, and assigning m to it makes it y. */
  lemma LockMisleads(num: Numerals)
    ensures var cfg := Locked(num);
            && Sane(cfg, NOBODY) && ChoicesOk(cfg) && MisleadingLock(cfg, NOBODY, 2)
            && AsgOf(cfg, NOBODY, S(2)) == [1]
            && Sane(cfg, SetSym(cfg, NOBODY, 2, TriVal(1))) && TriOf(cfg, SetSym(cfg, NOBODY, 2, TriVal(1)), 2).val == 2
  {
    var cfg := Locked(num);
    LockedConstants(num);
    DefaultOnly(num, 0, 2);
    DefaultOnly(num, 1, 1);
    assert LeafTri(cfg, NOBODY, Ref(1)) == 1 && LeafTri(cfg, NOBODY, Ref(0)) == 2;
    assert Ev(cfg, NOBODY, Atom(Ref(1))) == 1 && Ev(cfg, NOBODY, Atom(Ref(0))) == 2;
    assert LeafTri(cfg, NOBODY, Nmy(1)) == 1 && Ev(cfg, NOBODY, Atom(Nmy(1))) == 1;
    assert NodesOf(cfg, S(2)) == [Node(Some(Atom(Nmy(1))), Y)];
    assert Prompts(cfg, NOBODY, S(2), 0) == 0 && Prompts(cfg, NOBODY, S(2), 1) == 1;
    assert cfg.modules == 0 && SymTypeOf(cfg, NOBODY, 2) == TRISTATE && Vis(cfg, NOBODY, S(2)) == 1;
    AssignedValue(cfg, NOBODY, 2, 1);
  }
}
