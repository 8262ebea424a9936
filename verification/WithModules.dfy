/** A configuration with modules in which saving and loading changes a value. */
module WithModules {
  import opened KconfigLang
  import opened Evaluation
  import opened Choices
  import opened UserState
  import opened Reproduction
  import opened Loading
  import opened DotText
  import opened SaveLoad
  import opened Frozen

  /** MODULES is y; A is a tristate symbol with 'prompt ... if m' and 'default y'. */
  function Modular(num: Numerals): Config {
    Config(
      [SymDef("MODULES", BOOL, [Node(None, Y)], [Default(Y, Y)], [], N, N, Y, None, false),
       SymDef("A", TRISTATE, [Node(Some(Atom(Nmy(1))), Y)], [Default(Y, Y)], [], N, N, Y, None, false)],
      [], 0, [0, 1], [], num)
  }

  lemma ModularOk(num: Numerals)
    ensures Sane(Modular(num), NOBODY) && ChoicesOk(Modular(num)) && forall s: nat :: DepsOk(Modular(num), s)
  {
    var cfg := Modular(num);
    forall s: nat ensures SymRanked(cfg, s) && DepsOk(cfg, s) && ChoiceSymOk(cfg, s) {}
    forall c: nat ensures ChoiceRanked(cfg, c) {}
  }

  lemma ModularModules(num: Numerals, u: User)
    requires Sane(Modular(num), u)
    ensures TriOf(Modular(num), u, 0).val == 2
  {
    var cfg := Modular(num);
    assert SymAt(cfg, 0).defaults == [Default(Y, Y)] && NodesOf(cfg, S(0)) == [Node(None, Y)];
    assert LeafTri(cfg, u, Nmy(2)) == 2 && Ev(cfg, u, Y) == 2;
    assert Prompts(cfg, u, S(0), 0) == 0 && Vis(cfg, u, S(0)) == 0;
    assert DefaultTri(cfg, u, 0, 0) == 2;
    assert Wanted(cfg, u, 0).val == 2;
  }

  lemma ModularA(num: Numerals, u: User)
    requires Sane(Modular(num), u)
    ensures var cfg := Modular(num);
            && Vis(cfg, u, S(1)) == 1 && DefaultTri(cfg, u, 1, 0) == 2 && SymTypeOf(cfg, u, 1) == TRISTATE
            && Ev(cfg, u, N) == 0
  {
    var cfg := Modular(num);
    assert SymAt(cfg, 1).defaults == [Default(Y, Y)] && NodesOf(cfg, S(1)) == [Node(Some(Atom(Nmy(1))), Y)];
    assert LeafTri(cfg, u, Nmy(2)) == 2 && LeafTri(cfg, u, Nmy(1)) == 1 && LeafTri(cfg, u, Nmy(0)) == 0;
    assert Ev(cfg, u, Y) == 2 && Ev(cfg, u, Atom(Nmy(1))) == 1;
    ModularModules(num, u);
    assert cfg.modules == 0;
    assert Prompts(cfg, u, S(1), 0) == 0 && Prompts(cfg, u, S(1), 1) == 1;
  }

  const MODULAR_WALK: seq<Stop> := [SymStop(0), SymStop(1)]

  lemma DefaultOfA(num: Numerals)
    ensures var cfg := Modular(num);
            && Sane(cfg, NOBODY) && TriOf(cfg, NOBODY, 1) == TriOut(2, true)
            && 1 in Written(cfg, NOBODY) && SavedVal(cfg, NOBODY, 1) == Some(TriVal(2))
  {
    var cfg := Modular(num);
    ModularOk(num);
    ModularA(num, NOBODY);
    assert SymAt(cfg, 1).revDep == N && SymAt(cfg, 1).weakRevDep == N;
    assert Wanted(cfg, NOBODY, 1) == TriOut(2, true);
    assert Promoted(cfg, NOBODY, 1, 2) == 2;
    assert StrOf(cfg, NOBODY, 1).val == "y";
  }

  lemma AssignedA(num: Numerals, u: User)
    requires Sane(Modular(num), u) && 1 in u.val && u.val[1] == TriVal(2)
    ensures TriOf(Modular(num), u, 1).val == 1
  {
    var cfg := Modular(num);
    ModularA(num, u);
    assert SymAt(cfg, 1).revDep == N && SymAt(cfg, 1).weakRevDep == N;
    assert Wanted(cfg, u, 1) == TriOut(1, true);
    assert Promoted(cfg, u, 1, 1) == 1;
  }

  /** The value of A is y by default, gets written as y, and is m once y has been loaded as its user value: a visible
      user value is limited by the visibility of the symbol, a default is not. */
  lemma ModulesBreakTheRoundTrip(num: Numerals)
    ensures var cfg := Modular(num);
            && Sane(cfg, NOBODY) && ChoicesOk(cfg) && NamesOk(cfg) && WalkOk(cfg, MODULAR_WALK) && TextsOk(cfg, NOBODY)
            && var u' := LoadReplace(cfg, NOBODY, SplitLines(JoinLines(ConfigLines(cfg, NOBODY, MODULAR_WALK, {}, false))));
            !SameValues(cfg, NOBODY, u') && Sane(cfg, u') && TriOf(cfg, NOBODY, 1).val == 2 && TriOf(cfg, u', 1).val == 1
  {
    var cfg := Modular(num);
    ModularOk(num);
    var lines := ConfigLines(cfg, NOBODY, MODULAR_WALK, {}, false);
    assert [] + lines == lines;
    SavedThenLoadedIs(cfg, NOBODY, NOBODY, [], MODULAR_WALK);
    SavedStateSane(cfg, NOBODY, NOBODY, Written(cfg, NOBODY));
    DefaultOfA(num);
    AssignedA(num, SavedState(cfg, NOBODY, NOBODY, Written(cfg, NOBODY)));
    assert !SameSym(cfg, NOBODY, SavedState(cfg, NOBODY, NOBODY, Written(cfg, NOBODY)), 1);
  }
}
