/** A configuration without modules in which saving and loading changes a value: the mode of an optional choice is
    saved only through its y symbol, and something else may depend on it. */
module LostMode {
  import opened KconfigLang
  import opened Evaluation
  import opened Choices
  import opened Dependents
  import opened UserState
  import opened Reproduction
  import opened Loading
  import opened DotText
  import opened SaveLoad
  import opened Frozen

  /** What B stands under: 'depends on A != y', inside the choice. */
  const B_DEP: Expr := And(Rel(UNEQUAL, Ref(0), Nmy(2)), Atom(Mode(0)))

  /** An optional choice holds A, with 'prompt ... if n', and B, which depends on A != y and so lies in a submenu of
      A and is no choice symbol; B has 'default y'. */
  function Nested(num: Numerals): Config {
    Config(
      [SymDef("A", BOOL, [Node(Some(N), Atom(Mode(0)))], [], [], N, N, Atom(Mode(0)), Some(0), false),
       SymDef("B", BOOL, [Node(Some(B_DEP), B_DEP)], [Default(Y, B_DEP)], [], N, N, B_DEP, None, false)],
      [ChoiceDef(BOOL, [Node(Some(Y), Y)], [], [0], true)], 2, [0, 1], [0], num)
  }

  lemma NestedPlain(num: Numerals)
    ensures PlainConfig(Nested(num))
  {
    var cfg := Nested(num);
    assert LeafLevel(cfg, Ref(0)) == 6 && LeafLevel(cfg, Mode(0)) == 2 && ExprLevel(cfg, B_DEP) == 6;
    forall s: nat ensures SymRanked(cfg, s) && DepsOk(cfg, s) && ChoiceSymOk(cfg, s) && SymPlain(cfg, s) {}
    forall c: nat ensures ChoiceRanked(cfg, c) {}
  }

  /** The values in a user state without a user selection: B is y exactly if the choice is in y mode. */
  lemma NestedValues(num: Numerals, u: User)
    requires Sane(Nested(num), u) && 0 !in u.pick
    requires 1 in u.val ==> u.val[1] == TriVal(2)
    ensures var cfg := Nested(num);
            && ModeOf(cfg, u, 0) == (if 0 in u.mode && u.mode[0] != 0 then 2 else 0)
            && SelOf(cfg, u, 0) == None && TriOf(cfg, u, 1) == TriOut(ModeOf(cfg, u, 0), ModeOf(cfg, u, 0) == 2)
  {
    var cfg := Nested(num);
    NestedPlain(num);
    assert LeafTri(cfg, u, Nmy(2)) == 2 && LeafTri(cfg, u, Nmy(0)) == 0 && Ev(cfg, u, Y) == 2 && Ev(cfg, u, N) == 0;
    assert NodesOf(cfg, C(0)) == [Node(Some(Y), Y)] && Prompts(cfg, u, C(0), 0) == 0 && Vis(cfg, u, C(0)) == 2;
    assert ChoiceTypeOf(cfg, u, 0) == BOOL;
    assert NodesOf(cfg, S(0)) == [Node(Some(N), Atom(Mode(0)))] && Prompts(cfg, u, S(0), 0) == 0 && Vis(cfg, u, S(0)) == 0;
    assert ChoiceAt(cfg, 0).syms == [0] && FirstVisible(cfg, u, 0, 1) == None && FirstVisible(cfg, u, 0, 0) == None;
    assert SelDefault(cfg, u, 0, 0) == None;
    assert TriOf(cfg, u, 0).val == 0;
    BDep(num, u);
    var m := ModeOf(cfg, u, 0);
    assert NodesOf(cfg, S(1)) == [Node(Some(B_DEP), B_DEP)] && Prompts(cfg, u, S(1), 0) == 0;
    assert Prompts(cfg, u, S(1), 1) == m && Vis(cfg, u, S(1)) == m;
    assert SymAt(cfg, 1).defaults == [Default(Y, B_DEP)] && DefaultTri(cfg, u, 1, 1) == 0 && DefaultTri(cfg, u, 1, 0) == m;
    assert SymAt(cfg, 1).revDep == N && SymAt(cfg, 1).weakRevDep == N;
    assert Wanted(cfg, u, 1) == TriOut(m, m == 2);
  }

  lemma BDep(num: Numerals, u: User)
    requires Sane(Nested(num), u) && TriOf(Nested(num), u, 0).val == 0
    ensures Ev(Nested(num), u, B_DEP) == ModeOf(Nested(num), u, 0)
  {
    var cfg := Nested(num);
    assert LeafNum(cfg, u, Ref(0)) == Some(0) && LeafNum(cfg, u, Nmy(2)) == Some(2);
    assert Compare(cfg, u, Ref(0), Nmy(2)) == -2;
    assert Ev(cfg, u, Rel(UNEQUAL, Ref(0), Nmy(2))) == 2;
    assert LeafTri(cfg, u, Mode(0)) == ModeOf(cfg, u, 0) && Ev(cfg, u, Atom(Mode(0))) == ModeOf(cfg, u, 0);
  }

  const NESTED_WALK: seq<Stop> := [SymStop(0), SymStop(1)]

  /** With the choice set to y, B is y and is all that gets saved; once its y has been loaded, the mode of the choice
      and with it B are n. */
  lemma LostModeChangesValues(num: Numerals)
    ensures var cfg, u := Nested(num), User(map[], map[0 := 2], map[]);
            && PlainConfig(cfg) && NamesOk(cfg) && WalkOk(cfg, NESTED_WALK) && Sane(cfg, u) && UserOk(cfg, u) && TextsOk(cfg, u)
            && var u' := LoadReplace(cfg, NOBODY, SplitLines(JoinLines(ConfigLines(cfg, u, NESTED_WALK, {}, false))));
            !SameValues(cfg, u, u') && Sane(cfg, u') && TriOf(cfg, u, 1).val == 2 && TriOf(cfg, u', 1).val == 0
  {
    var cfg, u := Nested(num), User(map[], map[0 := 2], map[]);
    NestedPlain(num);
    NestedValues(num, u);
    NestedNames(num);
    var lines := ConfigLines(cfg, u, NESTED_WALK, {}, false);
    assert [] + lines == lines;
    SavedThenLoadedIs(cfg, u, NOBODY, [], NESTED_WALK);
    var u' := SavedState(cfg, u, NOBODY, Written(cfg, u));
    NothingSavedForChoice(num, u, NOBODY);
    NestedValues(num, u');
    assert !SameSym(cfg, u, u', 1);
  }

  lemma NestedNames(num: Numerals)
    ensures NamesOk(Nested(num)) && WalkOk(Nested(num), NESTED_WALK) && UserOk(Nested(num), NOBODY)
  {
  }

  lemma NothingSavedForChoice(num: Numerals, u: User, u0: User)
    requires Sane(Nested(num), u) && 0 !in u.pick && (1 in u.val ==> u.val[1] == TriVal(2)) && PicksOk(Nested(num), u0)
    ensures var cfg := Nested(num); var u' := SavedState(cfg, u, u0, Written(cfg, u));
            Sane(cfg, u') && 0 !in u'.mode && 0 !in u'.pick && (TriOf(cfg, u, 1).val == 2 && 1 in u'.val ==> u'.val[1] == TriVal(2))
  {
    var cfg := Nested(num);
    NestedPlain(num);
    NestedValues(num, u);
    SavedStateSane(cfg, u, u0, Written(cfg, u));
    forall s: nat ensures TriOf(cfg, u, s).val != 1 { NoModuleValues(cfg, u, s); }
  }
}
