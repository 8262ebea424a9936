/** Configurations without ranks: one with a loop that loop detection misses, and two that can be evaluated all the
    same, because an operand or a type is never looked at. */
module Unranked {
  import opened KconfigLang
  import opened Dependents
  import opened DepLoop
  import opened EvaluationOrder
  import opened Orders

  /** A choice of A, B and C where B depends on C. */
  function Siblings(num: Numerals): Config {
    var inside := Atom(Mode(0));
    var dep := And(Atom(Ref(2)), inside);
    Config(
      [SymDef("A", BOOL, [Node(Some(inside), inside)], [], [], N, N, inside, Some(0), false),
       SymDef("B", BOOL, [Node(Some(dep), dep)], [], [], N, N, dep, Some(0), false),
       SymDef("C", BOOL, [Node(Some(inside), inside)], [], [], N, N, inside, Some(0), false)],
      [ChoiceDef(BOOL, [Node(Some(Y), Y)], [], [0, 1, 2], false)], 3, [], [], num)
  }

  lemma SiblingsUses(num: Numerals, i: Item, s: nat)
    requires i in AllItems(Siblings(num)) && s < 3
    ensures Uses(Siblings(num), i, S(s)) <==> i == S(1) && s == 2
  {
    var cfg := Siblings(num);
    match i
    case S(t) =>
      assert SymAt(cfg, t).nodes[0].prompt.Some?;
      if t == 1 && s == 2 { assert Mentions(SymAt(cfg, t).directDep, S(2)); }
    case C(c) => assert ChoiceAt(cfg, c).nodes == [Node(Some(Y), Y)];
  }

  lemma SiblingsGraph(num: Numerals)
    requires GraphOk(SIBLINGS)
    ensures IsGraphOf(Siblings(num), SIBLINGS)
  {
    var cfg := Siblings(num);
    assert DependentsIn(SIBLINGS, 2) == [S(1)];
    forall s: nat, i | S(s) in AllItems(cfg) && i in AllItems(cfg)
      ensures i in DependentsIn(SIBLINGS, s) <==> Uses(cfg, i, S(s))
    {
      SiblingsUses(num, i, s);
    }
  }

  /** Loop detection accepts the dependency graph of a configuration that has a loop and hence no ranks. */
  method UnrankedAccepted(num: Numerals) returns (p: seq<Item>, r: Outcome)
    ensures IsGraphOf(Siblings(num), SIBLINGS) && IsLoop(SIBLINGS, SIBLINGS.choice.Keys, p)
    ensures r.Fine? && !Rankable(Siblings(num))
  {
    p, r := LoopMissed();
    SiblingsGraph(num);
    LoopsAreUnranked(Siblings(num), SIBLINGS, p);
  }

  lemma LoopsAreUnranked(cfg: Config, g: Graph, p: seq<Item>)
    requires IsGraphOf(cfg, g) && IsLoop(g, g.choice.Keys, p)
    ensures !Rankable(cfg)
  {
    if Rankable(cfg) {
      var symRank, choiceRank :| Ranked(WithRanks(cfg, symRank, choiceRank));
      RanksUnseen(cfg, symRank, choiceRank, g);
      RankedIsLoopFree(WithRanks(cfg, symRank, choiceRank), g);
    }
  }

  /** In a ranked configuration, what a symbol mentions ranks below it. */
  lemma MentionedBelow(cfg: Config, s: nat, t: nat)
    requires Ranked(cfg) && SymDepends(SymAt(cfg, s), S(t))
    ensures Rank(cfg, S(t)) < Rank(cfg, S(s))
  {
    assert SymRanked(cfg, s);
    SymRankedIff(cfg, s);
  }

  lemma ModulesBelowTristate(cfg: Config, s: nat)
    requires Ranked(cfg) && SymAt(cfg, s).typ == TRISTATE
    ensures Rank(cfg, S(cfg.modules)) < Rank(cfg, S(s))
  {
    assert SymRanked(cfg, s);
  }

  /** A has 'default y if n && B', B has 'default y if A'. Evaluation never gets to B from A. */
  function ShortCircuit(num: Numerals): Config {
    Config(
      [SymDef("A", BOOL, [Node(None, Y)], [Default(Y, And(N, Atom(Ref(1))))], [], N, N, Y, None, false),
       SymDef("B", BOOL, [Node(None, Y)], [Default(Y, Atom(Ref(0)))], [], N, N, Y, None, false)],
      [], 2, [], [], num)
  }

  lemma ShortCircuitUnranked(num: Numerals)
    ensures !Rankable(ShortCircuit(num))
  {
    forall symRank, choiceRank ensures !Ranked(WithRanks(ShortCircuit(num), symRank, choiceRank)) {
      var cfg := WithRanks(ShortCircuit(num), symRank, choiceRank);
      assert Mentions(SymAt(cfg, 0).defaults[0].cond, S(1)) && Mentions(SymAt(cfg, 1).defaults[0].cond, S(0));
      if Ranked(cfg) {
        MentionedBelow(cfg, 0, 1);
        MentionedBelow(cfg, 1, 0);
      }
    }
  }

  /** MODULES has 'default y if T', and the tristate symbol T has 'default y' and no prompt. Evaluation never looks at
      the type of T, and so not at MODULES. */
  function UnusedType(num: Numerals): Config {
    Config(
      [SymDef("MODULES", BOOL, [Node(None, Y)], [Default(Y, Atom(Ref(1)))], [], N, N, Y, None, false),
       SymDef("T", TRISTATE, [Node(None, Y)], [Default(Y, Y)], [], N, N, Y, None, false)],
      [], 0, [], [], num)
  }

  lemma UnusedTypeUnranked(num: Numerals)
    ensures !Rankable(UnusedType(num))
  {
    forall symRank, choiceRank ensures !Ranked(WithRanks(UnusedType(num), symRank, choiceRank)) {
      var cfg := WithRanks(UnusedType(num), symRank, choiceRank);
      assert Mentions(SymAt(cfg, 0).defaults[0].cond, S(1));
      if Ranked(cfg) {
        MentionedBelow(cfg, 0, 1);
        ModulesBelowTristate(cfg, 1);
      }
    }
  }
}
