/** When a configuration has dependency ranks, on which evaluation is a recursion, and what loop detection says about
    it. Ranks are sufficient for evaluation to end, not necessary: see Unranked. */
module EvaluationOrder {
  import opened KconfigLang
  import opened Dependents
  import opened DepLoop
  import opened Orders

  /** i uses the value of j; that a choice also depends on its own symbols is added after loop detection. */
  predicate Uses(cfg: Config, i: Item, j: Item) {
    match i
    case S(s) => SymDepends(SymAt(cfg, s), j)
    case C(c) => ChoiceUses(ChoiceAt(cfg, c), j)
  }

  /** g is the dependency graph of cfg at the time of loop detection. */
  ghost predicate IsGraphOf(cfg: Config, g: Graph) {
    && GraphOk(g) && g.nsyms == |cfg.syms|
    && (forall s: nat :: s in g.choice <==> s < |cfg.syms| && cfg.syms[s].choice.Some?)
    && (forall s :: s in g.choice ==> s < |cfg.syms| && cfg.syms[s].choice == Some(g.choice[s]))
    && (forall c: nat :: c in g.syms <==> c < |cfg.choices|)
    && (forall c :: c in g.syms ==> c < |cfg.choices| && g.syms[c] == cfg.choices[c].syms)
    && (forall s: nat, i :: S(s) in AllItems(cfg) && i in AllItems(cfg) ==> (i in DependentsIn(g, s) <==> Uses(cfg, i, S(s))))
  }

  /** A choice and its symbols are evaluated together. */
  function Group(cfg: Config, i: Item): Item {
    if i.S? && SymAt(cfg, i.s).choice.Some? then C(SymAt(cfg, i.s).choice.value) else i
  }

  /** Default selections are symbols of their choice, and what uses the mode of a choice is one of its symbols or
      uses one of them. */
  ghost predicate Formed(cfg: Config) {
    && (forall c, k :: 0 <= c < |cfg.choices| && 0 <= k < |cfg.choices[c].defaults| ==>
          SymAt(cfg, cfg.choices[c].defaults[k].sym).choice == Some(c))
    && (forall i, c: nat :: i in AllItems(cfg) && C(c) in AllItems(cfg) && Uses(cfg, i, C(c)) ==>
          (i.S? && SymAt(cfg, i.s).choice == Some(c)) ||
          exists s: nat :: S(s) in AllItems(cfg) && Uses(cfg, i, S(s)) && SymAt(cfg, s).choice == Some(c))
  }

  /** base holds MODULES and everything that it depends on, and nothing in it has tristate type. */
  ghost predicate BelowModules(cfg: Config, base: set<Item>) {
    && (cfg.modules < |cfg.syms| ==> Group(cfg, S(cfg.modules)) in base)
    && (forall s: nat, i :: S(s) in AllItems(cfg) && i in AllItems(cfg) && Uses(cfg, i, S(s)) && Group(cfg, i) in base ==>
          Group(cfg, S(s)) in base)
    && (forall s :: 0 <= s < |cfg.syms| && cfg.syms[s].typ == TRISTATE ==> Group(cfg, S(s)) !in base)
    && (forall c :: 0 <= c < |cfg.choices| && cfg.choices[c].typ == TRISTATE ==> C(c) !in base)
  }

  function WithRanks(cfg: Config, symRank: seq<nat>, choiceRank: seq<nat>): Config {
    cfg.(symRank := symRank, choiceRank := choiceRank)
  }

  ghost predicate Rankable(cfg: Config) {
    exists symRank, choiceRank :: Ranked(WithRanks(cfg, symRank, choiceRank))
  }

  // What is mentioned bounds the levels

  function ItemLevel(cfg: Config, i: Item): nat {
    8 * Rank(cfg, i) + if i.S? then 6 else 2
  }

  lemma {:induction false} LevelBound(cfg: Config, e: Expr, top: nat)
    ensures ExprLevel(cfg, e) <= top <==> forall j :: Mentions(e, j) ==> ItemLevel(cfg, j) <= top
  {
    match e
    case Atom(x) => LeafBound(cfg, x, top);
    case And(l, r) => LevelBound(cfg, l, top); LevelBound(cfg, r, top);
    case Or(l, r) => LevelBound(cfg, l, top); LevelBound(cfg, r, top);
    case Not(e1) => LevelBound(cfg, e1, top);
    case Rel(_, a, b) => LeafBound(cfg, a, top); LeafBound(cfg, b, top);
  }

  lemma LeafBound(cfg: Config, x: Leaf, top: nat)
    ensures LeafLevel(cfg, x) <= top <==> forall j :: LeafIs(x, j) ==> ItemLevel(cfg, j) <= top
  {
    match x
    case Ref(s) => assert LeafIs(x, S(s));
    case Mode(c) => assert LeafIs(x, C(c));
    case _ =>
  }

  ghost predicate ModulesBelow(cfg: Config, i: Item, typ: SymType) {
    typ == TRISTATE ==> Rank(cfg, S(cfg.modules)) < Rank(cfg, i)
  }

  lemma SymRankedIff(cfg: Config, s: nat)
    ensures SymRanked(cfg, s) <==>
            && (forall j :: SymDepends(SymAt(cfg, s), j) ==> ItemLevel(cfg, j) <= 8 * Rank(cfg, S(s)) + 2)
            && ModulesBelow(cfg, S(s), SymAt(cfg, s).typ)
  {
    var d := SymAt(cfg, s);
    var top := 8 * Rank(cfg, S(s)) + 2;
    forall k | 0 <= k < |d.nodes| && d.nodes[k].prompt.Some?
      ensures ExprLevel(cfg, d.nodes[k].prompt.value) <= top <==>
              forall j :: Mentions(d.nodes[k].prompt.value, j) ==> ItemLevel(cfg, j) <= top
    {
      LevelBound(cfg, d.nodes[k].prompt.value, top);
    }
    forall k | 0 <= k < |d.defaults|
      ensures ExprLevel(cfg, d.defaults[k].value) <= top <==>
              forall j :: Mentions(d.defaults[k].value, j) ==> ItemLevel(cfg, j) <= top
      ensures ExprLevel(cfg, d.defaults[k].cond) <= top <==>
              forall j :: Mentions(d.defaults[k].cond, j) ==> ItemLevel(cfg, j) <= top
    {
      LevelBound(cfg, d.defaults[k].value, top);
      LevelBound(cfg, d.defaults[k].cond, top);
    }
    forall k | 0 <= k < |d.ranges|
      ensures LeafLevel(cfg, d.ranges[k].low) <= top <==> forall j :: LeafIs(d.ranges[k].low, j) ==> ItemLevel(cfg, j) <= top
      ensures LeafLevel(cfg, d.ranges[k].high) <= top <==> forall j :: LeafIs(d.ranges[k].high, j) ==> ItemLevel(cfg, j) <= top
      ensures ExprLevel(cfg, d.ranges[k].cond) <= top <==> forall j :: Mentions(d.ranges[k].cond, j) ==> ItemLevel(cfg, j) <= top
    {
      LeafBound(cfg, d.ranges[k].low, top);
      LeafBound(cfg, d.ranges[k].high, top);
      LevelBound(cfg, d.ranges[k].cond, top);
    }
    LevelBound(cfg, d.revDep, top);
    LevelBound(cfg, d.weakRevDep, top);
    LevelBound(cfg, d.directDep, top);
  }

  lemma ChoiceRankedIff(cfg: Config, c: nat)
    ensures ChoiceRanked(cfg, c) <==>
            && (forall j :: ChoiceUses(ChoiceAt(cfg, c), j) ==> ItemLevel(cfg, j) <= 8 * Rank(cfg, C(c)))
            && ModulesBelow(cfg, C(c), ChoiceAt(cfg, c).typ)
            && (forall k :: 0 <= k < |ChoiceAt(cfg, c).defaults| ==> SymAt(cfg, ChoiceAt(cfg, c).defaults[k].sym).choice == Some(c))
            && (forall k :: 0 <= k < |ChoiceAt(cfg, c).syms| ==> SymAt(cfg, ChoiceAt(cfg, c).syms[k]).choice == Some(c))
  {
    var d := ChoiceAt(cfg, c);
    var top := 8 * Rank(cfg, C(c));
    forall k | 0 <= k < |d.nodes| && d.nodes[k].prompt.Some?
      ensures ExprLevel(cfg, d.nodes[k].prompt.value) <= top <==>
              forall j :: Mentions(d.nodes[k].prompt.value, j) ==> ItemLevel(cfg, j) <= top
    {
      LevelBound(cfg, d.nodes[k].prompt.value, top);
    }
    forall k | 0 <= k < |d.defaults|
      ensures ExprLevel(cfg, d.defaults[k].cond) <= top <==>
              forall j :: Mentions(d.defaults[k].cond, j) ==> ItemLevel(cfg, j) <= top
    {
      LevelBound(cfg, d.defaults[k].cond, top);
    }
  }

  // Ranks along the steps of the dependency graph, and from them ranks of groups

  ghost function Steps(g: Graph): set<(Item, Item)> {
    set a, b | a in Nodes(g) && b in Nodes(g) && Step(g, g.choice.Keys, a, b) :: (a, b)
  }

  ghost function Follow(g: Graph): set<((Item, Item), (Item, Item))> {
    set x, y | x in Steps(g) && y in Steps(g) && x.1 == y.0 && !TurnsBack(g, x.0, x.1, y.1) :: (x, y)
  }

  lemma FollowAcyclic(g: Graph)
    requires LoopFree(g, g.choice.Keys)
    ensures Acyclic(Follow(g))
  {
    forall q: seq<(Item, Item)> ensures !IsCycle(Follow(g), q) {
      if IsCycle(Follow(g), q) {
        var p := seq(|q|, i requires 0 <= i < |q| => q[i].0);
        forall i | 0 <= i < |p|
          ensures Step(g, g.choice.Keys, p[i], p[Prev(p, i)]) && !TurnsBack(g, p[i], p[Prev(p, i)], p[Prev(p, Prev(p, i))])
        {
          assert (q[i], q[Prev(q, i)]) in Follow(g);
          assert (q[Prev(q, i)], q[Prev(q, Prev(q, i))]) in Follow(g);
        }
        assert IsLoop(g, g.choice.Keys, p);
      }
    }
  }

  /** The dependencies of the members of group x. */
  ghost function Incoming(cfg: Config, g: Graph, x: Item): (e: set<(Item, Item)>)
    ensures e <= Steps(g)
  {
    set e | e in Steps(g) && e.0.S? && Edge(g, e.0, e.1) && Group(cfg, e.1) == x
  }

  ghost predicate RanksSteps(g: Graph, r: map<(Item, Item), nat>) {
    r.Keys == Steps(g) && forall x, y :: (x, y) in Follow(g) ==> r[x] < r[y]
  }

  lemma IncomingBelow(cfg: Config, g: Graph, r: map<(Item, Item), nat>, s: nat, j: Item, e: (Item, Item))
    requires IsGraphOf(cfg, g) && RanksSteps(g, r) && s < g.nsyms && Edge(g, S(s), j)
    requires e in Incoming(cfg, g, Group(cfg, S(s)))
    ensures (S(s), j) in Steps(g) && r[e] < r[(S(s), j)]
  {
    var i := S(s);
    assert (i, j) in Steps(g);
    if e.1 == i {
      assert (e, (i, j)) in Follow(g);
    } else {
      var c := C(g.choice[s]);
      assert (c, i) in Steps(g) && ((c, i), (i, j)) in Follow(g);
      if e.1 == c {
        assert (e, (c, i)) in Follow(g);
      } else {
        assert (e.1, c) in Steps(g) && (e, (e.1, c)) in Follow(g);
        assert ((e.1, c), (c, i)) in Follow(g);
      }
    }
  }

  ghost function GroupRank(cfg: Config, g: Graph, r: map<(Item, Item), nat>, base: set<Item>, x: Item): (k: nat)
    requires r.Keys == Steps(g)
    ensures k > 0
  {
    1 + Top(r, Incoming(cfg, g, x)) + if x in base then 0 else 1 + Top(r, Steps(g))
  }

  lemma TopBelow(cfg: Config, g: Graph, r: map<(Item, Item), nat>, s: nat, j: Item)
    requires IsGraphOf(cfg, g) && RanksSteps(g, r) && s < g.nsyms && Edge(g, S(s), j)
    ensures Top(r, Incoming(cfg, g, Group(cfg, S(s)))) < Top(r, Incoming(cfg, g, Group(cfg, j)))
  {
    var e := Incoming(cfg, g, Group(cfg, S(s)));
    assert S(s) in Nodes(g) && j in Nodes(g) && (S(s), j) in Steps(g);
    assert (S(s), j) in Incoming(cfg, g, Group(cfg, j));
    if Top(r, e) > 0 {
      var x :| x in e && Top(r, e) == r[x] + 1;
      IncomingBelow(cfg, g, r, s, j, x);
    }
  }

  lemma GroupsRise(cfg: Config, g: Graph, r: map<(Item, Item), nat>, base: set<Item>, s: nat, j: Item)
    requires IsGraphOf(cfg, g) && RanksSteps(g, r) && BelowModules(cfg, base) && s < g.nsyms && Edge(g, S(s), j)
    ensures GroupRank(cfg, g, r, base, Group(cfg, S(s))) < GroupRank(cfg, g, r, base, Group(cfg, j))
  {
    assert S(s) in AllItems(cfg) && j in AllItems(cfg) && Uses(cfg, j, S(s));
    TopBelow(cfg, g, r, s, j);
  }

  ghost function Ranking(cfg: Config, g: Graph, r: map<(Item, Item), nat>, base: set<Item>): Config
    requires r.Keys == Steps(g)
  {
    WithRanks(cfg, seq(|cfg.syms|, s requires s >= 0 => GroupRank(cfg, g, r, base, S(s))),
              seq(|cfg.choices|, c requires c >= 0 => GroupRank(cfg, g, r, base, C(c))))
  }

  lemma RankingIs(cfg: Config, g: Graph, r: map<(Item, Item), nat>, base: set<Item>, i: Item)
    requires IsGraphOf(cfg, g) && r.Keys == Steps(g)
    ensures Rank(Ranking(cfg, g, r, base), i) == if i in AllItems(cfg) then GroupRank(cfg, g, r, base, Group(cfg, i)) else 0
  {
  }

  lemma SymUsedIsBelow(cfg: Config, g: Graph, r: map<(Item, Item), nat>, base: set<Item>, i: Item, s: nat)
    requires IsGraphOf(cfg, g) && RanksSteps(g, r) && BelowModules(cfg, base)
    requires i in AllItems(cfg) && s < |cfg.syms| && Uses(cfg, i, S(s))
    ensures Rank(Ranking(cfg, g, r, base), S(s)) < Rank(Ranking(cfg, g, r, base), i)
  {
    assert S(s) in AllItems(cfg) && Edge(g, S(s), i);
    GroupsRise(cfg, g, r, base, s, i);
    RankingIs(cfg, g, r, base, i);
    RankingIs(cfg, g, r, base, S(s));
  }

  lemma RankOfOwner(cfg: Config, symRank: seq<nat>, choiceRank: seq<nat>, s: nat, c: nat)
    requires SymAt(cfg, s).choice == Some(c)
    ensures var ranked := WithRanks(cfg, symRank, choiceRank); Rank(ranked, C(c)) == Rank(ranked, S(s))
  {
  }

  lemma ModeUsedIsBelow(cfg: Config, g: Graph, r: map<(Item, Item), nat>, base: set<Item>, i: Item, c: nat)
    requires IsGraphOf(cfg, g) && Formed(cfg) && RanksSteps(g, r) && BelowModules(cfg, base)
    requires i in AllItems(cfg) && C(c) in AllItems(cfg) && Uses(cfg, i, C(c))
    ensures var ranked := Ranking(cfg, g, r, base);
            if i.S? && SymAt(cfg, i.s).choice == Some(c) then Rank(ranked, C(c)) == Rank(ranked, i)
            else Rank(ranked, C(c)) < Rank(ranked, i)
  {
    var ranked := Ranking(cfg, g, r, base);
    if i.S? && SymAt(cfg, i.s).choice == Some(c) {
      RankOfOwner(cfg, ranked.symRank, ranked.choiceRank, i.s, c);
    } else {
      var s := UsedMember(cfg, i, c);
      SymUsedIsBelow(cfg, g, r, base, i, s);
      RankOfOwner(cfg, ranked.symRank, ranked.choiceRank, s, c);
    }
  }

  lemma UsedMember(cfg: Config, i: Item, c: nat) returns (s: nat)
    requires Formed(cfg) && i in AllItems(cfg) && C(c) in AllItems(cfg) && Uses(cfg, i, C(c))
    requires !(i.S? && SymAt(cfg, i.s).choice == Some(c))
    ensures s < |cfg.syms| && Uses(cfg, i, S(s)) && SymAt(cfg, s).choice == Some(c)
  {
    s :| S(s) in AllItems(cfg) && Uses(cfg, i, S(s)) && SymAt(cfg, s).choice == Some(c);
  }

  /** Whatever i uses ranks below i, except for the mode of its own choice. */
  lemma UsedIsBelow(cfg: Config, g: Graph, r: map<(Item, Item), nat>, base: set<Item>, i: Item, j: Item)
    requires IsGraphOf(cfg, g) && Formed(cfg) && RanksSteps(g, r) && BelowModules(cfg, base)
    requires i in AllItems(cfg) && Uses(cfg, i, j)
    ensures var ranked := Ranking(cfg, g, r, base);
            || Rank(ranked, j) < Rank(ranked, i)
            || (i.S? && j.C? && Rank(ranked, j) == Rank(ranked, i))
  {
    if j !in AllItems(cfg) {
      RankingIs(cfg, g, r, base, i);
      RankingIs(cfg, g, r, base, j);
    } else if j.S? {
      SymUsedIsBelow(cfg, g, r, base, i, j.s);
    } else {
      ModeUsedIsBelow(cfg, g, r, base, i, j.c);
    }
  }

  lemma TristateAboveModules(cfg: Config, g: Graph, r: map<(Item, Item), nat>, base: set<Item>, i: Item, typ: SymType)
    requires IsGraphOf(cfg, g) && r.Keys == Steps(g) && BelowModules(cfg, base) && i in AllItems(cfg)
    requires typ == if i.S? then SymAt(cfg, i.s).typ else ChoiceAt(cfg, i.c).typ
    ensures ModulesBelow(Ranking(cfg, g, r, base), i, typ)
  {
    RankingIs(cfg, g, r, base, i);
    RankingIs(cfg, g, r, base, S(cfg.modules));
    if typ == TRISTATE {
      var m := Group(cfg, S(cfg.modules));
      var t := Top(r, Incoming(cfg, g, m));
      assert t <= Top(r, Steps(g));
    }
  }

  lemma SymFits(cfg: Config, g: Graph, r: map<(Item, Item), nat>, base: set<Item>, s: nat)
    requires IsGraphOf(cfg, g) && Formed(cfg) && RanksSteps(g, r) && BelowModules(cfg, base)
    ensures SymRanked(Ranking(cfg, g, r, base), s)
  {
    var ranked := Ranking(cfg, g, r, base);
    SymRankedIff(ranked, s);
    if s < |cfg.syms| {
      TristateAboveModules(cfg, g, r, base, S(s), cfg.syms[s].typ);
      forall j | SymDepends(SymAt(cfg, s), j) ensures ItemLevel(ranked, j) <= 8 * Rank(ranked, S(s)) + 2 {
        UsedIsBelow(cfg, g, r, base, S(s), j);
      }
    }
  }

  lemma ChoiceFits(cfg: Config, g: Graph, r: map<(Item, Item), nat>, base: set<Item>, c: nat)
    requires IsGraphOf(cfg, g) && Formed(cfg) && RanksSteps(g, r) && BelowModules(cfg, base)
    ensures ChoiceRanked(Ranking(cfg, g, r, base), c)
  {
    var ranked := Ranking(cfg, g, r, base);
    ChoiceRankedIff(ranked, c);
    if c < |cfg.choices| {
      TristateAboveModules(cfg, g, r, base, C(c), cfg.choices[c].typ);
      forall j | ChoiceUses(ChoiceAt(cfg, c), j) ensures ItemLevel(ranked, j) <= 8 * Rank(ranked, C(c)) {
        UsedIsBelow(cfg, g, r, base, C(c), j);
      }
      forall k | 0 <= k < |cfg.choices[c].syms| ensures SymAt(cfg, cfg.choices[c].syms[k]).choice == Some(c) {
        assert SymsIn(g, c)[k] in g.choice;
      }
    }
  }

  /** A configuration without loops has ranks. */
  lemma RanksExist(cfg: Config, g: Graph, base: set<Item>)
    requires IsGraphOf(cfg, g) && Formed(cfg) && LoopFree(g, g.choice.Keys) && BelowModules(cfg, base)
    ensures Rankable(cfg)
  {
    FollowAcyclic(g);
    var r := Ranks(Steps(g), Follow(g));
    forall s: nat ensures SymRanked(Ranking(cfg, g, r, base), s) {
      SymFits(cfg, g, r, base, s);
    }
    forall c: nat ensures ChoiceRanked(Ranking(cfg, g, r, base), c) {
      ChoiceFits(cfg, g, r, base, c);
    }
    var ranked := Ranking(cfg, g, r, base);
    assert Ranked(WithRanks(cfg, ranked.symRank, ranked.choiceRank));
  }

  // Conversely, ranks rule out loops

  lemma RankAlong(cfg: Config, g: Graph, a: Item, b: Item)
    requires Ranked(cfg) && IsGraphOf(cfg, g) && a in Nodes(g) && Step(g, g.choice.Keys, a, b)
    ensures Rank(cfg, a) <= Rank(cfg, b) && (a.S? && Edge(g, a, b) ==> Rank(cfg, a) < Rank(cfg, b))
  {
    if a.S? && Edge(g, a, b) {
      assert a in AllItems(cfg) && b in AllItems(cfg) && Uses(cfg, b, a);
      if b.S? {
        assert SymRanked(cfg, b.s);
        SymRankedIff(cfg, b.s);
      } else {
        assert ChoiceRanked(cfg, b.c);
        ChoiceRankedIff(cfg, b.c);
      }
    }
  }

  /** A closed walk only goes back and forth between a choice and its symbols. */
  lemma CircleKeepsRank(cfg: Config, g: Graph, p: seq<Item>, i: nat)
    requires Ranked(cfg) && IsGraphOf(cfg, g) && Circles(g, g.choice.Keys, p) && i < |p|
    ensures if p[i].C? then Edge(g, p[i], p[Prev(p, i)])
            else Enters(g, p[i], p[Prev(p, i)]) && !Edge(g, p[i], p[Prev(p, i)])
  {
    var h := seq(|p|, k requires 0 <= k < |p| => Rank(cfg, p[k]));
    forall k | 0 <= k < |h| ensures h[k] <= h[Prev(h, k)] {
      CircleInNodes(g, g.choice.Keys, p, k);
      RankAlong(cfg, g, p[k], p[Prev(p, k)]);
    }
    LevelAround(h, i);
    LevelAround(h, Prev(h, i));
    CircleInNodes(g, g.choice.Keys, p, i);
    RankAlong(cfg, g, p[i], p[Prev(p, i)]);
  }

  lemma RankedIsLoopFree(cfg: Config, g: Graph)
    requires Ranked(cfg) && IsGraphOf(cfg, g)
    ensures LoopFree(g, g.choice.Keys)
  {
    forall p: seq<Item> ensures !IsLoop(g, g.choice.Keys, p) {
      if Circles(g, g.choice.Keys, p) {
        var i := if p[0].C? then 0 else Prev(p, 0);
        CircleKeepsRank(cfg, g, p, 0);
        CircleKeepsRank(cfg, g, p, i);
        CircleKeepsRank(cfg, g, p, Prev(p, i));
        assert TurnsBack(g, p[i], p[Prev(p, i)], p[Prev(p, Prev(p, i))]);
      }
    }
  }

  lemma GroupSharesRank(cfg: Config, g: Graph, i: Item)
    requires IsGraphOf(cfg, g) && i in AllItems(cfg)
    ensures Group(cfg, i) in AllItems(cfg) && Rank(cfg, Group(cfg, i)) == Rank(cfg, i)
  {
    if i.S? && cfg.syms[i.s].choice.Some? { assert g.choice[i.s] in g.syms; }
  }

  lemma RankedHasBase(cfg: Config, g: Graph) returns (base: set<Item>)
    requires Ranked(cfg) && IsGraphOf(cfg, g)
    ensures BelowModules(cfg, base)
  {
    base := set x | x in AllItems(cfg) && Rank(cfg, x) <= Rank(cfg, S(cfg.modules));
    forall i | i in AllItems(cfg) ensures Group(cfg, i) in base <==> Rank(cfg, i) <= Rank(cfg, S(cfg.modules)) {
      GroupSharesRank(cfg, g, i);
    }
    forall s: nat, i | S(s) in AllItems(cfg) && i in AllItems(cfg) && Uses(cfg, i, S(s)) ensures Rank(cfg, S(s)) < Rank(cfg, i) {
      RankAlong(cfg, g, S(s), i);
    }
    forall i | i in AllItems(cfg) && i.S? && cfg.syms[i.s].typ == TRISTATE ensures Group(cfg, i) !in base {
      assert SymRanked(cfg, i.s);
    }
    forall c: nat | c < |cfg.choices| && cfg.choices[c].typ == TRISTATE ensures C(c) !in base {
      assert ChoiceRanked(cfg, c);
    }
  }

  lemma RanksUnseen(cfg: Config, symRank: seq<nat>, choiceRank: seq<nat>, g: Graph)
    requires IsGraphOf(cfg, g)
    ensures IsGraphOf(WithRanks(cfg, symRank, choiceRank), g)
    ensures forall base :: BelowModules(WithRanks(cfg, symRank, choiceRank), base) ==> BelowModules(cfg, base)
  {
    var ranked := WithRanks(cfg, symRank, choiceRank);
    assert AllItems(ranked) == AllItems(cfg);
    assert forall i, j :: Uses(ranked, i, j) == Uses(cfg, i, j);
    assert forall i :: Group(ranked, i) == Group(cfg, i);
  }

  /** A configuration has ranks exactly if its dependency graph has no loop, not even through the symbols of a choice,
      and MODULES depends on nothing of tristate type. */
  lemma RankableIff(cfg: Config, g: Graph)
    requires IsGraphOf(cfg, g) && Formed(cfg)
    ensures Rankable(cfg) <==> LoopFree(g, g.choice.Keys) && exists base :: BelowModules(cfg, base)
  {
    if Rankable(cfg) {
      var symRank, choiceRank :| Ranked(WithRanks(cfg, symRank, choiceRank));
      var ranked := WithRanks(cfg, symRank, choiceRank);
      RanksUnseen(cfg, symRank, choiceRank, g);
      RankedIsLoopFree(ranked, g);
      var base := RankedHasBase(ranked, g);
      assert BelowModules(cfg, base);
    }
    if LoopFree(g, g.choice.Keys) && exists base :: BelowModules(cfg, base) {
      var base :| BelowModules(cfg, base);
      RanksExist(cfg, g, base);
    }
  }

  /** Loop detection accepts every configuration that has ranks, and no others if there are no choices or loops that
      enter one through a symbol never occur alone. */
  method CheckConfig(cfg: Config, g: Graph) returns (r: Outcome)
    requires IsGraphOf(cfg, g) && Formed(cfg)
    ensures Rankable(cfg) ==> r.Fine?
    ensures !r.Fine? ==> r.Raised? && IsLoop(g, g.choice.Keys, r.loop) && !Rankable(cfg)
    ensures (exists base :: BelowModules(cfg, base)) && (LoopFree(g, {}) ==> LoopFree(g, g.choice.Keys)) ==>
      (r.Fine? <==> Rankable(cfg))
  {
    RankableIff(cfg, g);
    var checker := new Checker(g);
    r := checker.CheckAll();
    if r.Fine? {
      forall p: seq<Item> ensures !IsLoop(g, {}, p) {
        if IsLoop(g, {}, p) { MoreTried(g, {}, checker.tried, p); }
      }
    }
  }
}
