/** Which cached values an evaluation reads, and which items depend on which. */
module Dependents {
  import opened KconfigLang
  import opened Evaluation

  /** The cached fields of symbols and choices: _cached_vis, _cached_selection, _cached_tri_val,
      _cached_str_val and _cached_assignable. */
  datatype Query = VisQ(i: Item) | SelQ(c: nat) | TriQ(s: nat) | StrQ(s: nat) | AsgQ(i: Item)

  datatype Val = TriV(t: Tri) | SelV(sel: Option<nat>) | StrV(str: string) | AsgV(vals: seq<Tri>)

  function ItemOf(q: Query): Item {
    match q
    case VisQ(i) => i
    case SelQ(c) => C(c)
    case TriQ(s) => S(s)
    case StrQ(s) => S(s)
    case AsgQ(i) => i
  }

  /** The values a user can currently give to a symbol or choice. */
  function AsgOf(cfg: Config, u: User, i: Item): seq<Tri>
    requires Sane(cfg, u)
  {
    var vis := Vis(cfg, u, i);
    match i
    case S(s) =>
      var d := SymAt(cfg, s);
      if !Boolish(d.typ) || vis == 0 then []
      else
        var rev := Ev(cfg, u, d.revDep);
        if vis == 2 then
          if d.choice.Some? then [2]
          else if rev == 2 then [2]
          else
            var two := SymTypeOf(cfg, u, s) == BOOL || Ev(cfg, u, d.weakRevDep) == 2;
            if rev == 0 then (if two then [0, 2] else [0, 1, 2]) else (if two then [2] else [1, 2])
        else if rev == 0 then (if Ev(cfg, u, d.weakRevDep) != 2 then [0, 1] else [0, 2])
        else if rev == 2 then [2]
        else [1]
    case C(c) =>
      var d := ChoiceAt(cfg, c);
      if vis == 0 then []
      else if vis == 2 then
        var isBool := ChoiceTypeOf(cfg, u, c) == BOOL;
        if d.optional then (if isBool then [0, 2] else [0, 1, 2]) else (if isBool then [2] else [1, 2])
      else if d.optional then [0, 1] else [1]
  }

  function Spec(cfg: Config, u: User, q: Query): Val
    requires Sane(cfg, u)
  {
    match q
    case VisQ(i) => TriV(Vis(cfg, u, i))
    case SelQ(c) => SelV(SelOf(cfg, u, c))
    case TriQ(s) => TriV(TriOf(cfg, u, s).val)
    case StrQ(s) => StrV(StrOf(cfg, u, s).val)
    case AsgQ(i) => AsgV(AsgOf(cfg, u, i))
  }

  // Reads: the cached values consulted by one evaluation step all lie in the set d of filled caches

  ghost predicate ModRead(cfg: Config, d: set<Query>) {
    TriQ(cfg.modules) in d
  }

  ghost predicate ModeRead(cfg: Config, u: User, d: set<Query>, c: nat)
    requires Sane(cfg, u)
  {
    VisQ(C(c)) in d && (RawMode(cfg, u, c) == 1 && ChoiceAt(cfg, c).typ == TRISTATE ==> ModRead(cfg, d))
  }

  ghost predicate LeafRead(cfg: Config, u: User, d: set<Query>, x: Leaf)
    requires Sane(cfg, u)
  {
    match x
    case Ref(s) => TriQ(s) in d
    case Mode(c) => ModeRead(cfg, u, d, c)
    case _ => true
  }

  ghost predicate TextRead(cfg: Config, u: User, d: set<Query>, x: Leaf)
    requires Sane(cfg, u)
  {
    match x
    case Ref(s) => StrQ(s) in d
    case Mode(c) => ModeRead(cfg, u, d, c)
    case _ => true
  }

  ghost predicate NumRead(cfg: Config, u: User, d: set<Query>, x: Leaf)
    requires Sane(cfg, u)
  {
    if Boolish(LeafType(cfg, x)) then LeafRead(cfg, u, d, x) else TextRead(cfg, u, d, x)
  }

  /** && and || read their right operand only when the left one does not settle the result. */
  ghost predicate ExprRead(cfg: Config, u: User, d: set<Query>, e: Expr)
    requires Sane(cfg, u)
  {
    match e
    case Atom(x) => LeafRead(cfg, u, d, x)
    case And(l, r) => ExprRead(cfg, u, d, l) && (Ev(cfg, u, l) != 0 ==> ExprRead(cfg, u, d, r))
    case Or(l, r) => ExprRead(cfg, u, d, l) && (Ev(cfg, u, l) != 2 ==> ExprRead(cfg, u, d, r))
    case Not(e1) => ExprRead(cfg, u, d, e1)
    case Rel(_, a, b) =>
      if BothStrings(cfg, a, b) then TextRead(cfg, u, d, a) && TextRead(cfg, u, d, b)
      else
        && NumRead(cfg, u, d, a)
        && (LeafNum(cfg, u, a).Some? ==> NumRead(cfg, u, d, b))
        && (LeafNum(cfg, u, a).None? || LeafNum(cfg, u, b).None? ==> TextRead(cfg, u, d, a) && TextRead(cfg, u, d, b))
  }

  ghost predicate TypeRead(cfg: Config, u: User, d: set<Query>, s: nat)
    requires Sane(cfg, u)
  {
    var def := SymAt(cfg, s);
    def.typ == TRISTATE ==>
      && (def.choice.Some? ==> ModeRead(cfg, u, d, def.choice.value))
      && (!(def.choice.Some? && ModeOf(cfg, u, def.choice.value) == 2) ==> ModRead(cfg, d))
  }

  ghost predicate ChoiceTypeRead(cfg: Config, d: set<Query>, c: nat) {
    ChoiceAt(cfg, c).typ == TRISTATE ==> ModRead(cfg, d)
  }

  ghost predicate PromptsRead(cfg: Config, u: User, d: set<Query>, i: Item, n: nat)
    requires Sane(cfg, u) && n <= |NodesOf(cfg, i)|
  {
    forall k :: 0 <= k < n && NodesOf(cfg, i)[k].prompt.Some? ==> ExprRead(cfg, u, d, NodesOf(cfg, i)[k].prompt.value)
  }

  ghost predicate VisReads(cfg: Config, u: User, d: set<Query>, i: Item)
    requires Sane(cfg, u)
  {
    var v := Prompts(cfg, u, i, |NodesOf(cfg, i)|);
    && PromptsRead(cfg, u, d, i, |NodesOf(cfg, i)|)
    && match i
       case C(c) => v == 1 ==> ChoiceTypeRead(cfg, d, c)
       case S(s) =>
         var def := SymAt(cfg, s);
         if def.choice.Some? then
           && (v != 0 && ((def.typ == TRISTATE && v == 1) ||
                          (def.typ != TRISTATE && ChoiceAt(cfg, def.choice.value).typ == TRISTATE))
               ==> ModeRead(cfg, u, d, def.choice.value))
           && (v == 1 && ModeOf(cfg, u, def.choice.value) != 2 ==> TypeRead(cfg, u, d, s))
         else v == 1 ==> TypeRead(cfg, u, d, s)
  }

  ghost predicate FirstVisibleRead(cfg: Config, u: User, d: set<Query>, c: nat, k: nat)
    requires Sane(cfg, u) && k <= |ChoiceAt(cfg, c).syms|
    decreases |ChoiceAt(cfg, c).syms| - k
  {
    var def := ChoiceAt(cfg, c);
    k < |def.syms| ==>
      && VisQ(S(def.syms[k])) in d
      && (Vis(cfg, u, S(def.syms[k])) == 0 ==> FirstVisibleRead(cfg, u, d, c, k + 1))
  }

  ghost predicate SelDefaultRead(cfg: Config, u: User, d: set<Query>, c: nat, k: nat)
    requires Sane(cfg, u) && k <= |ChoiceAt(cfg, c).defaults|
    decreases |ChoiceAt(cfg, c).defaults| - k
  {
    var def := ChoiceAt(cfg, c);
    if k == |def.defaults| then FirstVisibleRead(cfg, u, d, c, 0)
    else
      var p := def.defaults[k];
      && ExprRead(cfg, u, d, p.cond)
      && (Ev(cfg, u, p.cond) != 0 ==> VisQ(S(p.sym)) in d)
      && (Ev(cfg, u, p.cond) == 0 || Vis(cfg, u, S(p.sym)) == 0 ==> SelDefaultRead(cfg, u, d, c, k + 1))
  }

  ghost predicate PickVisible(cfg: Config, u: User, c: nat)
    requires Sane(cfg, u)
  {
    c in u.pick && Vis(cfg, u, S(u.pick[c])) != 0
  }

  ghost predicate SelReads(cfg: Config, u: User, d: set<Query>, c: nat)
    requires Sane(cfg, u)
  {
    && ModeRead(cfg, u, d, c)
    && (ModeOf(cfg, u, c) == 2 ==>
          && (c in u.pick ==> VisQ(S(u.pick[c])) in d)
          && (!PickVisible(cfg, u, c) ==> SelDefaultRead(cfg, u, d, c, 0)))
  }

  ghost predicate DefaultTriRead(cfg: Config, u: User, d: set<Query>, s: nat, k: nat)
    requires Sane(cfg, u) && k <= |SymAt(cfg, s).defaults|
    decreases |SymAt(cfg, s).defaults| - k
  {
    var def := SymAt(cfg, s);
    k < |def.defaults| ==>
      && ExprRead(cfg, u, d, def.defaults[k].cond)
      && (if Ev(cfg, u, def.defaults[k].cond) != 0 then ExprRead(cfg, u, d, def.defaults[k].value)
          else DefaultTriRead(cfg, u, d, s, k + 1))
  }

  /** The user value of a symbol is in effect: it is visible and has one. */
  ghost predicate UserRules(cfg: Config, u: User, s: nat)
    requires Sane(cfg, u)
  {
    Vis(cfg, u, S(s)) != 0 && s in u.val
  }

  ghost predicate WantedReads(cfg: Config, u: User, d: set<Query>, s: nat)
    requires Sane(cfg, u)
  {
    var def := SymAt(cfg, s);
    !UserRules(cfg, u, s) ==>
      && DefaultTriRead(cfg, u, d, s, 0)
      && ExprRead(cfg, u, d, def.weakRevDep)
      && (Ev(cfg, u, def.weakRevDep) != 0 ==> ExprRead(cfg, u, d, def.directDep))
  }

  ghost predicate PromotedReads(cfg: Config, u: User, d: set<Query>, s: nat, v: Tri)
    requires Sane(cfg, u)
  {
    v == 1 ==>
      TypeRead(cfg, u, d, s) && (SymTypeOf(cfg, u, s) != BOOL ==> ExprRead(cfg, u, d, SymAt(cfg, s).weakRevDep))
  }

  ghost predicate TriReads(cfg: Config, u: User, d: set<Query>, s: nat)
    requires Sane(cfg, u)
  {
    var def := SymAt(cfg, s);
    Boolish(def.typ) ==>
      && VisQ(S(s)) in d
      && if def.choice.Some? then Vis(cfg, u, S(s)) == 2 ==> SelQ(def.choice.value) in d
         else
           && WantedReads(cfg, u, d, s)
           && ExprRead(cfg, u, d, def.revDep)
           && PromotedReads(cfg, u, d, s, Max(Ev(cfg, u, def.revDep), Wanted(cfg, u, s).val))
  }

  ghost predicate RangeRead(cfg: Config, u: User, d: set<Query>, s: nat, k: nat)
    requires Sane(cfg, u) && k <= |SymAt(cfg, s).ranges|
    decreases |SymAt(cfg, s).ranges| - k
  {
    var def := SymAt(cfg, s);
    k < |def.ranges| ==>
      && ExprRead(cfg, u, d, def.ranges[k].cond)
      && (if Ev(cfg, u, def.ranges[k].cond) != 0
          then TextRead(cfg, u, d, def.ranges[k].low) && TextRead(cfg, u, d, def.ranges[k].high)
          else RangeRead(cfg, u, d, s, k + 1))
  }

  ghost predicate DefaultStrRead(cfg: Config, u: User, d: set<Query>, s: nat, k: nat)
    requires Sane(cfg, u) && k <= |SymAt(cfg, s).defaults|
    decreases |SymAt(cfg, s).defaults| - k
  {
    var def := SymAt(cfg, s);
    k < |def.defaults| ==>
      && ExprRead(cfg, u, d, def.defaults[k].cond)
      && (if Ev(cfg, u, def.defaults[k].cond) != 0 then TextRead(cfg, u, d, DefaultLeaf(def.defaults[k].value))
          else DefaultStrRead(cfg, u, d, s, k + 1))
  }

  /** The user value of an int or hex symbol is in effect: non-empty, and inside the active range. */
  ghost predicate NumberRules(cfg: Config, u: User, s: nat)
    requires Sane(cfg, u)
  {
    && UserRules(cfg, u, s)
    && UserText(u.val[s]) != ""
    && InBounds(ActiveRange(cfg, u, s, 0), NumOr0(cfg, UserText(u.val[s]), Base(SymAt(cfg, s).typ)))
  }

  ghost predicate StrReads(cfg: Config, u: User, d: set<Query>, s: nat)
    requires Sane(cfg, u)
  {
    var def := SymAt(cfg, s);
    if Boolish(def.typ) then TriQ(s) in d
    else def.typ != UNKNOWN ==>
      && VisQ(S(s)) in d
      && (IntHex(def.typ) ==>
            RangeRead(cfg, u, d, s, 0) && (!NumberRules(cfg, u, s) ==> DefaultStrRead(cfg, u, d, s, 0)))
      && (!IntHex(def.typ) ==> (!UserRules(cfg, u, s) ==> DefaultStrRead(cfg, u, d, s, 0)))
  }

  ghost predicate AsgReads(cfg: Config, u: User, d: set<Query>, i: Item)
    requires Sane(cfg, u)
  {
    var vis := Vis(cfg, u, i);
    match i
    case C(c) => VisQ(i) in d && (vis == 2 ==> ChoiceTypeRead(cfg, d, c))
    case S(s) =>
      var def := SymAt(cfg, s);
      Boolish(def.typ) ==>
        && VisQ(i) in d
        && (vis != 0 ==>
              var rev := Ev(cfg, u, def.revDep);
              && ExprRead(cfg, u, d, def.revDep)
              && (vis == 2 && def.choice.None? && rev != 2 ==>
                    TypeRead(cfg, u, d, s) && (SymTypeOf(cfg, u, s) != BOOL ==> ExprRead(cfg, u, d, def.weakRevDep)))
              && (vis == 1 && rev == 0 ==> ExprRead(cfg, u, d, def.weakRevDep)))
  }

  ghost predicate Reads(cfg: Config, u: User, d: set<Query>, q: Query)
    requires Sane(cfg, u)
  {
    match q
    case VisQ(i) => VisReads(cfg, u, d, i)
    case SelQ(c) => SelReads(cfg, u, d, c)
    case TriQ(s) => TriReads(cfg, u, d, s)
    case StrQ(s) => StrReads(cfg, u, d, s)
    case AsgQ(i) => AsgReads(cfg, u, d, i)
  }

  // The static dependency sets

  predicate LeafIs(x: Leaf, j: Item) {
    match x
    case Ref(s) => j == S(s)
    case Mode(c) => j == C(c)
    case _ => false
  }

  predicate Mentions(e: Expr, j: Item) {
    match e
    case Atom(x) => LeafIs(x, j)
    case And(l, r) => Mentions(l, j) || Mentions(r, j)
    case Or(l, r) => Mentions(l, j) || Mentions(r, j)
    case Not(e1) => Mentions(e1, j)
    case Rel(_, a, b) => LeafIs(a, j) || LeafIs(b, j)
  }

  predicate SymDepends(d: SymDef, j: Item) {
    || (exists k :: 0 <= k < |d.nodes| && d.nodes[k].prompt.Some? && Mentions(d.nodes[k].prompt.value, j))
    || (exists k :: 0 <= k < |d.defaults| && (Mentions(d.defaults[k].value, j) || Mentions(d.defaults[k].cond, j)))
    || (exists k :: 0 <= k < |d.ranges| &&
                    (LeafIs(d.ranges[k].low, j) || LeafIs(d.ranges[k].high, j) || Mentions(d.ranges[k].cond, j)))
    || Mentions(d.revDep, j)
    || Mentions(d.weakRevDep, j)
    || Mentions(d.directDep, j)
  }

  predicate ChoiceUses(d: ChoiceDef, j: Item) {
    || (exists k :: 0 <= k < |d.nodes| && d.nodes[k].prompt.Some? && Mentions(d.nodes[k].prompt.value, j))
    || (exists k :: 0 <= k < |d.defaults| && Mentions(d.defaults[k].cond, j))
  }

  predicate ChoiceDepends(d: ChoiceDef, j: Item) {
    ChoiceUses(d, j) || (j.S? && j.s in d.syms)
  }

  /** i is in the _dependents set of j. */
  predicate DependsOn(cfg: Config, i: Item, j: Item) {
    match i
    case S(s) => SymDepends(SymAt(cfg, s), j)
    case C(c) => ChoiceDepends(ChoiceAt(cfg, c), j)
  }

  function AllItems(cfg: Config): set<Item> {
    (set s: nat | s < |cfg.syms| :: S(s)) + (set c: nat | c < |cfg.choices| :: C(c))
  }

  function DependentsOf(cfg: Config, j: Item): set<Item> {
    set i | i in AllItems(cfg) && DependsOn(cfg, i, j)
  }
}
