/** The configuration graph that kconfiglib holds after a Kconfig tree has been parsed and finalized. */
module KconfigLang {

  /** n, m and y as 0, 1 and 2. */
  type Tri = t: nat | t <= 2

  datatype Option<+T> = None | Some(value: T)

  datatype SymType = UNKNOWN | BOOL | TRISTATE | STRING | KEY | INT | HEX

  datatype Relation = EQUAL | UNEQUAL | LESS | LESSEQUAL | GREATER | GREATEREQUAL

  /** An expression operand: a constant n/m/y, the text of any other constant or undefined symbol, a defined
      symbol, or a choice (which stands for its mode). */
  datatype Leaf = Nmy(t: Tri) | Lit(text: string) | Ref(s: nat) | Mode(c: nat)

  datatype Expr =
    | Atom(leaf: Leaf)
    | And(l: Expr, r: Expr)
    | Or(l: Expr, r: Expr)
    | Not(e: Expr)
    | Rel(op: Relation, a: Leaf, b: Leaf)

  const N: Expr := Atom(Nmy(0))
  const Y: Expr := Atom(Nmy(2))

  /** The part of a menu node that evaluation looks at: its prompt condition and its propagated dependency. */
  datatype Node = Node(prompt: Option<Expr>, dep: Expr)

  datatype Default = Default(value: Expr, cond: Expr)

  datatype Range = Range(low: Leaf, high: Leaf, cond: Expr)

  /** isAuto marks 'option env' symbols and the defconfig_list symbol, which are never written out. */
  datatype SymDef = SymDef(
    name: string, typ: SymType, nodes: seq<Node>, defaults: seq<Default>, ranges: seq<Range>,
    revDep: Expr, weakRevDep: Expr, directDep: Expr, choice: Option<nat>, isAuto: bool)

  datatype Pick = Pick(sym: nat, cond: Expr)

  datatype ChoiceDef = ChoiceDef(typ: SymType, nodes: seq<Node>, defaults: seq<Pick>, syms: seq<nat>, optional: bool)

  /** Python's int(text, base) and its str()/hex(), which the evaluator calls on int and hex values. */
  datatype Numerals = Numerals(parse: (string, nat) -> Option<int>, show: (SymType, int) -> string)

  /** Symbols and choices are named by their position. modules is the MODULES symbol; a position past the end
      stands for an undefined symbol. symRank and choiceRank witness that the dependency graph has no loop. */
  datatype Config = Config(
    syms: seq<SymDef>, choices: seq<ChoiceDef>, modules: nat,
    symRank: seq<nat>, choiceRank: seq<nat>, num: Numerals)

  datatype Item = S(s: nat) | C(c: nat)

  datatype UserVal = TriVal(t: Tri) | Text(text: string)

  /** Symbol.user_value, Choice.user_value and Choice.user_selection. */
  datatype User = User(val: map<nat, UserVal>, mode: map<nat, Tri>, pick: map<nat, nat>)

  const NOBODY: User := User(map[], map[], map[])

  const NO_SYM: SymDef := SymDef("", UNKNOWN, [], [], [], N, N, N, None, false)
  const NO_CHOICE: ChoiceDef := ChoiceDef(UNKNOWN, [], [], [], false)

  function SymAt(cfg: Config, s: nat): SymDef {
    if s < |cfg.syms| then cfg.syms[s] else NO_SYM
  }

  function ChoiceAt(cfg: Config, c: nat): ChoiceDef {
    if c < |cfg.choices| then cfg.choices[c] else NO_CHOICE
  }

  function NodesOf(cfg: Config, i: Item): seq<Node> {
    match i
    case S(s) => SymAt(cfg, s).nodes
    case C(c) => ChoiceAt(cfg, c).nodes
  }

  predicate Boolish(t: SymType) {
    t == BOOL || t == TRISTATE
  }

  predicate IntHex(t: SymType) {
    t == INT || t == HEX
  }

  predicate Textual(t: SymType) {
    t == STRING || t == KEY
  }

  function Base(t: SymType): nat {
    match t
    case INT => 10
    case HEX => 16
    case _ => 0
  }

  function Min(a: Tri, b: Tri): Tri {
    if b < a then b else a
  }

  function Max(a: Tri, b: Tri): Tri {
    if b > a then b else a
  }

  function TriStr(t: Tri): string {
    if t == 0 then "n" else if t == 1 then "m" else "y"
  }

  /** -1, 0 or 1, comparing strings by code point. */
  function Strcmp(a: string, b: string): int {
    if a == [] then (if b == [] then 0 else -1)
    else if b == [] then 1
    else if a[0] < b[0] then -1
    else if a[0] > b[0] then 1
    else Strcmp(a[1..], b[1..])
  }

  predicate Holds(op: Relation, comp: int) {
    match op
    case EQUAL => comp == 0
    case UNEQUAL => comp != 0
    case LESS => comp < 0
    case LESSEQUAL => comp <= 0
    case GREATER => comp > 0
    case GREATEREQUAL => comp >= 0
  }

  // Ranks and levels

  /** All symbols of a choice share the rank of the choice. */
  function Rank(cfg: Config, i: Item): nat {
    match i
    case C(c) => if c < |cfg.choiceRank| then cfg.choiceRank[c] else 0
    case S(s) =>
      match SymAt(cfg, s).choice
      case Some(c) => if c < |cfg.choiceRank| then cfg.choiceRank[c] else 0
      case None => if s < |cfg.symRank| then cfg.symRank[s] else 0
  }

  function LeafLevel(cfg: Config, x: Leaf): nat {
    match x
    case Ref(s) => 8 * Rank(cfg, S(s)) + 6
    case Mode(c) => 8 * Rank(cfg, C(c)) + 2
    case _ => 0
  }

  /** A bound on the levels of the values an expression can read. */
  function ExprLevel(cfg: Config, e: Expr): nat {
    match e
    case Atom(x) => LeafLevel(cfg, x)
    case And(l, r) => var a, b := ExprLevel(cfg, l), ExprLevel(cfg, r); if a > b then a else b
    case Or(l, r) => var a, b := ExprLevel(cfg, l), ExprLevel(cfg, r); if a > b then a else b
    case Not(e1) => ExprLevel(cfg, e1)
    case Rel(_, x, y) => var a, b := LeafLevel(cfg, x), LeafLevel(cfg, y); if a > b then a else b
  }

  function Size(e: Expr): nat {
    match e
    case Atom(_) => 1
    case And(l, r) => 1 + Size(l) + Size(r)
    case Or(l, r) => 1 + Size(l) + Size(r)
    case Not(e1) => 1 + Size(e1)
    case Rel(_, _, _) => 1
  }

  ghost predicate SymRanked(cfg: Config, s: nat) {
    var d := SymAt(cfg, s);
    var top := 8 * Rank(cfg, S(s)) + 2;
    && (forall k :: 0 <= k < |d.nodes| && d.nodes[k].prompt.Some? ==> ExprLevel(cfg, d.nodes[k].prompt.value) <= top)
    && (forall k :: 0 <= k < |d.defaults| ==>
          ExprLevel(cfg, d.defaults[k].value) <= top && ExprLevel(cfg, d.defaults[k].cond) <= top)
    && (forall k :: 0 <= k < |d.ranges| ==>
          && LeafLevel(cfg, d.ranges[k].low) <= top && LeafLevel(cfg, d.ranges[k].high) <= top
          && ExprLevel(cfg, d.ranges[k].cond) <= top)
    && ExprLevel(cfg, d.revDep) <= top
    && ExprLevel(cfg, d.weakRevDep) <= top
    && ExprLevel(cfg, d.directDep) <= top
    && (d.typ == TRISTATE ==> Rank(cfg, S(cfg.modules)) < Rank(cfg, S(s)))
  }

  ghost predicate ChoiceRanked(cfg: Config, c: nat) {
    var d := ChoiceAt(cfg, c);
    var top := 8 * Rank(cfg, C(c));
    && (forall k :: 0 <= k < |d.nodes| && d.nodes[k].prompt.Some? ==> ExprLevel(cfg, d.nodes[k].prompt.value) <= top)
    && (forall k :: 0 <= k < |d.defaults| ==>
          && ExprLevel(cfg, d.defaults[k].cond) <= top
          && SymAt(cfg, d.defaults[k].sym).choice == Some(c))
    && (forall k :: 0 <= k < |d.syms| ==> SymAt(cfg, d.syms[k]).choice == Some(c))
    && (d.typ == TRISTATE ==> Rank(cfg, S(cfg.modules)) < Rank(cfg, C(c)))
  }

  /** The dependency graph is loop-free: every symbol and choice only mentions items of lower rank (a choice
      symbol may also mention its own choice), tristate items rank above MODULES, and the default selections of
      a choice are among its own symbols. */
  ghost predicate Ranked(cfg: Config) {
    && (forall s: nat :: SymRanked(cfg, s))
    && (forall c: nat :: ChoiceRanked(cfg, c))
  }

  /** A user selection is always one of the symbols of its choice. */
  ghost predicate PicksOk(cfg: Config, u: User) {
    forall c :: c in u.pick ==> SymAt(cfg, u.pick[c]).choice == Some(c)
  }

  ghost predicate Sane(cfg: Config, u: User) {
    Ranked(cfg) && PicksOk(cfg, u)
  }
}
