/** Uncached evaluation: the meaning of symbol and choice values, as recursion over the dependency graph. */
module Evaluation {
  import opened KconfigLang

  /** A value together with whether it would be written to a .config file. */
  datatype TriOut = TriOut(val: Tri, write: bool)
  datatype StrOut = StrOut(val: string, write: bool)
  datatype Bounds = Bounds(low: int, high: int)

  function Ev(cfg: Config, u: User, e: Expr): Tri
    requires Sane(cfg, u)
    decreases ExprLevel(cfg, e), 1, Size(e)
  {
    match e
    case Atom(x) => LeafTri(cfg, u, x)
    case And(l, r) => var v := Ev(cfg, u, l); if v == 0 then 0 else Min(v, Ev(cfg, u, r))
    case Or(l, r) => var v := Ev(cfg, u, l); if v == 2 then 2 else Max(v, Ev(cfg, u, r))
    case Not(e1) => 2 - Ev(cfg, u, e1)
    case Rel(op, a, b) => if Holds(op, Compare(cfg, u, a, b)) then 2 else 0
  }

  function LeafType(cfg: Config, x: Leaf): SymType {
    match x
    case Nmy(_) => TRISTATE
    case Lit(_) => UNKNOWN
    case Ref(s) => SymAt(cfg, s).typ
    case Mode(c) => ChoiceAt(cfg, c).typ
  }

  function LeafTri(cfg: Config, u: User, x: Leaf): Tri
    requires Sane(cfg, u)
    decreases LeafLevel(cfg, x), 0, 0
  {
    match x
    case Nmy(t) => t
    case Lit(_) => 0
    case Ref(s) => TriOf(cfg, u, s).val
    case Mode(c) => ModeOf(cfg, u, c)
  }

  function LeafStr(cfg: Config, u: User, x: Leaf): string
    requires Sane(cfg, u)
    decreases LeafLevel(cfg, x), 0, 0
  {
    match x
    case Nmy(t) => TriStr(t)
    case Lit(text) => text
    case Ref(s) => StrOf(cfg, u, s).val
    case Mode(c) => TriStr(ModeOf(cfg, u, c))
  }

  function LeafNum(cfg: Config, u: User, x: Leaf): Option<int>
    requires Sane(cfg, u)
    decreases LeafLevel(cfg, x), 0, 1
  {
    var t := LeafType(cfg, x);
    if Boolish(t) then Some(LeafTri(cfg, u, x)) else cfg.num.parse(LeafStr(cfg, u, x), Base(t))
  }

  predicate BothStrings(cfg: Config, a: Leaf, b: Leaf) {
    Textual(LeafType(cfg, a)) && LeafType(cfg, a) == LeafType(cfg, b)
  }

  function Compare(cfg: Config, u: User, a: Leaf, b: Leaf): int
    requires Sane(cfg, u)
    decreases ExprLevel(cfg, Rel(EQUAL, a, b)), 0, 2
  {
    if BothStrings(cfg, a, b) then Strcmp(LeafStr(cfg, u, a), LeafStr(cfg, u, b))
    else match (LeafNum(cfg, u, a), LeafNum(cfg, u, b))
      case (Some(x), Some(y)) => x - y
      case _ => Strcmp(LeafStr(cfg, u, a), LeafStr(cfg, u, b))
  }

  // Visibility, types and choice modes

  function VisLevel(cfg: Config, i: Item): nat {
    8 * Rank(cfg, i) + if i.S? then 2 else 0
  }

  /** The highest value among the prompt conditions of the first n menu nodes. */
  function Prompts(cfg: Config, u: User, i: Item, n: nat): Tri
    requires Sane(cfg, u) && n <= |NodesOf(cfg, i)|
    decreases VisLevel(cfg, i), 2, n
  {
    if n == 0 then 0
    else
      var rest := Prompts(cfg, u, i, n - 1);
      var node := NodesOf(cfg, i)[n - 1];
      assert i.S? ==> SymRanked(cfg, i.s);
      assert i.C? ==> ChoiceRanked(cfg, i.c);
      if node.prompt.Some? then Max(rest, Ev(cfg, u, node.prompt.value)) else rest
  }

  function SymTypeOf(cfg: Config, u: User, s: nat): SymType
    requires Sane(cfg, u)
    decreases 8 * Rank(cfg, S(s)) + 2, 2, 0
  {
    var d := SymAt(cfg, s);
    assert SymRanked(cfg, s);
    if d.typ == TRISTATE &&
       ((d.choice.Some? && ModeOf(cfg, u, d.choice.value) == 2) || TriOf(cfg, u, cfg.modules).val == 0)
    then BOOL else d.typ
  }

  function ChoiceTypeOf(cfg: Config, u: User, c: nat): SymType
    requires Sane(cfg, u)
    decreases 8 * Rank(cfg, C(c)), 2, 0
  {
    var d := ChoiceAt(cfg, c);
    assert ChoiceRanked(cfg, c);
    if d.typ == TRISTATE && TriOf(cfg, u, cfg.modules).val == 0 then BOOL else d.typ
  }

  function Vis(cfg: Config, u: User, i: Item): Tri
    requires Sane(cfg, u)
    decreases VisLevel(cfg, i), 3, 0
  {
    var v := Prompts(cfg, u, i, |NodesOf(cfg, i)|);
    match i
    case C(c) => if v == 1 && ChoiceTypeOf(cfg, u, c) != TRISTATE then 2 else v
    case S(s) =>
      var d := SymAt(cfg, s);
      if d.choice.Some? && ChoiceAt(cfg, d.choice.value).typ == TRISTATE && d.typ != TRISTATE &&
         ModeOf(cfg, u, d.choice.value) != 2
      then 0
      else if d.choice.Some? && d.typ == TRISTATE && v == 1 && ModeOf(cfg, u, d.choice.value) == 2 then 0
      else if v == 1 && SymTypeOf(cfg, u, s) != TRISTATE then 2
      else v
  }

  /** The mode of a choice, before m is promoted to y in bool choices. */
  function RawMode(cfg: Config, u: User, c: nat): Tri
    requires Sane(cfg, u)
    decreases 8 * Rank(cfg, C(c)) + 1, 2, 0
  {
    var least: Tri := if ChoiceAt(cfg, c).optional then 0 else 1;
    Min(if c in u.mode then Max(least, u.mode[c]) else least, Vis(cfg, u, C(c)))
  }

  function ModeOf(cfg: Config, u: User, c: nat): Tri
    requires Sane(cfg, u)
    decreases 8 * Rank(cfg, C(c)) + 1, 3, 0
  {
    var v := RawMode(cfg, u, c);
    if v == 1 && ChoiceTypeOf(cfg, u, c) == BOOL then 2 else v
  }

  // Choice selections

  function FirstVisible(cfg: Config, u: User, c: nat, k: nat): Option<nat>
    requires Sane(cfg, u) && k <= |ChoiceAt(cfg, c).syms|
    decreases 8 * Rank(cfg, C(c)) + 3, 2, |ChoiceAt(cfg, c).syms| - k
  {
    var d := ChoiceAt(cfg, c);
    assert ChoiceRanked(cfg, c);
    if k == |d.syms| then None
    else if Vis(cfg, u, S(d.syms[k])) != 0 then Some(d.syms[k])
    else FirstVisible(cfg, u, c, k + 1)
  }

  /** The selection given by the defaults from position k on, or else the first visible symbol. */
  function SelDefault(cfg: Config, u: User, c: nat, k: nat): Option<nat>
    requires Sane(cfg, u) && k <= |ChoiceAt(cfg, c).defaults|
    decreases 8 * Rank(cfg, C(c)) + 3, 2, |ChoiceAt(cfg, c).defaults| - k + |ChoiceAt(cfg, c).syms| + 1
  {
    var d := ChoiceAt(cfg, c);
    assert ChoiceRanked(cfg, c);
    if k == |d.defaults| then FirstVisible(cfg, u, c, 0)
    else if Ev(cfg, u, d.defaults[k].cond) != 0 && Vis(cfg, u, S(d.defaults[k].sym)) != 0 then Some(d.defaults[k].sym)
    else SelDefault(cfg, u, c, k + 1)
  }

  function SelOf(cfg: Config, u: User, c: nat): Option<nat>
    requires Sane(cfg, u)
    decreases 8 * Rank(cfg, C(c)) + 3, 3, 0
  {
    if ModeOf(cfg, u, c) != 2 then None
    else if c in u.pick && Vis(cfg, u, S(u.pick[c])) != 0 then Some(u.pick[c])
    else SelDefault(cfg, u, c, 0)
  }

  // Bool and tristate values

  function UserTri(v: UserVal): Tri {
    if v.TriVal? then v.t else 0
  }

  /** The value of the first default from position k on whose condition is not n. */
  function DefaultTri(cfg: Config, u: User, s: nat, k: nat): Tri
    requires Sane(cfg, u) && k <= |SymAt(cfg, s).defaults|
    decreases 8 * Rank(cfg, S(s)) + 4, 2, |SymAt(cfg, s).defaults| - k
  {
    var d := SymAt(cfg, s);
    assert SymRanked(cfg, s);
    if k == |d.defaults| then 0
    else
      var c := Ev(cfg, u, d.defaults[k].cond);
      if c != 0 then Min(Ev(cfg, u, d.defaults[k].value), c) else DefaultTri(cfg, u, s, k + 1)
  }

  /** The value of a non-choice symbol before selects: its user value if visible, else defaults and implies. */
  function Wanted(cfg: Config, u: User, s: nat): TriOut
    requires Sane(cfg, u)
    decreases 8 * Rank(cfg, S(s)) + 4, 2, |SymAt(cfg, s).defaults| + 1
  {
    var d := SymAt(cfg, s);
    assert SymRanked(cfg, s);
    var vis := Vis(cfg, u, S(s));
    if vis != 0 && s in u.val then TriOut(Min(UserTri(u.val[s]), vis), true)
    else
      var v := DefaultTri(cfg, u, s, 0);
      var weak := Ev(cfg, u, d.weakRevDep);
      if weak != 0 && Ev(cfg, u, d.directDep) != 0 then TriOut(Max(weak, v), true)
      else TriOut(v, vis != 0 || v != 0)
  }

  /** m becomes y for bool symbols and for symbols implied to y. */
  function Promoted(cfg: Config, u: User, s: nat, v: Tri): Tri
    requires Sane(cfg, u)
    decreases 8 * Rank(cfg, S(s)) + 4, 2, 0
  {
    assert SymRanked(cfg, s);
    if v == 1 && (SymTypeOf(cfg, u, s) == BOOL || Ev(cfg, u, SymAt(cfg, s).weakRevDep) == 2) then 2 else v
  }

  function TriOf(cfg: Config, u: User, s: nat): TriOut
    requires Sane(cfg, u)
    decreases 8 * Rank(cfg, S(s)) + 4, 3, 0
  {
    var d := SymAt(cfg, s);
    assert SymRanked(cfg, s);
    if !Boolish(d.typ) then TriOut(0, false)
    else
      var vis := Vis(cfg, u, S(s));
      if d.choice.Some? then
        if vis == 2 then TriOut(if SelOf(cfg, u, d.choice.value) == Some(s) then 2 else 0, true)
        else if vis != 0 && s in u.val && UserTri(u.val[s]) != 0 then TriOut(1, true)
        else TriOut(0, vis != 0)
      else
        var w := Wanted(cfg, u, s);
        var rev := Ev(cfg, u, d.revDep);
        var v := Max(rev, w.val);
        TriOut(Promoted(cfg, u, s, v), w.write || rev != 0)
  }

  // String, int and hex values

  function NumOr0(cfg: Config, text: string, base: nat): int {
    var n := cfg.num.parse(text, base);
    if n.Some? then n.value else 0
  }

  function ActiveRange(cfg: Config, u: User, s: nat, k: nat): Option<Bounds>
    requires Sane(cfg, u) && k <= |SymAt(cfg, s).ranges|
    decreases 8 * Rank(cfg, S(s)) + 5, 2, |SymAt(cfg, s).ranges| - k
  {
    var d := SymAt(cfg, s);
    assert SymRanked(cfg, s);
    if k == |d.ranges| then None
    else if Ev(cfg, u, d.ranges[k].cond) != 0 then
      Some(Bounds(NumOr0(cfg, LeafStr(cfg, u, d.ranges[k].low), Base(d.typ)),
                  NumOr0(cfg, LeafStr(cfg, u, d.ranges[k].high), Base(d.typ))))
    else ActiveRange(cfg, u, s, k + 1)
  }

  /** Defaults of string, int and hex symbols are single symbols. */
  function DefaultLeaf(e: Expr): Leaf {
    if e.Atom? then e.leaf else Lit("")
  }

  /** The text of the first default from position k on whose condition is not n. */
  function DefaultStr(cfg: Config, u: User, s: nat, k: nat): Option<string>
    requires Sane(cfg, u) && k <= |SymAt(cfg, s).defaults|
    decreases 8 * Rank(cfg, S(s)) + 5, 2, |SymAt(cfg, s).defaults| - k
  {
    var d := SymAt(cfg, s);
    assert SymRanked(cfg, s);
    if k == |d.defaults| then None
    else if Ev(cfg, u, d.defaults[k].cond) != 0 then Some(LeafStr(cfg, u, DefaultLeaf(d.defaults[k].value)))
    else DefaultStr(cfg, u, s, k + 1)
  }

  function UserText(v: UserVal): string {
    if v.Text? then v.text else ""
  }

  predicate InBounds(r: Option<Bounds>, n: int) {
    r.Some? ==> r.value.low <= n <= r.value.high
  }

  /** The text of a default after clamping its number into the active range. */
  function Clamped(cfg: Config, t: SymType, text: string, r: Option<Bounds>): string {
    var n := NumOr0(cfg, text, Base(t));
    if r.Some? && n < r.value.low then cfg.num.show(t, r.value.low)
    else if r.Some? && n > r.value.high then cfg.num.show(t, r.value.high)
    else text
  }

  function StrOf(cfg: Config, u: User, s: nat): StrOut
    requires Sane(cfg, u)
    decreases 8 * Rank(cfg, S(s)) + 5, 3, 0
  {
    var d := SymAt(cfg, s);
    assert SymRanked(cfg, s);
    if Boolish(d.typ) then var t := TriOf(cfg, u, s); StrOut(TriStr(t.val), t.write)
    else if d.typ == UNKNOWN then StrOut(d.name, false)
    else
      var vis := Vis(cfg, u, S(s));
      var dflt := DefaultStr(cfg, u, s, 0);
      var out :=
        if IntHex(d.typ) then
          var r := ActiveRange(cfg, u, s, 0);
          if vis != 0 && s in u.val && UserText(u.val[s]) != "" &&
             InBounds(r, NumOr0(cfg, UserText(u.val[s]), Base(d.typ)))
          then StrOut(UserText(u.val[s]), true)
          else StrOut(Clamped(cfg, d.typ, if dflt.Some? then dflt.value else "", r), vis != 0 || dflt.Some?)
        else if vis != 0 && s in u.val then StrOut(UserText(u.val[s]), true)
        else StrOut(if dflt.Some? then dflt.value else "", vis != 0 || dflt.Some?);
      StrOut(out.val, out.write && !d.isAuto)
  }

  /** Whether a symbol's value gets written to a .config file. */
  function WriteOf(cfg: Config, u: User, s: nat): bool
    requires Sane(cfg, u)
  {
    if Boolish(SymAt(cfg, s).typ) then TriOf(cfg, u, s).write else StrOf(cfg, u, s).write
  }
}
