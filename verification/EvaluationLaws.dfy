/** What evaluation computes, stated by itself: relations by the order of numbers and strings, defaults and ranges by
    the first one that applies, and values by the maximum of what asks for them. */
module EvaluationLaws {
  import opened KconfigLang
  import opened Evaluation
  import opened Choices

  // The order of strings

  /** s is a proper prefix of t, or has the smaller character where they first differ. */
  ghost predicate Precedes(s: string, t: string) {
    exists k :: 0 <= k <= |s| && k < |t| && s[..k] == t[..k] && (k == |s| || s[k] < t[k])
  }

  lemma PrecedesTail(s: string, t: string)
    requires s != [] && t != [] && s[0] == t[0]
    ensures Precedes(s, t) <==> Precedes(s[1..], t[1..])
  {
    if Precedes(s, t) {
      var k :| 0 <= k <= |s| && k < |t| && s[..k] == t[..k] && (k == |s| || s[k] < t[k]);
      assert k > 0;
      assert s[1..][..k - 1] == s[..k][1..] && t[1..][..k - 1] == t[..k][1..];
      assert 0 <= k - 1 <= |s[1..]| && (k - 1 == |s[1..]| || s[1..][k - 1] < t[1..][k - 1]);
    }
    if Precedes(s[1..], t[1..]) {
      var k :| 0 <= k <= |s[1..]| && k < |t[1..]| && s[1..][..k] == t[1..][..k] && (k == |s[1..]| || s[1..][k] < t[1..][k]);
      assert s[..k + 1] == [s[0]] + s[1..][..k] && t[..k + 1] == [t[0]] + t[1..][..k];
    }
  }

  lemma SharedHead(s: string, t: string, k: nat)
    requires 0 < k <= |s| && k <= |t| && s[..k] == t[..k]
    ensures s[0] == t[0]
  {
    assert s[..k][0] == s[0] && t[..k][0] == t[0];
  }

  lemma PrecedesHead(s: string, t: string)
    ensures s == [] ==> (Precedes(s, t) <==> t != [])
    ensures t == [] ==> !Precedes(s, t)
    ensures s != [] && t != [] && s[0] != t[0] ==> (Precedes(s, t) <==> s[0] < t[0])
  {
    if s == [] && t != [] { assert s[..0] == t[..0]; }
    if s != [] && t != [] && s[0] < t[0] { assert s[..0] == t[..0]; }
    if s != [] && t != [] && s[0] != t[0] && Precedes(s, t) {
      var k :| 0 <= k <= |s| && k < |t| && s[..k] == t[..k] && (k == |s| || s[k] < t[k]);
      if k > 0 { SharedHead(s, t, k); }
    }
  }

  lemma {:induction false} StrcmpIsOrder(s: string, t: string)
    ensures Strcmp(s, t) == 0 <==> s == t
    ensures Strcmp(s, t) < 0 <==> Precedes(s, t)
    ensures Strcmp(s, t) > 0 <==> Precedes(t, s)
  {
    PrecedesHead(s, t);
    PrecedesHead(t, s);
    if s != [] && t != [] && s[0] == t[0] {
      StrcmpIsOrder(s[1..], t[1..]);
      PrecedesTail(s, t);
      PrecedesTail(t, s);
      assert s == t <==> s[1..] == t[1..] by { assert s == [s[0]] + s[1..] && t == [t[0]] + t[1..]; }
    }
  }

  // Relations

  predicate NumbersRelate(op: Relation, x: int, y: int) {
    match op
    case EQUAL => x == y
    case UNEQUAL => x != y
    case LESS => x < y
    case LESSEQUAL => x <= y
    case GREATER => x > y
    case GREATEREQUAL => x >= y
  }

  ghost predicate TextsRelate(op: Relation, s: string, t: string) {
    match op
    case EQUAL => s == t
    case UNEQUAL => s != t
    case LESS => Precedes(s, t)
    case LESSEQUAL => s == t || Precedes(s, t)
    case GREATER => Precedes(t, s)
    case GREATEREQUAL => s == t || Precedes(t, s)
  }

  function OperandType(cfg: Config, x: Leaf): SymType {
    match x
    case Nmy(_) => TRISTATE
    case Lit(_) => UNKNOWN
    case Ref(s) => SymAt(cfg, s).typ
    case Mode(c) => ChoiceAt(cfg, c).typ
  }

  /** The text an operand stands for. */
  function OperandText(cfg: Config, u: User, x: Leaf): string
    requires Sane(cfg, u)
  {
    match x
    case Nmy(t) => ["n", "m", "y"][t]
    case Lit(text) => text
    case Ref(s) => StrOf(cfg, u, s).val
    case Mode(c) => ["n", "m", "y"][ModeOf(cfg, u, c)]
  }

  /** The value of an operand: texts that are not symbols are n. */
  function OperandValue(cfg: Config, u: User, x: Leaf): Tri
    requires Sane(cfg, u)
  {
    match x
    case Nmy(t) => t
    case Lit(_) => 0
    case Ref(s) => TriOf(cfg, u, s).val
    case Mode(c) => ModeOf(cfg, u, c)
  }

  /** The number an operand stands for: n, m and y are 0, 1 and 2, other operands are read in the base of their type. */
  function OperandNumber(cfg: Config, u: User, x: Leaf): Option<int>
    requires Sane(cfg, u)
  {
    match OperandType(cfg, x)
    case BOOL => Some(OperandValue(cfg, u, x))
    case TRISTATE => Some(OperandValue(cfg, u, x))
    case INT => cfg.num.parse(OperandText(cfg, u, x), 10)
    case HEX => cfg.num.parse(OperandText(cfg, u, x), 16)
    case _ => cfg.num.parse(OperandText(cfg, u, x), 0)
  }

  /** v is y if the relation holds and n otherwise: between numbers if both operands are numbers and not both are
      strings (or both keys), between texts otherwise. */
  ghost predicate RelationIs(cfg: Config, u: User, op: Relation, a: Leaf, b: Leaf, v: Tri)
    requires Sane(cfg, u)
  {
    var x, y := OperandNumber(cfg, u, a), OperandNumber(cfg, u, b);
    var strings := OperandType(cfg, a) == OperandType(cfg, b) == STRING || OperandType(cfg, a) == OperandType(cfg, b) == KEY;
    v == if (if !strings && x.Some? && y.Some? then NumbersRelate(op, x.value, y.value)
             else TextsRelate(op, OperandText(cfg, u, a), OperandText(cfg, u, b)))
         then 2 else 0
  }

  lemma RelationLaw(cfg: Config, u: User, op: Relation, a: Leaf, b: Leaf)
    requires Sane(cfg, u)
    ensures RelationIs(cfg, u, op, a, b, Ev(cfg, u, Rel(op, a, b)))
  {
    OperandMeans(cfg, u, a);
    OperandMeans(cfg, u, b);
    CompareIsOrder(cfg, u, a, b);
  }

  lemma OperandMeans(cfg: Config, u: User, x: Leaf)
    requires Sane(cfg, u)
    ensures LeafNum(cfg, u, x) == OperandNumber(cfg, u, x) && LeafType(cfg, x) == OperandType(cfg, x)
    ensures LeafStr(cfg, u, x) == OperandText(cfg, u, x) && LeafTri(cfg, u, x) == OperandValue(cfg, u, x)
  {
  }

  lemma CompareIsOrder(cfg: Config, u: User, a: Leaf, b: Leaf)
    requires Sane(cfg, u)
    ensures var c, x, y := Compare(cfg, u, a, b), LeafNum(cfg, u, a), LeafNum(cfg, u, b);
            var s, t := LeafStr(cfg, u, a), LeafStr(cfg, u, b);
            if !BothStrings(cfg, a, b) && x.Some? && y.Some? then c == x.value - y.value
            else (c == 0 <==> s == t) && (c < 0 <==> Precedes(s, t)) && (c > 0 <==> Precedes(t, s))
  {
    StrcmpIsOrder(LeafStr(cfg, u, a), LeafStr(cfg, u, b));
  }

  /** Among the values of the operands, v is the lowest of &&, the highest of ||, and the mirror image for !. */
  ghost predicate ValueIs(cfg: Config, u: User, e: Expr, v: Tri)
    requires Sane(cfg, u)
  {
    match e
    case Atom(x) => v == OperandValue(cfg, u, x)
    case And(l, r) => v <= Ev(cfg, u, l) && v <= Ev(cfg, u, r) && (v == Ev(cfg, u, l) || v == Ev(cfg, u, r))
    case Or(l, r) => v >= Ev(cfg, u, l) && v >= Ev(cfg, u, r) && (v == Ev(cfg, u, l) || v == Ev(cfg, u, r))
    case Not(e1) => v + Ev(cfg, u, e1) == 2
    case Rel(op, a, b) => RelationIs(cfg, u, op, a, b, v)
  }

  lemma ExprLaw(cfg: Config, u: User, e: Expr)
    requires Sane(cfg, u)
    ensures ValueIs(cfg, u, e, Ev(cfg, u, e))
  {
    if e.Rel? { RelationLaw(cfg, u, e.op, e.a, e.b); }
    if e.Atom? { OperandMeans(cfg, u, e.leaf); }
  }

  // Visibility, modes and types

  /** Whether a tristate symbol or choice currently only knows n and y. */
  predicate SymIsBool(cfg: Config, u: User, s: nat)
    requires Sane(cfg, u)
  {
    var d := SymAt(cfg, s);
    || d.typ == BOOL
    || (d.typ == TRISTATE && TriOf(cfg, u, cfg.modules).val == 0)
    || (d.typ == TRISTATE && d.choice.Some? && ModeOf(cfg, u, d.choice.value) == 2)
  }

  /** p is the highest prompt condition. */
  ghost predicate HighestPrompt(cfg: Config, u: User, i: Item, p: Tri)
    requires Sane(cfg, u)
  {
    var nodes := NodesOf(cfg, i);
    && (forall k :: 0 <= k < |nodes| && nodes[k].prompt.Some? ==> Ev(cfg, u, nodes[k].prompt.value) <= p)
    && (p == 0 || exists k :: 0 <= k < |nodes| && nodes[k].prompt.Some? && Ev(cfg, u, nodes[k].prompt.value) == p)
  }

  lemma {:induction false} PromptsBound(cfg: Config, u: User, i: Item, n: nat, k: nat)
    requires Sane(cfg, u) && k < n <= |NodesOf(cfg, i)| && NodesOf(cfg, i)[k].prompt.Some?
    ensures Ev(cfg, u, NodesOf(cfg, i)[k].prompt.value) <= Prompts(cfg, u, i, n)
  {
    if k < n - 1 { PromptsBound(cfg, u, i, n - 1, k); }
  }

  lemma PromptsAreHighest(cfg: Config, u: User, i: Item, p: Tri)
    requires Sane(cfg, u) && HighestPrompt(cfg, u, i, p)
    ensures Prompts(cfg, u, i, |NodesOf(cfg, i)|) == p
  {
    var nodes := NodesOf(cfg, i);
    if p != 0 {
      var k :| 0 <= k < |nodes| && nodes[k].prompt.Some? && Ev(cfg, u, nodes[k].prompt.value) == p;
      PromptsBound(cfg, u, i, |nodes|, k);
    }
    if Prompts(cfg, u, i, |nodes|) != 0 { var k := PromptWitness(cfg, u, i, |nodes|); }
  }

  /** A symbol is as visible as its highest prompt, m counting as y unless it can be m; but a non-tristate symbol in a
      tristate choice is hidden outside y mode, and an m prompt of a tristate symbol is hidden inside it. */
  lemma SymVisibility(cfg: Config, u: User, s: nat, p: Tri)
    requires Sane(cfg, u) && HighestPrompt(cfg, u, S(s), p)
    ensures var d := SymAt(cfg, s);
            var inY := d.choice.Some? && ModeOf(cfg, u, d.choice.value) == 2;
            Vis(cfg, u, S(s)) ==
            if d.choice.Some? && !inY && ChoiceAt(cfg, d.choice.value).typ == TRISTATE && d.typ != TRISTATE then 0
            else if inY && d.typ == TRISTATE && p == 1 then 0
            else if p == 1 && (d.typ != TRISTATE || SymIsBool(cfg, u, s)) then 2
            else p
  {
    PromptsAreHighest(cfg, u, S(s), p);
  }

  /** A choice is as visible as its highest prompt; its mode is what the user gave, at least m unless it is optional,
      and at most its visibility. m counts as y unless modules are on and the choice is tristate. */
  lemma ModeLaw(cfg: Config, u: User, c: nat, p: Tri)
    requires Sane(cfg, u) && HighestPrompt(cfg, u, C(c), p)
    ensures var d := ChoiceAt(cfg, c);
            var hasM := d.typ == TRISTATE && TriOf(cfg, u, cfg.modules).val != 0;
            var vis: Tri := if p == 1 && !hasM then 2 else p;
            var asked: Tri := if c in u.mode && u.mode[c] == 2 then 2
                         else if !d.optional || (c in u.mode && u.mode[c] == 1) then 1 else 0;
            var m: Tri := if asked <= vis then asked else vis;
            && Vis(cfg, u, C(c)) == vis
            && (Boolish(d.typ) ==> ModeOf(cfg, u, c) == if m == 1 && !hasM then 2 else m)
  {
    PromptsAreHighest(cfg, u, C(c), p);
  }

  // Selections

  /** The default selection: the first default that applies to a visible symbol, or else the first visible symbol. */
  ghost predicate DefaultPick(cfg: Config, u: User, c: nat, r: Option<nat>)
    requires Sane(cfg, u)
  {
    var d := ChoiceAt(cfg, c);
    if exists k :: 0 <= k < |d.defaults| && Applies(cfg, u, d.defaults[k])
    then exists k :: 0 <= k < |d.defaults| && Applies(cfg, u, d.defaults[k]) && r == Some(d.defaults[k].sym)
                     && forall j :: 0 <= j < k ==> !Applies(cfg, u, d.defaults[j])
    else if exists k :: 0 <= k < |d.syms| && Vis(cfg, u, S(d.syms[k])) != 0
    then exists k :: 0 <= k < |d.syms| && Vis(cfg, u, S(d.syms[k])) != 0 && r == Some(d.syms[k])
                     && forall j :: 0 <= j < k ==> Vis(cfg, u, S(d.syms[j])) == 0
    else r == None
  }

  predicate Applies(cfg: Config, u: User, p: Pick)
    requires Sane(cfg, u)
  {
    Ev(cfg, u, p.cond) != 0 && Vis(cfg, u, S(p.sym)) != 0
  }

  lemma {:induction false} FirstVisibleFrom(cfg: Config, u: User, c: nat, k: nat)
    requires Sane(cfg, u) && k <= |ChoiceAt(cfg, c).syms|
    ensures var syms, r := ChoiceAt(cfg, c).syms, FirstVisible(cfg, u, c, k);
            && (r.None? ==> forall j :: k <= j < |syms| ==> Vis(cfg, u, S(syms[j])) == 0)
            && (r.Some? ==> exists i :: k <= i < |syms| && Vis(cfg, u, S(syms[i])) != 0 && r == Some(syms[i])
                                        && forall j :: k <= j < i ==> Vis(cfg, u, S(syms[j])) == 0)
    decreases |ChoiceAt(cfg, c).syms| - k
  {
    var syms := ChoiceAt(cfg, c).syms;
    if k < |syms| {
      if Vis(cfg, u, S(syms[k])) != 0 {
        assert FirstVisible(cfg, u, c, k) == Some(syms[k]);
      } else {
        FirstVisibleFrom(cfg, u, c, k + 1);
        assert FirstVisible(cfg, u, c, k) == FirstVisible(cfg, u, c, k + 1);
      }
    }
  }

  lemma {:induction false} SelDefaultFrom(cfg: Config, u: User, c: nat, k: nat)
    requires Sane(cfg, u) && k <= |ChoiceAt(cfg, c).defaults|
    ensures var ds, r := ChoiceAt(cfg, c).defaults, SelDefault(cfg, u, c, k);
            if exists i :: k <= i < |ds| && Applies(cfg, u, ds[i])
            then exists i :: k <= i < |ds| && Applies(cfg, u, ds[i]) && r == Some(ds[i].sym)
                             && forall j :: k <= j < i ==> !Applies(cfg, u, ds[j])
            else r == FirstVisible(cfg, u, c, 0)
    decreases |ChoiceAt(cfg, c).defaults| - k
  {
    var ds := ChoiceAt(cfg, c).defaults;
    if k < |ds| {
      SelDefaultFrom(cfg, u, c, k + 1);
      assert Applies(cfg, u, ds[k]) || SelDefault(cfg, u, c, k) == SelDefault(cfg, u, c, k + 1);
    }
  }

  lemma DefaultPickOf(cfg: Config, u: User, c: nat) returns (r: Option<nat>)
    requires Sane(cfg, u)
    ensures DefaultPick(cfg, u, c, r) && r == SelDefault(cfg, u, c, 0)
  {
    r := SelDefault(cfg, u, c, 0);
    SelDefaultFrom(cfg, u, c, 0);
    FirstVisibleFrom(cfg, u, c, 0);
  }

  /** Only y mode selects: the user selection if it is visible, else the default selection. */
  lemma SelectionLaw(cfg: Config, u: User, c: nat)
    requires Sane(cfg, u)
    ensures ModeOf(cfg, u, c) != 2 ==> SelOf(cfg, u, c) == None
    ensures ModeOf(cfg, u, c) == 2 && c in u.pick && Vis(cfg, u, S(u.pick[c])) != 0 ==> SelOf(cfg, u, c) == Some(u.pick[c])
    ensures ModeOf(cfg, u, c) == 2 && !(c in u.pick && Vis(cfg, u, S(u.pick[c])) != 0) ==>
              DefaultPick(cfg, u, c, SelOf(cfg, u, c))
  {
    var r := DefaultPickOf(cfg, u, c);
  }

  // Bool and tristate values

  /** The first n defaults do not apply, and default n, if there is one, does. */
  ghost predicate FirstDefault(cfg: Config, u: User, s: nat, n: nat)
    requires Sane(cfg, u)
  {
    var ds := SymAt(cfg, s).defaults;
    && n <= |ds| && (forall j :: 0 <= j < n ==> Ev(cfg, u, ds[j].cond) == 0)
    && (n < |ds| ==> Ev(cfg, u, ds[n].cond) != 0)
  }

  /** The value of default n, limited by its condition; n if there is no such default. */
  function DefaultPart(cfg: Config, u: User, s: nat, n: nat): Tri
    requires Sane(cfg, u)
  {
    var ds := SymAt(cfg, s).defaults;
    if n >= |ds| then 0
    else if Ev(cfg, u, ds[n].value) <= Ev(cfg, u, ds[n].cond) then Ev(cfg, u, ds[n].value)
    else Ev(cfg, u, ds[n].cond)
  }

  /** What the symbols that imply s ask for, as long as the dependencies of s are met. */
  function ImplyPart(cfg: Config, u: User, s: nat): Tri
    requires Sane(cfg, u)
  {
    if Ev(cfg, u, SymAt(cfg, s).directDep) != 0 then Ev(cfg, u, SymAt(cfg, s).weakRevDep) else 0
  }

  function Highest(a: Tri, b: Tri, c: Tri): Tri {
    if a >= b && a >= c then a else if b >= c then b else c
  }

  /** m is y for symbols that cannot be m, and for symbols implied to y. */
  function NeverM(cfg: Config, u: User, s: nat, v: Tri): Tri
    requires Sane(cfg, u)
  {
    if v == 1 && (SymIsBool(cfg, u, s) || Ev(cfg, u, SymAt(cfg, s).weakRevDep) == 2) then 2 else v
  }

  lemma {:induction false} DefaultTriFrom(cfg: Config, u: User, s: nat, n: nat, k: nat)
    requires Sane(cfg, u) && FirstDefault(cfg, u, s, n) && k <= n
    ensures DefaultTri(cfg, u, s, k) == DefaultPart(cfg, u, s, n)
    decreases n - k
  {
    if k < n { DefaultTriFrom(cfg, u, s, n, k + 1); }
  }

  /** A symbol outside choices that is not visible, or that the user has not set, has the highest of its default,
      what selects it, and what implies it while its dependencies are met. */
  lemma ValueWithoutUser(cfg: Config, u: User, s: nat, n: nat)
    requires Sane(cfg, u) && Boolish(SymAt(cfg, s).typ) && SymAt(cfg, s).choice.None?
    requires (Vis(cfg, u, S(s)) == 0 || s !in u.val) && FirstDefault(cfg, u, s, n)
    ensures var dflt, sel, imp := DefaultPart(cfg, u, s, n), Ev(cfg, u, SymAt(cfg, s).revDep), ImplyPart(cfg, u, s);
            && TriOf(cfg, u, s).val == NeverM(cfg, u, s, Highest(dflt, sel, imp))
            && (TriOf(cfg, u, s).write <==> Vis(cfg, u, S(s)) != 0 || dflt != 0 || sel != 0 || imp != 0)
  {
    DefaultTriFrom(cfg, u, s, n, 0);
    PlainTri(cfg, u, s);
    assert Wanted(cfg, u, s).val == Highest(DefaultPart(cfg, u, s, n), ImplyPart(cfg, u, s), 0);
  }

  lemma PlainTri(cfg: Config, u: User, s: nat)
    requires Sane(cfg, u) && Boolish(SymAt(cfg, s).typ) && SymAt(cfg, s).choice.None?
    ensures var w, rev := Wanted(cfg, u, s), Ev(cfg, u, SymAt(cfg, s).revDep);
            TriOf(cfg, u, s) == TriOut(NeverM(cfg, u, s, if rev >= w.val then rev else w.val), w.write || rev != 0)
  {
    assert SymTypeOf(cfg, u, s) == BOOL <==> SymIsBool(cfg, u, s);
  }

  /** A visible symbol outside choices that the user has set has the higher of what selects it and the user's value,
      limited by its visibility, and is always written. */
  lemma ValueWithUser(cfg: Config, u: User, s: nat, t: Tri)
    requires Sane(cfg, u) && Boolish(SymAt(cfg, s).typ) && SymAt(cfg, s).choice.None?
    requires Vis(cfg, u, S(s)) != 0 && s in u.val && u.val[s] == TriVal(t)
    ensures var given := if t <= Vis(cfg, u, S(s)) then t else Vis(cfg, u, S(s));
            && TriOf(cfg, u, s).val == NeverM(cfg, u, s, Highest(given, Ev(cfg, u, SymAt(cfg, s).revDep), 0))
            && TriOf(cfg, u, s).write
  {
    PlainTri(cfg, u, s);
  }

  /** A symbol whose dependencies are not met, that nothing selects and that has no default is n. */
  lemma UnmetIsN(cfg: Config, u: User, s: nat)
    requires Sane(cfg, u) && ChoicesOk(cfg) && DepsOk(cfg, s) && Boolish(SymAt(cfg, s).typ) && SymAt(cfg, s).choice.None?
    requires Ev(cfg, u, SymAt(cfg, s).directDep) == 0 && Ev(cfg, u, SymAt(cfg, s).revDep) == 0
    requires forall k :: 0 <= k < |SymAt(cfg, s).defaults| ==> Ev(cfg, u, SymAt(cfg, s).defaults[k].cond) == 0
    ensures TriOf(cfg, u, s) == TriOut(0, false)
  {
    if Vis(cfg, u, S(s)) != 0 { VisibleHasDeps(cfg, u, s); }
    ValueWithoutUser(cfg, u, s, |SymAt(cfg, s).defaults|);
  }

  /** A choice symbol is y as the selection, m if it is visible as m and the user has set it, and else n; it is written
      if it is visible. */
  lemma ChoiceSymbolValue(cfg: Config, u: User, s: nat, c: nat)
    requires Sane(cfg, u) && ChoicesOk(cfg) && SymAt(cfg, s).choice == Some(c)
    ensures var t, vis := TriOf(cfg, u, s), Vis(cfg, u, S(s));
            && (t.val == 2 <==> SelOf(cfg, u, c) == Some(s))
            && (t.val == 1 <==> vis == 1 && s in u.val && u.val[s] in {TriVal(1), TriVal(2)})
            && (t.write <==> vis != 0)
  {
    assert ChoiceSymOk(cfg, s);
    ChoiceExclusivity(cfg, u, c, s);
    ModeBoundsVisibility(cfg, u, s);
  }

  // String, int and hex values

  /** The text of default n; empty if there is no such default. */
  function DefaultText(cfg: Config, u: User, s: nat, n: nat): string
    requires Sane(cfg, u)
  {
    var ds := SymAt(cfg, s).defaults;
    if n < |ds| && ds[n].value.Atom? then OperandText(cfg, u, ds[n].value.leaf) else ""
  }

  lemma {:induction false} DefaultStrFrom(cfg: Config, u: User, s: nat, n: nat, k: nat)
    requires Sane(cfg, u) && FirstDefault(cfg, u, s, n) && k <= n
    ensures DefaultStr(cfg, u, s, k) ==
            if n < |SymAt(cfg, s).defaults| then Some(DefaultText(cfg, u, s, n)) else None
    decreases n - k
  {
    if k < n { DefaultStrFrom(cfg, u, s, n, k + 1); }
    else if n < |SymAt(cfg, s).defaults| { OperandMeans(cfg, u, DefaultLeaf(SymAt(cfg, s).defaults[n].value)); }
  }

  /** A visible string or key symbol that the user has set has the user's text, any other the text of its default. */
  lemma TextLaw(cfg: Config, u: User, s: nat, n: nat)
    requires Sane(cfg, u) && UserHasText(u, s) && FirstDefault(cfg, u, s, n)
    requires SymAt(cfg, s).typ == STRING || SymAt(cfg, s).typ == KEY
    ensures var d, vis, out := SymAt(cfg, s), Vis(cfg, u, S(s)), StrOf(cfg, u, s);
            && out.val == (if vis != 0 && s in u.val then u.val[s].text else DefaultText(cfg, u, s, n))
            && (out.write <==> !d.isAuto && (vis != 0 || n < |d.defaults|))
  {
    DefaultStrFrom(cfg, u, s, n, 0);
  }

  predicate UserHasText(u: User, s: nat) {
    s in u.val ==> u.val[s].Text?
  }

  /** The first n ranges do not apply, and range n, if there is one, does. */
  ghost predicate FirstRange(cfg: Config, u: User, s: nat, n: nat)
    requires Sane(cfg, u)
  {
    var rs := SymAt(cfg, s).ranges;
    && n <= |rs| && (forall j :: 0 <= j < n ==> Ev(cfg, u, rs[j].cond) == 0)
    && (n < |rs| ==> Ev(cfg, u, rs[n].cond) != 0)
  }

  /** A text as a number of the given type, 0 if it is none. */
  function NumberIn(cfg: Config, typ: SymType, text: string): int {
    var n := cfg.num.parse(text, if typ == INT then 10 else 16);
    if n.Some? then n.value else 0
  }

  function LowEnd(cfg: Config, u: User, s: nat, n: nat): int
    requires Sane(cfg, u) && n < |SymAt(cfg, s).ranges|
  {
    NumberIn(cfg, SymAt(cfg, s).typ, OperandText(cfg, u, SymAt(cfg, s).ranges[n].low))
  }

  function HighEnd(cfg: Config, u: User, s: nat, n: nat): int
    requires Sane(cfg, u) && n < |SymAt(cfg, s).ranges|
  {
    NumberIn(cfg, SymAt(cfg, s).typ, OperandText(cfg, u, SymAt(cfg, s).ranges[n].high))
  }

  /** The symbol is visible, and the user has given it a text whose number lies in range n, if there is one. */
  ghost predicate UserCounts(cfg: Config, u: User, s: nat, n: nat)
    requires Sane(cfg, u)
  {
    var d := SymAt(cfg, s);
    && Vis(cfg, u, S(s)) != 0 && s in u.val && u.val[s].Text? && u.val[s].text != ""
    && (n < |d.ranges| ==> LowEnd(cfg, u, s, n) <= NumberIn(cfg, d.typ, u.val[s].text) <= HighEnd(cfg, u, s, n))
  }

  lemma {:induction false} RangeFrom(cfg: Config, u: User, s: nat, n: nat, k: nat)
    requires Sane(cfg, u) && IntHex(SymAt(cfg, s).typ) && FirstRange(cfg, u, s, n) && k <= n
    ensures ActiveRange(cfg, u, s, k) ==
            if n < |SymAt(cfg, s).ranges| then Some(Bounds(LowEnd(cfg, u, s, n), HighEnd(cfg, u, s, n))) else None
    decreases n - k
  {
    if k < n { RangeFrom(cfg, u, s, n, k + 1); }
    else if n < |SymAt(cfg, s).ranges| {
      OperandMeans(cfg, u, SymAt(cfg, s).ranges[n].low);
      OperandMeans(cfg, u, SymAt(cfg, s).ranges[n].high);
    }
  }

  /** An int or hex symbol has the user's text, verbatim, if that counts; else its default's text, unless that lies below
      or above the range in effect: then it has the low or the high end, in standard form. */
  lemma NumberLaw(cfg: Config, u: User, s: nat, n: nat, r: nat)
    requires Sane(cfg, u) && IntHex(SymAt(cfg, s).typ) && UserHasText(u, s)
    requires FirstDefault(cfg, u, s, n) && FirstRange(cfg, u, s, r)
    ensures var d, out := SymAt(cfg, s), StrOf(cfg, u, s);
            var text := DefaultText(cfg, u, s, n);
            && (UserCounts(cfg, u, s, r) ==> out.val == u.val[s].text)
            && (!UserCounts(cfg, u, s, r) && r == |d.ranges| ==> out.val == text)
            && (!UserCounts(cfg, u, s, r) && r < |d.ranges| ==>
                  var low, high, x := LowEnd(cfg, u, s, r), HighEnd(cfg, u, s, r), NumberIn(cfg, d.typ, text);
                  && (x < low ==> out.val == cfg.num.show(d.typ, low))
                  && (low <= x && high < x ==> out.val == cfg.num.show(d.typ, high))
                  && (low <= x <= high ==> out.val == text))
            && (out.write <==> !d.isAuto && (Vis(cfg, u, S(s)) != 0 || n < |d.defaults|))
  {
    DefaultStrFrom(cfg, u, s, n, 0);
    RangeFrom(cfg, u, s, r, 0);
  }

  /** Bool and tristate symbols have their value as text, and undefined symbols their name. */
  lemma OtherTexts(cfg: Config, u: User, s: nat)
    requires Sane(cfg, u)
    ensures Boolish(SymAt(cfg, s).typ) ==>
              StrOf(cfg, u, s).val == ["n", "m", "y"][TriOf(cfg, u, s).val] && StrOf(cfg, u, s).write == TriOf(cfg, u, s).write
    ensures !Boolish(SymAt(cfg, s).typ) ==> TriOf(cfg, u, s) == TriOut(0, false)
    ensures SymAt(cfg, s).typ == UNKNOWN ==> StrOf(cfg, u, s) == StrOut(SymAt(cfg, s).name, false)
  {
  }

  // Each law speaks of every symbol: there always is a first default, a first range and a highest prompt

  lemma {:induction false} FirstDefaultFrom(cfg: Config, u: User, s: nat, k: nat) returns (n: nat)
    requires Sane(cfg, u) && k <= |SymAt(cfg, s).defaults|
    requires forall j :: 0 <= j < k ==> Ev(cfg, u, SymAt(cfg, s).defaults[j].cond) == 0
    ensures FirstDefault(cfg, u, s, n)
    decreases |SymAt(cfg, s).defaults| - k
  {
    var ds := SymAt(cfg, s).defaults;
    n := k;
    if k < |ds| && Ev(cfg, u, ds[k].cond) == 0 { n := FirstDefaultFrom(cfg, u, s, k + 1); }
  }

  lemma {:induction false} FirstRangeFrom(cfg: Config, u: User, s: nat, k: nat) returns (n: nat)
    requires Sane(cfg, u) && k <= |SymAt(cfg, s).ranges|
    requires forall j :: 0 <= j < k ==> Ev(cfg, u, SymAt(cfg, s).ranges[j].cond) == 0
    ensures FirstRange(cfg, u, s, n)
    decreases |SymAt(cfg, s).ranges| - k
  {
    var rs := SymAt(cfg, s).ranges;
    n := k;
    if k < |rs| && Ev(cfg, u, rs[k].cond) == 0 { n := FirstRangeFrom(cfg, u, s, k + 1); }
  }

  lemma HighestPromptIs(cfg: Config, u: User, i: Item) returns (p: Tri)
    requires Sane(cfg, u)
    ensures HighestPrompt(cfg, u, i, p)
  {
    var nodes := NodesOf(cfg, i);
    p := Prompts(cfg, u, i, |nodes|);
    forall k | 0 <= k < |nodes| && nodes[k].prompt.Some? ensures Ev(cfg, u, nodes[k].prompt.value) <= p {
      PromptsBound(cfg, u, i, |nodes|, k);
    }
    if p != 0 { var k := PromptWitness(cfg, u, i, |nodes|); }
  }
}
