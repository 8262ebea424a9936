/** The Kconfig object: values computed on demand, cached, and invalidated when user values change. */
module KconfigObject {
  import opened KconfigLang
  import opened Evaluation
  import opened Dependents
  import opened Choices
  import opened Frames
  import opened UserState
  import Laws = EvaluationLaws

  /** The caches left after clearing those of the items in v. */
  function Forget(m: map<Query, Val>, v: set<Item>): map<Query, Val> {
    map q | q in m && ItemOf(q) !in v :: m[q]
  }

  /** Every cached value equals uncached evaluation of the current user values and has its inputs cached. */
  ghost predicate Coherent(cfg: Config, u: User, m: map<Query, Val>, writes: set<nat>)
    requires Sane(cfg, u)
  {
    && (forall q :: Current(cfg, u, m, writes, q))
    && (forall s :: s in writes ==> SymAt(cfg, s).typ != UNKNOWN)
  }

  /** A value whose computation also decides whether its symbol gets written out. */
  predicate DecidesWrite(cfg: Config, q: Query) {
    q.StrQ? || (q.TriQ? && Boolish(SymAt(cfg, q.s).typ))
  }

  ghost predicate Current(cfg: Config, u: User, m: map<Query, Val>, writes: set<nat>, q: Query)
    requires Sane(cfg, u)
  {
    q in m ==>
      && m[q] == Spec(cfg, u, q)
      && Reads(cfg, u, m.Keys, q)
      && (DecidesWrite(cfg, q) ==> ((q.s in writes) == WriteOf(cfg, u, q.s)))
  }

  lemma Remember(cfg: Config, u: User, m: map<Query, Val>, writes: set<nat>, q: Query, val: Val)
    requires Sane(cfg, u) && Coherent(cfg, u, m, writes) && val == Spec(cfg, u, q) && Reads(cfg, u, m.Keys, q)
    requires DecidesWrite(cfg, q) ==> ((q.s in writes) == WriteOf(cfg, u, q.s))
    ensures Coherent(cfg, u, m[q := val], writes)
  {
    var m' := m[q := val];
    forall p ensures Current(cfg, u, m', writes, p) {
      if p in m' {
        assert Current(cfg, u, m, writes, p);
        Grow(cfg, u, m.Keys, m'.Keys, p);
      }
    }
  }

  // Invalidation

  /** Values that never change, whatever the user does. */
  predicate Constant(cfg: Config, q: Query) {
    match q
    case TriQ(s) => !Boolish(SymAt(cfg, s).typ)
    case StrQ(s) => SymAt(cfg, s).typ == UNKNOWN
    case AsgQ(i) => i.S? && !Boolish(SymAt(cfg, i.s).typ)
    case _ => false
  }

  /** The visibility of an item is cached whenever any of its other varying values is. */
  lemma CachedVisibility(cfg: Config, u: User, m: map<Query, Val>, writes: set<nat>, q: Query)
    requires Sane(cfg, u) && Coherent(cfg, u, m, writes) && q in m && !Constant(cfg, q)
    ensures VisQ(ItemOf(q)) in m
  {
    assert Current(cfg, u, m, writes, q);
    if q.StrQ? && TriQ(q.s) in m {
      assert Current(cfg, u, m, writes, TriQ(q.s));
    }
  }

  /** What _rec_invalidate leaves: everything that directly depends on a cleared item is cleared or was not
      cached, and clearing MODULES clears everything. */
  ghost predicate Invalidated(cfg: Config, v: set<Item>, m': map<Query, Val>) {
    && v <= AllItems(cfg)
    && (forall j, k :: j in v && k in DependentsOf(cfg, j) ==> VisQ(k) !in m')
    && (S(cfg.modules) in v ==> AllItems(cfg) <= v)
  }

  /** The new user state differs only at items that are no longer cached, or that are invisible. */
  ghost predicate Unseen(cfg: Config, u: User, u': User, m': map<Query, Val>)
    requires Sane(cfg, u)
  {
    && (forall s: nat :: !SameVal(u, u', s) ==> VisQ(S(s)) !in m' || Vis(cfg, u, S(s)) == 0)
    && (forall c: nat :: !SameChoice(u, u', c) ==> VisQ(C(c)) !in m')
  }

  /** Evaluating an undefined item reads nothing but the item itself. */
  lemma UndefinedReads(cfg: Config, u: User, d: set<Query>, d': set<Query>, q: Query)
    requires Sane(cfg, u) && ItemOf(q) !in AllItems(cfg) && Reads(cfg, u, d, q)
    requires forall p :: p in d && ItemOf(p) == ItemOf(q) ==> p in d'
    ensures Reads(cfg, u, d', q)
  {
    assert NodesOf(cfg, ItemOf(q)) == [] && Prompts(cfg, u, ItemOf(q), 0) == 0;
    match q
    case SelQ(c) => assert Vis(cfg, u, C(c)) == 0 && RawMode(cfg, u, c) == 0;
    case AsgQ(i) => if i.C? { assert Vis(cfg, u, i) == 0; }
    case _ =>
  }

  lemma SurvivorReads(cfg: Config, u: User, m: map<Query, Val>, writes: set<nat>, v: set<Item>, q: Query)
    requires Sane(cfg, u) && ChoicesOk(cfg) && Coherent(cfg, u, m, writes)
    requires Invalidated(cfg, v, Forget(m, v)) && q in Forget(m, v)
    ensures Reads(cfg, u, Forget(m, v).Keys, q)
  {
    var m' := Forget(m, v);
    var i := ItemOf(q);
    assert Current(cfg, u, m, writes, q);
    if i !in AllItems(cfg) {
      UndefinedReads(cfg, u, m.Keys, m'.Keys, q);
    } else if !Constant(cfg, q) {
      CachedVisibility(cfg, u, m, writes, q);
      SurvivorUntouched(cfg, v, m', i);
      Keep(cfg, u, m.Keys, v, m'.Keys, q);
    }
  }

  lemma SurvivorUntouched(cfg: Config, v: set<Item>, m': map<Query, Val>, i: Item)
    requires Invalidated(cfg, v, m') && i in AllItems(cfg) && i !in v && VisQ(i) in m'
    ensures Untouched(cfg, v, i)
  {
    forall j | j in v ensures !DependsOn(cfg, i, j) {
      assert DependsOn(cfg, i, j) ==> i in DependentsOf(cfg, j);
    }
  }

  /** The early stop at items without a cached visibility is sound: what survives stays coherent. */
  lemma InvalidationSound(cfg: Config, u: User, u': User, m: map<Query, Val>, writes: set<nat>, v: set<Item>)
    requires Sane(cfg, u) && Sane(cfg, u') && ChoicesOk(cfg) && Coherent(cfg, u, m, writes)
    requires Invalidated(cfg, v, Forget(m, v)) && Unseen(cfg, u, u', Forget(m, v))
    ensures Coherent(cfg, u', Forget(m, v), writes)
  {
    var m' := Forget(m, v);
    forall q | q in m' ensures Reads(cfg, u, m'.Keys, q) {
      SurvivorReads(cfg, u, m, writes, v, q);
    }
    assert Stable(cfg, u, u', m'.Keys);
    forall q ensures Current(cfg, u', m', writes, q) {
      if q in m' {
        assert Current(cfg, u, m, writes, q);
        Frame(cfg, u, u', m'.Keys, q);
      }
    }
  }

  lemma NoPromptInvisible(cfg: Config, u: User, i: Item, n: nat)
    requires Sane(cfg, u) && n <= |NodesOf(cfg, i)|
    requires forall k :: 0 <= k < n ==> NodesOf(cfg, i)[k].prompt.None?
    ensures Prompts(cfg, u, i, n) == 0
  {
  }

  lemma ForgetTwice(m: map<Query, Val>, v: set<Item>, w: set<Item>)
    ensures Forget(Forget(m, v), w) == Forget(m, v + w)
  {
  }

  lemma VisShrinks(m: map<Query, Val>, v: set<Item>, i: Item)
    requires i in v
    ensures VisCached(Forget(m, v)) <= VisCached(m)
    ensures VisQ(i) in m ==> VisCached(Forget(m, v)) < VisCached(m)
  {
    assert VisQ(i) in m ==> VisQ(i) in VisCached(m) && VisQ(i) !in VisCached(Forget(m, v));
  }

  ghost function VisCached(m: map<Query, Val>): set<Query> {
    set q | q in m && q.VisQ?
  }

  /** Closed under dependents, and all items if it has MODULES. */
  ghost predicate DepClosed(cfg: Config, w: set<Item>) {
    && (forall j :: j in w ==> DependentsOf(cfg, j) <= w)
    && (S(cfg.modules) in w ==> AllItems(cfg) <= w)
  }

  // The loops that look for the first active default, range or visible symbol: what the first k steps read

  ghost predicate DefaultsPassed(cfg: Config, u: User, m: set<Query>, s: nat, k: nat)
    requires Sane(cfg, u) && k <= |SymAt(cfg, s).defaults|
  {
    forall j :: 0 <= j < k ==>
                  Ev(cfg, u, SymAt(cfg, s).defaults[j].cond) == 0 && ExprRead(cfg, u, m, SymAt(cfg, s).defaults[j].cond)
  }

  lemma {:induction false} JoinDefaults(cfg: Config, u: User, m: set<Query>, s: nat, k: nat, n: nat)
    requires Sane(cfg, u) && k <= n <= |SymAt(cfg, s).defaults| && DefaultsPassed(cfg, u, m, s, n)
    ensures DefaultTri(cfg, u, s, k) == DefaultTri(cfg, u, s, n) && DefaultStr(cfg, u, s, k) == DefaultStr(cfg, u, s, n)
    ensures DefaultTriRead(cfg, u, m, s, n) ==> DefaultTriRead(cfg, u, m, s, k)
    ensures DefaultStrRead(cfg, u, m, s, n) ==> DefaultStrRead(cfg, u, m, s, k)
    decreases n - k
  {
    if k < n { JoinDefaults(cfg, u, m, s, k + 1, n); }
  }

  ghost predicate RangesPassed(cfg: Config, u: User, m: set<Query>, s: nat, k: nat)
    requires Sane(cfg, u) && k <= |SymAt(cfg, s).ranges|
  {
    forall j :: 0 <= j < k ==>
                  Ev(cfg, u, SymAt(cfg, s).ranges[j].cond) == 0 && ExprRead(cfg, u, m, SymAt(cfg, s).ranges[j].cond)
  }

  lemma {:induction false} JoinRanges(cfg: Config, u: User, m: set<Query>, s: nat, k: nat, n: nat)
    requires Sane(cfg, u) && k <= n <= |SymAt(cfg, s).ranges| && RangesPassed(cfg, u, m, s, n)
    ensures ActiveRange(cfg, u, s, k) == ActiveRange(cfg, u, s, n)
    ensures RangeRead(cfg, u, m, s, n) ==> RangeRead(cfg, u, m, s, k)
    decreases n - k
  {
    if k < n { JoinRanges(cfg, u, m, s, k + 1, n); }
  }

  lemma DefaultsGrow(cfg: Config, u: User, m: set<Query>, m': set<Query>, s: nat, k: nat)
    requires Sane(cfg, u) && k <= |SymAt(cfg, s).defaults| && m <= m' && DefaultsPassed(cfg, u, m, s, k)
    ensures DefaultsPassed(cfg, u, m', s, k)
  {
    GrowExprs(cfg, u, m, m');
  }

  lemma RangesGrow(cfg: Config, u: User, m: set<Query>, m': set<Query>, s: nat, k: nat)
    requires Sane(cfg, u) && k <= |SymAt(cfg, s).ranges| && m <= m' && RangesPassed(cfg, u, m, s, k)
    ensures RangesPassed(cfg, u, m', s, k)
  {
    GrowExprs(cfg, u, m, m');
  }

  ghost predicate SymsPassed(cfg: Config, u: User, m: set<Query>, c: nat, k: nat)
    requires Sane(cfg, u) && k <= |ChoiceAt(cfg, c).syms|
  {
    forall j :: 0 <= j < k ==>
                  Vis(cfg, u, S(ChoiceAt(cfg, c).syms[j])) == 0 && VisQ(S(ChoiceAt(cfg, c).syms[j])) in m
  }

  lemma {:induction false} JoinSyms(cfg: Config, u: User, m: set<Query>, c: nat, k: nat, n: nat)
    requires Sane(cfg, u) && k <= n <= |ChoiceAt(cfg, c).syms| && SymsPassed(cfg, u, m, c, n)
    ensures FirstVisible(cfg, u, c, k) == FirstVisible(cfg, u, c, n)
    ensures FirstVisibleRead(cfg, u, m, c, n) ==> FirstVisibleRead(cfg, u, m, c, k)
    decreases n - k
  {
    if k < n { JoinSyms(cfg, u, m, c, k + 1, n); }
  }

  ghost predicate PicksPassed(cfg: Config, u: User, m: set<Query>, c: nat, k: nat)
    requires Sane(cfg, u) && k <= |ChoiceAt(cfg, c).defaults|
  {
    forall j :: 0 <= j < k ==>
                  var p := ChoiceAt(cfg, c).defaults[j];
                  && ExprRead(cfg, u, m, p.cond)
                  && (Ev(cfg, u, p.cond) != 0 ==> Vis(cfg, u, S(p.sym)) == 0 && VisQ(S(p.sym)) in m)
  }

  lemma PicksGrow(cfg: Config, u: User, m: set<Query>, m': set<Query>, c: nat, k: nat)
    requires Sane(cfg, u) && k <= |ChoiceAt(cfg, c).defaults| && m <= m' && PicksPassed(cfg, u, m, c, k)
    ensures PicksPassed(cfg, u, m', c, k)
  {
    GrowExprs(cfg, u, m, m');
  }

  lemma {:induction false} JoinPicks(cfg: Config, u: User, m: set<Query>, c: nat, k: nat, n: nat)
    requires Sane(cfg, u) && k <= n <= |ChoiceAt(cfg, c).defaults| && PicksPassed(cfg, u, m, c, n)
    ensures SelDefault(cfg, u, c, k) == SelDefault(cfg, u, c, n)
    ensures SelDefaultRead(cfg, u, m, c, n) ==> SelDefaultRead(cfg, u, m, c, k)
    decreases n - k
  {
    if k < n { JoinPicks(cfg, u, m, c, k + 1, n); }
  }

  lemma GrowPlain(cfg: Config, u: User, m1: set<Query>, m2: set<Query>, m3: set<Query>, s: nat)
    requires Sane(cfg, u) && m1 <= m2 <= m3 && VisQ(S(s)) in m1
    requires Boolish(SymAt(cfg, s).typ) && SymAt(cfg, s).choice.None?
    requires WantedReads(cfg, u, m1, s) && ExprRead(cfg, u, m2, SymAt(cfg, s).revDep)
    requires PromotedReads(cfg, u, m3, s, Max(Ev(cfg, u, SymAt(cfg, s).revDep), Wanted(cfg, u, s).val))
    ensures TriReads(cfg, u, m3, s)
  {
    if !UserRules(cfg, u, s) { GrowDefaultTri(cfg, u, m1, m3, s, 0); }
    GrowExprs(cfg, u, m1, m3);
    GrowExprs(cfg, u, m2, m3);
  }

  /** Invalidating a choice covers its symbols, apart from those whose prompts are all n. */
  lemma ChoiceCovers(cfg: Config, u: User, v: set<Item>, m': map<Query, Val>, s: nat)
    requires Sane(cfg, u) && ChoicesOk(cfg) && s < |cfg.syms| && SymAt(cfg, s).choice.Some?
    requires C(SymAt(cfg, s).choice.value) in v && Invalidated(cfg, v, m')
    ensures VisQ(S(s)) !in m' || Vis(cfg, u, S(s)) == 0
  {
    assert ChoiceSymOk(cfg, s);
    if Vis(cfg, u, S(s)) != 0 {
      PromptMentionsChoice(cfg, u, s);
      assert S(s) in DependentsOf(cfg, C(SymAt(cfg, s).choice.value));
    }
  }

  lemma AssignmentUnseen(cfg: Config, u: User, s: nat, value: UserVal, m': map<Query, Val>)
    requires Ranked(cfg) && UserOk(cfg, u) && s < |cfg.syms| && Takes(cfg, u, s, value)
    requires VisQ(S(s)) !in m' || Vis(cfg, u, S(s)) == 0
    requires SymAt(cfg, s).choice.Some? && Coerce(SymAt(cfg, s).typ, value) == TriVal(2) ==>
               VisQ(C(SymAt(cfg, s).choice.value)) !in m'
    ensures UserOk(cfg, SetSym(cfg, u, s, value)) && Unseen(cfg, u, SetSym(cfg, u, s, value), m')
  {
  }

  /** User values of symbols without a prompt are never looked at. */
  lemma PromptCovers(cfg: Config, u: User, v: set<Item>, m: map<Query, Val>, s: nat)
    requires Sane(cfg, u)
    requires (exists k :: 0 <= k < |SymAt(cfg, s).nodes| && SymAt(cfg, s).nodes[k].prompt.Some?) ==> S(s) in v
    ensures VisQ(S(s)) !in Forget(m, v) || Vis(cfg, u, S(s)) == 0
  {
    if S(s) !in v {
      NoPromptInvisible(cfg, u, S(s), |SymAt(cfg, s).nodes|);
    }
  }

  lemma NumberIs(cfg: Config, u: User, d: set<Query>, s: nat)
    requires Sane(cfg, u) && IntHex(SymAt(cfg, s).typ)
    requires VisQ(S(s)) in d && RangeRead(cfg, u, d, s, 0) && (!NumberRules(cfg, u, s) ==> DefaultStrRead(cfg, u, d, s, 0))
    ensures StrReads(cfg, u, d, s)
    ensures var t, r, dflt := SymAt(cfg, s).typ, ActiveRange(cfg, u, s, 0), DefaultStr(cfg, u, s, 0);
            StrOf(cfg, u, s) ==
            if NumberRules(cfg, u, s) then StrOut(UserText(u.val[s]), !SymAt(cfg, s).isAuto)
            else StrOut(Clamped(cfg, t, if dflt.Some? then dflt.value else "", r),
                        (Vis(cfg, u, S(s)) != 0 || dflt.Some?) && !SymAt(cfg, s).isAuto)
  {
  }

  class Kconfig {
    const cfg: Config
    /** The _dependents sets. */
    const deps: map<Item, set<Item>>
    var user: User
    /** The _cached_* fields of all symbols and choices. */
    var memo: map<Query, Val>
    /** The symbols whose _write_to_conf is true. */
    var writes: set<nat>
    /** The symbols and choices whose _was_set is true. */
    var wasSet: set<Item>

    ghost predicate Valid()
      reads this
    {
      && Ranked(cfg) && ChoicesOk(cfg) && UserOk(cfg, user)
      && (forall j :: j in AllItems(cfg) ==> j in deps && deps[j] == DependentsOf(cfg, j))
      && Coherent(cfg, user, memo, writes)
    }

    constructor (cfg: Config)
      requires Ranked(cfg) && ChoicesOk(cfg)
      ensures Valid() && this.cfg == cfg && user == NOBODY && memo == map[] && wasSet == {}
    {
      this.cfg := cfg;
      this.deps := map j | j in AllItems(cfg) :: DependentsOf(cfg, j);
      user, memo, writes, wasSet := NOBODY, map[], {}, {};
    }

    // Expressions

    method EvalExpr(e: Expr) returns (v: Tri)
      requires Valid()
      modifies this`memo, this`writes
      ensures Valid() && old(memo.Keys) <= memo.Keys
      ensures v == Ev(cfg, user, e) && ExprRead(cfg, user, memo.Keys, e)
      ensures Laws.ValueIs(cfg, user, e, v)
      decreases ExprLevel(cfg, e), 1, Size(e)
    {
      match e
      case Atom(x) => v := LeafValue(x);
      case And(l, r) =>
        v := EvalExpr(l);
        if v != 0 {
          ghost var d := memo.Keys;
          var w := EvalExpr(r);
          GrowExpr(cfg, user, d, memo.Keys, l);
          v := Min(v, w);
        }
      case Or(l, r) =>
        v := EvalExpr(l);
        if v != 2 {
          ghost var d := memo.Keys;
          var w := EvalExpr(r);
          GrowExpr(cfg, user, d, memo.Keys, l);
          v := Max(v, w);
        }
      case Not(e1) =>
        v := EvalExpr(e1);
        v := 2 - v;
      case Rel(op, a, b) =>
        var comp := CompareLeaves(a, b);
        v := if Holds(op, comp) then 2 else 0;
        Laws.RelationLaw(cfg, user, op, a, b);
    }

    method CompareLeaves(a: Leaf, b: Leaf) returns (comp: int)
      requires Valid()
      modifies this`memo, this`writes
      ensures Valid() && old(memo.Keys) <= memo.Keys
      ensures comp == Compare(cfg, user, a, b) && forall op :: ExprRead(cfg, user, memo.Keys, Rel(op, a, b))
      decreases ExprLevel(cfg, Rel(EQUAL, a, b)), 0, 2
    {
      if !BothStrings(cfg, a, b) {
        var x := LeafNumber(a);
        if x.Some? {
          var y := LeafNumber(b);
          if y.Some? {
            return x.value - y.value;
          }
        }
      }
      var s := LeafText(a);
      var t := LeafText(b);
      comp := Strcmp(s, t);
    }

    method LeafValue(x: Leaf) returns (v: Tri)
      requires Valid()
      modifies this`memo, this`writes
      ensures Valid() && old(memo.Keys) <= memo.Keys
      ensures v == LeafTri(cfg, user, x) && LeafRead(cfg, user, memo.Keys, x)
      decreases LeafLevel(cfg, x), 0, 0
    {
      match x
      case Nmy(t) => v := t;
      case Lit(_) => v := 0;
      case Ref(s) => v := TriValue(s);
      case Mode(c) => v := ChoiceMode(c);
    }

    method LeafText(x: Leaf) returns (t: string)
      requires Valid()
      modifies this`memo, this`writes
      ensures Valid() && old(memo.Keys) <= memo.Keys
      ensures t == LeafStr(cfg, user, x) && TextRead(cfg, user, memo.Keys, x)
      decreases LeafLevel(cfg, x), 0, 0
    {
      match x
      case Nmy(v) => t := TriStr(v);
      case Lit(text) => t := text;
      case Ref(s) => t := StrValue(s);
      case Mode(c) => var v := ChoiceMode(c); t := TriStr(v);
    }

    method LeafNumber(x: Leaf) returns (n: Option<int>)
      requires Valid()
      modifies this`memo, this`writes
      ensures Valid() && old(memo.Keys) <= memo.Keys
      ensures n == LeafNum(cfg, user, x) && NumRead(cfg, user, memo.Keys, x)
      decreases LeafLevel(cfg, x), 0, 1
    {
      var t := LeafType(cfg, x);
      if Boolish(t) {
        var v := LeafValue(x);
        n := Some(v);
      } else {
        var text := LeafText(x);
        n := cfg.num.parse(text, Base(t));
      }
    }

    // Types, visibility and modes

    method ModulesOff() returns (off: bool)
      requires Valid()
      modifies this`memo, this`writes
      ensures Valid() && old(memo.Keys) <= memo.Keys
      ensures off == (TriOf(cfg, user, cfg.modules).val == 0) && ModRead(cfg, memo.Keys)
      decreases 8 * Rank(cfg, S(cfg.modules)) + 5, 0, 0
    {
      var m := TriValue(cfg.modules);
      off := m == 0;
    }

    method SymbolType(s: nat) returns (t: SymType)
      requires Valid()
      modifies this`memo, this`writes
      ensures Valid() && old(memo.Keys) <= memo.Keys
      ensures t == SymTypeOf(cfg, user, s) && TypeRead(cfg, user, memo.Keys, s)
      decreases 8 * Rank(cfg, S(s)) + 2, 2, 0
    {
      var d := SymAt(cfg, s);
      assert SymRanked(cfg, s);
      t := d.typ;
      if d.typ == TRISTATE {
        if d.choice.Some? {
          var mode := ChoiceMode(d.choice.value);
          if mode == 2 {
            return BOOL;
          }
        }
        var off := ModulesOff();
        if off {
          t := BOOL;
        }
      }
    }

    method ChoiceType(c: nat) returns (t: SymType)
      requires Valid()
      modifies this`memo, this`writes
      ensures Valid() && old(memo.Keys) <= memo.Keys
      ensures t == ChoiceTypeOf(cfg, user, c) && ChoiceTypeRead(cfg, memo.Keys, c)
      decreases 8 * Rank(cfg, C(c)), 2, 0
    {
      assert ChoiceRanked(cfg, c);
      t := ChoiceAt(cfg, c).typ;
      if t == TRISTATE {
        var off := ModulesOff();
        if off {
          t := BOOL;
        }
      }
    }

    method Visibility(i: Item) returns (v: Tri)
      requires Valid()
      modifies this`memo, this`writes
      ensures Valid() && old(memo.Keys) <= memo.Keys
      ensures v == Vis(cfg, user, i) && VisQ(i) in memo
      decreases VisLevel(cfg, i), 3, 0
    {
      if VisQ(i) in memo {
        assert Current(cfg, user, memo, writes, VisQ(i));
        return memo[VisQ(i)].t;
      }
      v := ComputeVisibility(i);
      Remember(cfg, user, memo, writes, VisQ(i), TriV(v));
      memo := memo[VisQ(i) := TriV(v)];
    }

    method PromptMax(i: Item) returns (v: Tri)
      requires Valid()
      modifies this`memo, this`writes
      ensures Valid() && old(memo.Keys) <= memo.Keys
      ensures v == Prompts(cfg, user, i, |NodesOf(cfg, i)|)
      ensures PromptsRead(cfg, user, memo.Keys, i, |NodesOf(cfg, i)|)
      decreases VisLevel(cfg, i), 2, 0
    {
      v := 0;
      var nodes := NodesOf(cfg, i);
      assert i.S? ==> SymRanked(cfg, i.s);
      assert i.C? ==> ChoiceRanked(cfg, i.c);
      for k := 0 to |nodes|
        invariant Valid() && old(memo.Keys) <= memo.Keys
        invariant v == Prompts(cfg, user, i, k) && PromptsRead(cfg, user, memo.Keys, i, k)
      {
        if nodes[k].prompt.Some? {
          ghost var d := memo.Keys;
          var w := EvalExpr(nodes[k].prompt.value);
          GrowExprs(cfg, user, d, memo.Keys);
          v := Max(v, w);
        }
      }
    }

    method ComputeVisibility(i: Item) returns (v: Tri)
      requires Valid()
      modifies this`memo, this`writes
      ensures Valid() && old(memo.Keys) <= memo.Keys
      ensures v == Vis(cfg, user, i) && VisReads(cfg, user, memo.Keys, i)
      decreases VisLevel(cfg, i), 2, 1
    {
      v := PromptMax(i);
      ghost var d := memo.Keys;
      if i.S? && SymAt(cfg, i.s).choice.Some? {
        var def, c := SymAt(cfg, i.s), SymAt(cfg, i.s).choice.value;
        if ChoiceAt(cfg, c).typ == TRISTATE && def.typ != TRISTATE {
          var mode := ChoiceMode(c);
          GrowExprs(cfg, user, d, memo.Keys);
          if mode != 2 {
            return 0;
          }
        }
        if def.typ == TRISTATE && v == 1 {
          var mode := ChoiceMode(c);
          GrowExprs(cfg, user, d, memo.Keys);
          if mode == 2 {
            return 0;
          }
        }
      }
      if v == 1 {
        var t;
        if i.S? {
          t := SymbolType(i.s);
        } else {
          t := ChoiceType(i.c);
        }
        GrowExprs(cfg, user, d, memo.Keys);
        if t != TRISTATE {
          v := 2;
        }
      }
    }

    method ChoiceMode(c: nat) returns (v: Tri)
      requires Valid()
      modifies this`memo, this`writes
      ensures Valid() && old(memo.Keys) <= memo.Keys
      ensures v == ModeOf(cfg, user, c) && ModeRead(cfg, user, memo.Keys, c)
      decreases 8 * Rank(cfg, C(c)) + 1, 3, 0
    {
      v := if ChoiceAt(cfg, c).optional then 0 else 1;
      if c in user.mode {
        v := Max(v, user.mode[c]);
      }
      var vis := Visibility(C(c));
      v := Min(v, vis);
      if v == 1 {
        var t := ChoiceType(c);
        if t == BOOL {
          v := 2;
        }
      }
    }

    // Choice selections

    method Selection(c: nat) returns (r: Option<nat>)
      requires Valid()
      modifies this`memo, this`writes
      ensures Valid() && old(memo.Keys) <= memo.Keys
      ensures r == SelOf(cfg, user, c) && SelQ(c) in memo
      decreases 8 * Rank(cfg, C(c)) + 3, 3, 0
    {
      if SelQ(c) in memo {
        assert Current(cfg, user, memo, writes, SelQ(c));
        return memo[SelQ(c)].sel;
      }
      r := ComputeSelection(c);
      Remember(cfg, user, memo, writes, SelQ(c), SelV(r));
      memo := memo[SelQ(c) := SelV(r)];
    }

    method ComputeSelection(c: nat) returns (r: Option<nat>)
      requires Valid()
      modifies this`memo, this`writes
      ensures Valid() && old(memo.Keys) <= memo.Keys
      ensures r == SelOf(cfg, user, c) && SelReads(cfg, user, memo.Keys, c)
      decreases 8 * Rank(cfg, C(c)) + 3, 2, |ChoiceAt(cfg, c).defaults| + |ChoiceAt(cfg, c).syms| + 2
    {
      assert ChoiceRanked(cfg, c);
      var mode := ChoiceMode(c);
      if mode != 2 {
        return None;
      }
      if c in user.pick {
        var vis := Visibility(S(user.pick[c]));
        if vis != 0 {
          return Some(user.pick[c]);
        }
      }
      r := SelectionFromDefaults(c);
    }

    method PickApplies(p: Pick) returns (found: bool)
      requires Valid()
      modifies this`memo, this`writes
      ensures Valid() && old(memo.Keys) <= memo.Keys
      ensures found == (Ev(cfg, user, p.cond) != 0 && Vis(cfg, user, S(p.sym)) != 0)
      ensures ExprRead(cfg, user, memo.Keys, p.cond)
      ensures Ev(cfg, user, p.cond) != 0 ==> VisQ(S(p.sym)) in memo
      decreases if ExprLevel(cfg, p.cond) > VisLevel(cfg, S(p.sym)) then ExprLevel(cfg, p.cond) else VisLevel(cfg, S(p.sym)), 4, 0
    {
      var cond := EvalExpr(p.cond);
      found := false;
      if cond != 0 {
        ghost var m1 := memo.Keys;
        var vis := Visibility(S(p.sym));
        GrowExpr(cfg, user, m1, memo.Keys, p.cond);
        found := vis != 0;
      }
    }

    method TryPick(c: nat, k: nat) returns (found: bool)
      requires Valid() && k < |ChoiceAt(cfg, c).defaults| && PicksPassed(cfg, user, memo.Keys, c, k)
      modifies this`memo, this`writes
      ensures Valid() && old(memo.Keys) <= memo.Keys && PicksPassed(cfg, user, memo.Keys, c, k)
      ensures found ==>
                SelDefault(cfg, user, c, k) == Some(ChoiceAt(cfg, c).defaults[k].sym) && SelDefaultRead(cfg, user, memo.Keys, c, k)
      ensures !found ==> PicksPassed(cfg, user, memo.Keys, c, k + 1)
      decreases 8 * Rank(cfg, C(c)) + 3, 2, 0
    {
      ghost var m1 := memo.Keys;
      assert ChoiceRanked(cfg, c);
      found := PickApplies(ChoiceAt(cfg, c).defaults[k]);
      PicksGrow(cfg, user, m1, memo.Keys, c, k);
    }

    /** Also used directly when writing minimal configurations. */
    method SelectionFromDefaults(c: nat) returns (r: Option<nat>)
      requires Valid()
      modifies this`memo, this`writes
      ensures Valid() && old(memo.Keys) <= memo.Keys
      ensures r == SelDefault(cfg, user, c, 0) && SelDefaultRead(cfg, user, memo.Keys, c, 0)
      decreases 8 * Rank(cfg, C(c)) + 3, 2, |ChoiceAt(cfg, c).defaults| + |ChoiceAt(cfg, c).syms| + 1
    {
      var d := ChoiceAt(cfg, c);
      assert ChoiceRanked(cfg, c);
      for k := 0 to |d.defaults|
        invariant Valid() && old(memo.Keys) <= memo.Keys
        invariant PicksPassed(cfg, user, memo.Keys, c, k)
      {
        var found := TryPick(c, k);
        if found {
          JoinPicks(cfg, user, memo.Keys, c, 0, k);
          return Some(d.defaults[k].sym);
        }
      }
      ghost var m1 := memo.Keys;
      r := FirstVisibleSymbol(c);
      PicksGrow(cfg, user, m1, memo.Keys, c, |d.defaults|);
      JoinPicks(cfg, user, memo.Keys, c, 0, |d.defaults|);
    }

    method FirstVisibleSymbol(c: nat) returns (r: Option<nat>)
      requires Valid()
      modifies this`memo, this`writes
      ensures Valid() && old(memo.Keys) <= memo.Keys
      ensures r == FirstVisible(cfg, user, c, 0) && FirstVisibleRead(cfg, user, memo.Keys, c, 0)
      decreases 8 * Rank(cfg, C(c)) + 3, 2, |ChoiceAt(cfg, c).syms|
    {
      var d := ChoiceAt(cfg, c);
      assert ChoiceRanked(cfg, c);
      for k := 0 to |d.syms|
        invariant Valid() && old(memo.Keys) <= memo.Keys
        invariant SymsPassed(cfg, user, memo.Keys, c, k)
      {
        var vis := Visibility(S(d.syms[k]));
        if vis != 0 {
          JoinSyms(cfg, user, memo.Keys, c, 0, k);
          return Some(d.syms[k]);
        }
      }
      r := None;
      JoinSyms(cfg, user, memo.Keys, c, 0, |d.syms|);
    }

    // Symbol values

    method TriValue(s: nat) returns (v: Tri)
      requires Valid()
      modifies this`memo, this`writes
      ensures Valid() && old(memo.Keys) <= memo.Keys
      ensures v == TriOf(cfg, user, s).val && TriQ(s) in memo
      decreases 8 * Rank(cfg, S(s)) + 4, 3, 0
    {
      if TriQ(s) in memo {
        assert Current(cfg, user, memo, writes, TriQ(s));
        return memo[TriQ(s)].t;
      }
      var write := false;
      if !Boolish(SymAt(cfg, s).typ) {
        v := 0;
      } else {
        if SymAt(cfg, s).choice.None? {
          v, write := ComputePlain(s);
        } else {
          v, write := ComputeChoiceSymbol(s);
        }
        SetWrite(s, write);
      }
      Remember(cfg, user, memo, writes, TriQ(s), TriV(v));
      memo := memo[TriQ(s) := TriV(v)];
    }

    method SetWrite(s: nat, write: bool)
      requires Valid() && SymAt(cfg, s).typ != UNKNOWN && write == WriteOf(cfg, user, s)
      modifies this`writes
      ensures Valid() && (s in writes) == write
    {
      ghost var was := writes;
      writes := if write then writes + {s} else writes - {s};
      forall q ensures Current(cfg, user, memo, writes, q) {
        assert Current(cfg, user, memo, was, q);
      }
    }

    method ComputeChoiceSymbol(s: nat) returns (v: Tri, write: bool)
      requires Valid() && Boolish(SymAt(cfg, s).typ) && SymAt(cfg, s).choice.Some?
      modifies this`memo, this`writes
      ensures Valid() && old(memo.Keys) <= memo.Keys
      ensures TriOut(v, write) == TriOf(cfg, user, s) && TriReads(cfg, user, memo.Keys, s)
      decreases 8 * Rank(cfg, S(s)) + 4, 2, 0
    {
      assert SymRanked(cfg, s);
      var vis := Visibility(S(s));
      write := vis != 0;
      v := 0;
      if vis == 2 {
        var sel := Selection(SymAt(cfg, s).choice.value);
        v := if sel == Some(s) then 2 else 0;
      } else if vis != 0 && s in user.val && UserTri(user.val[s]) != 0 {
        v := 1;
      }
    }

    /** The condition of default k, after those before it have turned out not to apply. */
    method DefaultCond(s: nat, k: nat) returns (cond: Tri)
      requires Valid() && k < |SymAt(cfg, s).defaults| && DefaultsPassed(cfg, user, memo.Keys, s, k)
      modifies this`memo, this`writes
      ensures Valid() && old(memo.Keys) <= memo.Keys && DefaultsPassed(cfg, user, memo.Keys, s, k)
      ensures cond == Ev(cfg, user, SymAt(cfg, s).defaults[k].cond)
      ensures ExprRead(cfg, user, memo.Keys, SymAt(cfg, s).defaults[k].cond)
      ensures cond == 0 ==> DefaultsPassed(cfg, user, memo.Keys, s, k + 1)
      decreases 8 * Rank(cfg, S(s)) + 3, 0, 0
    {
      ghost var m1 := memo.Keys;
      assert SymRanked(cfg, s);
      cond := EvalExpr(SymAt(cfg, s).defaults[k].cond);
      DefaultsGrow(cfg, user, m1, memo.Keys, s, k);
    }

    method FirstDefaultTri(s: nat) returns (v: Tri)
      requires Valid()
      modifies this`memo, this`writes
      ensures Valid() && old(memo.Keys) <= memo.Keys
      ensures v == DefaultTri(cfg, user, s, 0) && DefaultTriRead(cfg, user, memo.Keys, s, 0)
      decreases 8 * Rank(cfg, S(s)) + 4, 2, 0
    {
      var d := SymAt(cfg, s);
      assert SymRanked(cfg, s);
      for k := 0 to |d.defaults|
        invariant Valid() && old(memo.Keys) <= memo.Keys
        invariant DefaultsPassed(cfg, user, memo.Keys, s, k)
      {
        var cond := DefaultCond(s, k);
        if cond != 0 {
          ghost var m2 := memo.Keys;
          v := EvalExpr(d.defaults[k].value);
          DefaultsGrow(cfg, user, m2, memo.Keys, s, k);
          GrowExpr(cfg, user, m2, memo.Keys, d.defaults[k].cond);
          JoinDefaults(cfg, user, memo.Keys, s, 0, k);
          return Min(v, cond);
        }
      }
      v := 0;
      JoinDefaults(cfg, user, memo.Keys, s, 0, |d.defaults|);
    }

    method ComputeWanted(s: nat, vis: Tri) returns (v: Tri, write: bool)
      requires Valid() && Boolish(SymAt(cfg, s).typ) && SymAt(cfg, s).choice.None?
      requires vis == Vis(cfg, user, S(s)) && VisQ(S(s)) in memo
      modifies this`memo, this`writes
      ensures Valid() && old(memo.Keys) <= memo.Keys && VisQ(S(s)) in memo
      ensures TriOut(v, write) == Wanted(cfg, user, s)
      ensures WantedReads(cfg, user, memo.Keys, s)
      decreases 8 * Rank(cfg, S(s)) + 4, 2, 1
    {
      var d := SymAt(cfg, s);
      assert SymRanked(cfg, s);
      if vis != 0 && s in user.val {
        return Min(UserTri(user.val[s]), vis), true;
      }
      v := FirstDefaultTri(s);
      write := vis != 0 || v != 0;
      ghost var m1 := memo.Keys;
      var weak := EvalExpr(d.weakRevDep);
      ghost var m2 := memo.Keys;
      GrowDefaultTri(cfg, user, m1, m2, s, 0);
      if weak != 0 {
        var direct := EvalExpr(d.directDep);
        GrowDefaultTri(cfg, user, m2, memo.Keys, s, 0);
        GrowExpr(cfg, user, m2, memo.Keys, d.weakRevDep);
        if direct != 0 {
          v, write := Max(weak, v), true;
        }
      }
    }

    method ComputePlain(s: nat) returns (v: Tri, write: bool)
      requires Valid() && Boolish(SymAt(cfg, s).typ) && SymAt(cfg, s).choice.None?
      modifies this`memo, this`writes
      ensures Valid() && old(memo.Keys) <= memo.Keys
      ensures TriOut(v, write) == TriOf(cfg, user, s) && TriReads(cfg, user, memo.Keys, s)
      decreases 8 * Rank(cfg, S(s)) + 4, 2, 2
    {
      assert SymRanked(cfg, s);
      var vis := Visibility(S(s));
      v, write := ComputeWanted(s, vis);
      ghost var m1 := memo.Keys;
      var rev := EvalExpr(SymAt(cfg, s).revDep);
      ghost var m2 := memo.Keys;
      if rev != 0 {
        v, write := Max(rev, v), true;
      }
      assert v == Max(rev, Wanted(cfg, user, s).val);
      v := Promote(s, v);
      GrowPlain(cfg, user, m1, m2, memo.Keys, s);
    }

    method Promote(s: nat, val: Tri) returns (v: Tri)
      requires Valid()
      modifies this`memo, this`writes
      ensures Valid() && old(memo.Keys) <= memo.Keys
      ensures v == Promoted(cfg, user, s, val) && PromotedReads(cfg, user, memo.Keys, s, val)
      decreases 8 * Rank(cfg, S(s)) + 4, 2, 1
    {
      assert SymRanked(cfg, s);
      v := val;
      if v == 1 {
        var t := SymbolType(s);
        if t == BOOL {
          return 2;
        }
        var weak := EvalExpr(SymAt(cfg, s).weakRevDep);
        if weak == 2 {
          v := 2;
        }
      }
    }

    /** The condition of range k, after those before it have turned out not to apply. */
    method RangeCond(s: nat, k: nat) returns (cond: Tri)
      requires Valid() && k < |SymAt(cfg, s).ranges| && RangesPassed(cfg, user, memo.Keys, s, k)
      modifies this`memo, this`writes
      ensures Valid() && old(memo.Keys) <= memo.Keys && RangesPassed(cfg, user, memo.Keys, s, k)
      ensures cond == Ev(cfg, user, SymAt(cfg, s).ranges[k].cond)
      ensures ExprRead(cfg, user, memo.Keys, SymAt(cfg, s).ranges[k].cond)
      ensures cond == 0 ==> RangesPassed(cfg, user, memo.Keys, s, k + 1)
      decreases 8 * Rank(cfg, S(s)) + 3, 0, 0
    {
      ghost var m1 := memo.Keys;
      assert SymRanked(cfg, s);
      cond := EvalExpr(SymAt(cfg, s).ranges[k].cond);
      RangesGrow(cfg, user, m1, memo.Keys, s, k);
    }

    method ActiveBounds(s: nat) returns (r: Option<Bounds>)
      requires Valid()
      modifies this`memo, this`writes
      ensures Valid() && old(memo.Keys) <= memo.Keys
      ensures r == ActiveRange(cfg, user, s, 0) && RangeRead(cfg, user, memo.Keys, s, 0)
      decreases 8 * Rank(cfg, S(s)) + 5, 2, 0
    {
      var d := SymAt(cfg, s);
      assert SymRanked(cfg, s);
      for k := 0 to |d.ranges|
        invariant Valid() && old(memo.Keys) <= memo.Keys
        invariant RangesPassed(cfg, user, memo.Keys, s, k)
      {
        var cond := RangeCond(s, k);
        if cond != 0 {
          ghost var m2 := memo.Keys;
          var low, high := RangeEnds(d.ranges[k]);
          RangesGrow(cfg, user, m2, memo.Keys, s, k);
          GrowExpr(cfg, user, m2, memo.Keys, d.ranges[k].cond);
          JoinRanges(cfg, user, memo.Keys, s, 0, k);
          return Some(Bounds(NumOr0(cfg, low, Base(d.typ)), NumOr0(cfg, high, Base(d.typ))));
        }
      }
      r := None;
      JoinRanges(cfg, user, memo.Keys, s, 0, |d.ranges|);
    }

    method RangeEnds(r: Range) returns (low: string, high: string)
      requires Valid()
      modifies this`memo, this`writes
      ensures Valid() && old(memo.Keys) <= memo.Keys
      ensures low == LeafStr(cfg, user, r.low) && high == LeafStr(cfg, user, r.high)
      ensures TextRead(cfg, user, memo.Keys, r.low) && TextRead(cfg, user, memo.Keys, r.high)
      decreases ExprLevel(cfg, Rel(EQUAL, r.low, r.high)), 0, 1
    {
      low := LeafText(r.low);
      high := LeafText(r.high);
    }

    method FirstDefaultStr(s: nat) returns (r: Option<string>)
      requires Valid()
      modifies this`memo, this`writes
      ensures Valid() && old(memo.Keys) <= memo.Keys
      ensures r == DefaultStr(cfg, user, s, 0) && DefaultStrRead(cfg, user, memo.Keys, s, 0)
      decreases 8 * Rank(cfg, S(s)) + 5, 2, 0
    {
      var d := SymAt(cfg, s);
      assert SymRanked(cfg, s);
      for k := 0 to |d.defaults|
        invariant Valid() && old(memo.Keys) <= memo.Keys
        invariant DefaultsPassed(cfg, user, memo.Keys, s, k)
      {
        var cond := DefaultCond(s, k);
        if cond != 0 {
          ghost var m2 := memo.Keys;
          var text := LeafText(DefaultLeaf(d.defaults[k].value));
          DefaultsGrow(cfg, user, m2, memo.Keys, s, k);
          GrowExpr(cfg, user, m2, memo.Keys, d.defaults[k].cond);
          JoinDefaults(cfg, user, memo.Keys, s, 0, k);
          return Some(text);
        }
      }
      r := None;
      JoinDefaults(cfg, user, memo.Keys, s, 0, |d.defaults|);
    }

    method ComputeNumber(s: nat) returns (v: string, write: bool)
      requires Valid() && IntHex(SymAt(cfg, s).typ)
      modifies this`memo, this`writes
      ensures Valid() && old(memo.Keys) <= memo.Keys
      ensures StrOut(v, write && !SymAt(cfg, s).isAuto) == StrOf(cfg, user, s) && StrReads(cfg, user, memo.Keys, s)
      decreases 8 * Rank(cfg, S(s)) + 5, 2, 2
    {
      var vis := Visibility(S(s));
      var r := ActiveBounds(s);
      ghost var m1 := memo.Keys;
      var rules := UserNumberRules(s, vis, r);
      if rules {
        v, write := UserText(user.val[s]), true;
      } else {
        v, write := DefaultNumber(s, r, vis != 0);
      }
      GrowRange(cfg, user, m1, memo.Keys, s, 0);
      NumberIs(cfg, user, memo.Keys, s);
    }

    /** Whether the user value of an int or hex symbol counts. */
    method UserNumberRules(s: nat, vis: Tri, r: Option<Bounds>) returns (rules: bool)
      requires Valid() && vis == Vis(cfg, user, S(s)) && r == ActiveRange(cfg, user, s, 0)
      ensures rules == NumberRules(cfg, user, s)
    {
      rules := false;
      if vis != 0 && s in user.val && UserText(user.val[s]) != "" {
        var n := NumOr0(cfg, UserText(user.val[s]), Base(SymAt(cfg, s).typ));
        rules := !(r.Some? && !(r.value.low <= n <= r.value.high));
      }
    }

    /** The default of an int or hex symbol, clamped into its active range. */
    method DefaultNumber(s: nat, r: Option<Bounds>, visible: bool) returns (v: string, write: bool)
      requires Valid()
      modifies this`memo, this`writes
      ensures Valid() && old(memo.Keys) <= memo.Keys && DefaultStrRead(cfg, user, memo.Keys, s, 0)
      ensures var dflt := DefaultStr(cfg, user, s, 0);
              && v == Clamped(cfg, SymAt(cfg, s).typ, if dflt.Some? then dflt.value else "", r)
              && write == (visible || dflt.Some?)
      decreases 8 * Rank(cfg, S(s)) + 5, 2, 1
    {
      var dflt := FirstDefaultStr(s);
      v, write := "", visible;
      if dflt.Some? {
        v, write := dflt.value, true;
      }
      v := Clamped(cfg, SymAt(cfg, s).typ, v, r);
    }

    method ComputeText(s: nat) returns (v: string, write: bool)
      requires Valid() && Textual(SymAt(cfg, s).typ)
      modifies this`memo, this`writes
      ensures Valid() && old(memo.Keys) <= memo.Keys
      ensures StrOut(v, write && !SymAt(cfg, s).isAuto) == StrOf(cfg, user, s) && StrReads(cfg, user, memo.Keys, s)
      decreases 8 * Rank(cfg, S(s)) + 5, 2, 1
    {
      var vis := Visibility(S(s));
      write := vis != 0;
      if vis != 0 && s in user.val {
        v := UserText(user.val[s]);
      } else {
        var dflt := FirstDefaultStr(s);
        v := "";
        if dflt.Some? {
          v, write := dflt.value, true;
        }
      }
    }

    method StrValue(s: nat) returns (v: string)
      requires Valid()
      modifies this`memo, this`writes
      ensures Valid() && old(memo.Keys) <= memo.Keys
      ensures v == StrOf(cfg, user, s).val && StrQ(s) in memo
      decreases 8 * Rank(cfg, S(s)) + 5, 3, 0
    {
      var d := SymAt(cfg, s);
      assert SymRanked(cfg, s);
      if StrQ(s) in memo {
        assert Current(cfg, user, memo, writes, StrQ(s));
        return memo[StrQ(s)].str;
      }
      if Boolish(d.typ) {
        var t := TriValue(s);
        v := TriStr(t);
        assert Current(cfg, user, memo, writes, TriQ(s));
      } else if d.typ == UNKNOWN {
        v := d.name;
      } else {
        var write;
        if IntHex(d.typ) {
          v, write := ComputeNumber(s);
        } else {
          v, write := ComputeText(s);
        }
        SetWrite(s, write && !d.isAuto);
      }
      Remember(cfg, user, memo, writes, StrQ(s), StrV(v));
      memo := memo[StrQ(s) := StrV(v)];
    }

    method Assignable(i: Item) returns (vals: seq<Tri>)
      requires Valid()
      modifies this`memo, this`writes
      ensures Valid() && old(memo.Keys) <= memo.Keys
      ensures vals == AsgOf(cfg, user, i)
    {
      if AsgQ(i) in memo {
        assert Current(cfg, user, memo, writes, AsgQ(i));
        return memo[AsgQ(i)].vals;
      }
      if i.S? {
        vals := ComputeSymAssignable(i.s);
      } else {
        vals := ComputeChoiceAssignable(i.c);
      }
      Remember(cfg, user, memo, writes, AsgQ(i), AsgV(vals));
      memo := memo[AsgQ(i) := AsgV(vals)];
    }

    method ComputeSymAssignable(s: nat) returns (vals: seq<Tri>)
      requires Valid()
      modifies this`memo, this`writes
      ensures Valid() && old(memo.Keys) <= memo.Keys
      ensures vals == AsgOf(cfg, user, S(s)) && AsgReads(cfg, user, memo.Keys, S(s))
    {
      var d := SymAt(cfg, s);
      if !Boolish(d.typ) {
        return [];
      }
      var vis := Visibility(S(s));
      if vis == 0 {
        return [];
      }
      var rev := EvalExpr(d.revDep);
      ghost var m1 := memo.Keys;
      if vis == 2 {
        if d.choice.Some? || rev == 2 {
          return [2];
        }
        var two := Promote(s, 1);
        GrowExpr(cfg, user, m1, memo.Keys, d.revDep);
        return if rev == 0 then (if two == 2 then [0, 2] else [0, 1, 2]) else (if two == 2 then [2] else [1, 2]);
      }
      if rev == 0 {
        var weak := EvalExpr(d.weakRevDep);
        GrowExpr(cfg, user, m1, memo.Keys, d.revDep);
        return if weak != 2 then [0, 1] else [0, 2];
      }
      vals := if rev == 2 then [2] else [1];
    }

    method ComputeChoiceAssignable(c: nat) returns (vals: seq<Tri>)
      requires Valid()
      modifies this`memo, this`writes
      ensures Valid() && old(memo.Keys) <= memo.Keys
      ensures vals == AsgOf(cfg, user, C(c)) && AsgReads(cfg, user, memo.Keys, C(c))
    {
      var d := ChoiceAt(cfg, c);
      var vis := Visibility(C(c));
      if vis == 0 {
        return [];
      }
      if vis == 2 {
        var t := ChoiceType(c);
        if !d.optional {
          return if t == BOOL then [2] else [1, 2];
        }
        return if t == BOOL then [0, 2] else [0, 1, 2];
      }
      vals := if d.optional then [0, 1] else [1];
    }

    // Invalidation

    /** Clears item i and whatever depends on it, directly or not, as far as it has cached values. v collects the
        cleared items: no more than any set closed under dependents that contains i. */
    method RecInvalidate(i: Item) returns (ghost v: set<Item>)
      requires i in AllItems(cfg)
      requires forall j :: j in AllItems(cfg) ==> j in deps && deps[j] == DependentsOf(cfg, j)
      modifies this`memo
      ensures memo == Forget(old(memo), v) && i in v && Invalidated(cfg, v, memo)
      ensures forall w :: i in w && DepClosed(cfg, w) ==> v <= w
      decreases VisCached(memo), VisQ(i) !in memo
    {
      if i == S(cfg.modules) {
        v := AllItems(cfg);
        memo := Forget(memo, AllItems(cfg));
        return;
      }
      v := {i};
      ghost var start := memo;
      memo := Forget(memo, {i});
      var todo := deps[i];
      while todo != {}
        invariant todo <= DependentsOf(cfg, i)
        invariant memo == Forget(start, v) && i in v && v <= AllItems(cfg)
        invariant forall k :: k in DependentsOf(cfg, i) && k !in todo ==> VisQ(k) !in memo
        invariant forall j, k :: j in v && j != i && k in DependentsOf(cfg, j) ==> VisQ(k) !in memo
        invariant S(cfg.modules) in v ==> AllItems(cfg) <= v
        invariant forall w :: i in w && DepClosed(cfg, w) ==> v <= w
      {
        var k :| k in todo;
        todo := todo - {k};
        if VisQ(k) in memo {
          VisShrinks(start, v, i);
          ghost var v1 := RecInvalidate(k);
          ForgetTwice(start, v, v1);
          v := v + v1;
        }
      }
    }

    method RecInvalidateIfHasPrompt(s: nat) returns (ghost v: set<Item>)
      requires s < |cfg.syms|
      requires forall j :: j in AllItems(cfg) ==> j in deps && deps[j] == DependentsOf(cfg, j)
      modifies this`memo
      ensures memo == Forget(old(memo), v) && Invalidated(cfg, v, memo)
      ensures forall w :: S(s) in w && DepClosed(cfg, w) ==> v <= w
      ensures (exists k :: 0 <= k < |SymAt(cfg, s).nodes| && SymAt(cfg, s).nodes[k].prompt.Some?) ==> S(s) in v
    {
      var nodes := SymAt(cfg, s).nodes;
      for k := 0 to |nodes|
        invariant memo == old(memo)
        invariant forall j :: 0 <= j < k ==> nodes[j].prompt.None?
      {
        if nodes[k].prompt.Some? {
          v := RecInvalidate(S(s));
          return;
        }
      }
      v := {};
      assert memo == Forget(memo, {});
    }

    // Assigning user values

    method SetValue(s: nat, value: UserVal) returns (ok: bool)
      requires Valid() && s < |cfg.syms|
      modifies this
      ensures Valid() && user == SetSym(cfg, old(user), s, value) && ok == Takes(cfg, old(user), s, value)
      ensures wasSet == old(wasSet) +
                        if !ok then {}
                        else if SymAt(cfg, s).choice.Some? && Coerce(SymAt(cfg, s).typ, value) == TriVal(2)
                        then {S(s), C(SymAt(cfg, s).choice.value)} else {S(s)}
    {
      var d := SymAt(cfg, s);
      var w := Coerce(d.typ, value);
      if s in user.val && user.val[s] == w && d.choice.None? {
        wasSet := wasSet + {S(s)};
        return true;
      }
      if !Acceptable(cfg, d.typ, w) {
        return false;
      }
      ok := true;
      ghost var u := user;
      user := user.(val := user.val[s := w]);
      wasSet := wasSet + {S(s)};
      if d.choice.Some? && w == TriVal(2) {
        user := user.(pick := user.pick[d.choice.value := s]);
        wasSet := wasSet + {C(d.choice.value)};
      }
      InvalidateAssigned(s, d.choice.Some? && w == TriVal(2), u, value);
    }

    /** The end of set_value(): clears what the new value, or the new selection of the choice, affects. */
    method InvalidateAssigned(s: nat, selected: bool, ghost u: User, ghost value: UserVal)
      requires s < |cfg.syms| && Ranked(cfg) && ChoicesOk(cfg) && UserOk(cfg, u) && Coherent(cfg, u, memo, writes)
      requires forall j :: j in AllItems(cfg) ==> j in deps && deps[j] == DependentsOf(cfg, j)
      requires Takes(cfg, u, s, value) && user == SetSym(cfg, u, s, value)
      requires selected == (SymAt(cfg, s).choice.Some? && Coerce(SymAt(cfg, s).typ, value) == TriVal(2))
      modifies this`memo
      ensures Valid()
    {
      ghost var m := memo;
      ghost var v;
      if selected {
        assert ChoiceSymOk(cfg, s);
        v := RecInvalidate(C(SymAt(cfg, s).choice.value));
        ChoiceCovers(cfg, u, v, memo, s);
      } else {
        v := RecInvalidateIfHasPrompt(s);
        PromptCovers(cfg, u, v, m, s);
      }
      AssignmentUnseen(cfg, u, s, value, memo);
      InvalidationSound(cfg, u, user, m, writes, v);
    }

    method UnsetValue(s: nat)
      requires Valid() && s < |cfg.syms|
      modifies this`user, this`memo
      ensures Valid() && user == UnsetSym(old(user), s)
    {
      if s in user.val {
        ghost var u, m := user, memo;
        user := user.(val := user.val - {s});
        ghost var v := RecInvalidateIfHasPrompt(s);
        PromptCovers(cfg, u, v, m, s);
        InvalidationSound(cfg, u, user, m, writes, v);
      } else {
        assert user.val - {s} == user.val;
      }
    }

    method SetChoiceMode(c: nat, value: Tri) returns (ok: bool)
      requires Valid() && c < |cfg.choices|
      modifies this
      ensures Valid() && user == SetMode(cfg, old(user), c, value) && ok == TakesMode(cfg, old(user), c, value)
      ensures wasSet == old(wasSet) + if ok then {C(c)} else {}
    {
      if c in user.mode && user.mode[c] == value {
        assert user.mode[c := value] == user.mode;
        wasSet := wasSet + {C(c)};
        return true;
      }
      if !AcceptableMode(ChoiceAt(cfg, c).typ, value) {
        return false;
      }
      ok := true;
      ghost var u, m := user, memo;
      user := user.(mode := user.mode[c := value]);
      wasSet := wasSet + {C(c)};
      ghost var v := RecInvalidate(C(c));
      InvalidationSound(cfg, u, user, m, writes, v);
    }

    method UnsetChoiceValue(c: nat)
      requires Valid() && c < |cfg.choices|
      modifies this`user, this`memo
      ensures Valid() && user == UnsetChoice(old(user), c)
    {
      if c in user.mode || c in user.pick {
        ghost var u, m := user, memo;
        user := user.(mode := user.mode - {c}, pick := user.pick - {c});
        ghost var v := RecInvalidate(C(c));
        InvalidationSound(cfg, u, user, m, writes, v);
      } else {
        NothingToUnset(user, c);
      }
    }
  }

  lemma NothingToUnset(u: User, c: nat)
    requires c !in u.mode && c !in u.pick
    ensures UnsetChoice(u, c) == u
  {
    assert u.mode - {c} == u.mode && u.pick - {c} == u.pick;
  }
}
