/** Loading .config files: the effect of a sequence of lines on the user values. */
module Loading {
  import opened KconfigLang
  import opened Evaluation
  import opened Choices
  import opened UserState
  import opened DotText

  /** An assignment that survived the checks made while loading: symbol s gets the given text. */
  datatype Assignment = Assignment(s: nat, text: string)

  /** Names are distinct, and every symbol has at least one menu node. */
  ghost predicate NamesOk(cfg: Config) {
    && (forall s :: 0 <= s < |cfg.syms| ==> IsSymName(cfg.syms[s].name) && cfg.syms[s].name != [] && cfg.syms[s].nodes != [])
    && (forall s, t :: 0 <= s < t < |cfg.syms| ==> cfg.syms[s].name != cfg.syms[t].name)
  }

  function Lookup(cfg: Config, name: string, k: nat): Option<nat>
    requires k <= |cfg.syms|
    decreases |cfg.syms| - k
  {
    if k == |cfg.syms| then None
    else if cfg.syms[k].name == name && cfg.syms[k].nodes != [] then Some(k)
    else Lookup(cfg, name, k + 1)
  }

  /** The text to assign for the right-hand side val of an assignment to a symbol of type t. */
  function DecodeValue(t: SymType, val: string): Option<string> {
    match t
    case BOOL => if val != [] && (val[0] == 'y' || val[0] == 'n') then Some([val[0]]) else None
    case TRISTATE => if val != [] && (val[0] == 'y' || val[0] == 'm' || val[0] == 'n') then Some([val[0]]) else None
    case STRING => var q := StringLiteral(val); if q.Some? then Some(Unescape(q.value)) else None
    case KEY => Some(Unescape(NamePrefix(val)))
    case _ => Some(val)
  }

  function Decode(cfg: Config, raw: string): Option<Assignment> {
    match ParseLine(raw)
    case SetLine(name, val) =>
      (match Lookup(cfg, name, 0)
       case None => None
       case Some(s) =>
         var text := DecodeValue(SymAt(cfg, s).typ, val);
         if text.Some? then Some(Assignment(s, text.value)) else None)
    case UnsetLine(name) =>
      (match Lookup(cfg, name, 0)
       case None => None
       case Some(s) => if Boolish(SymAt(cfg, s).typ) then Some(Assignment(s, "n")) else None)
    case Other => None
  }

  /** The user values while loading, with the symbols and choices that have been set. */
  datatype Loaded = Loaded(user: User, was: set<Item>)

  /** y and m assigned to a choice symbol also set the mode of its choice. */
  function ApplyMode(cfg: Config, st: Loaded, s: nat, text: string): Loaded {
    var d := SymAt(cfg, s);
    if Boolish(d.typ) && d.choice.Some? && text != "n" && TakesMode(cfg, st.user, d.choice.value, TriOfText(text))
    then Loaded(SetMode(cfg, st.user, d.choice.value, TriOfText(text)), st.was + {C(d.choice.value)})
    else st
  }

  /** The symbols and choices that set_value() marks as set. */
  function Marks(cfg: Config, s: nat, value: UserVal): set<Item> {
    if SymAt(cfg, s).choice.Some? && Coerce(SymAt(cfg, s).typ, value) == TriVal(2)
    then {S(s), C(SymAt(cfg, s).choice.value)} else {S(s)}
  }

  function ApplyValue(cfg: Config, st: Loaded, s: nat, text: string): Loaded {
    if Takes(cfg, st.user, s, Text(text))
    then Loaded(SetSym(cfg, st.user, s, Text(text)), st.was + Marks(cfg, s, Text(text)))
    else st
  }

  function Apply(cfg: Config, st: Loaded, a: Assignment): Loaded {
    ApplyValue(cfg, ApplyMode(cfg, st, a.s, a.text), a.s, a.text)
  }

  function LoadLine(cfg: Config, st: Loaded, raw: string): Loaded {
    match Decode(cfg, raw)
    case None => st
    case Some(a) => Apply(cfg, st, a)
  }

  /** Merging a file into the current user values. */
  function LoadLines(cfg: Config, st: Loaded, lines: seq<string>): Loaded {
    if lines == [] then st
    else LoadLine(cfg, LoadLines(cfg, st, lines[..|lines| - 1]), lines[|lines| - 1])
  }

  /** What is left of the user values once everything not in was has been unset. */
  function KeepSet(st: Loaded): User {
    User(map s | s in st.user.val && S(s) in st.was :: st.user.val[s],
         map c | c in st.user.mode && C(c) in st.was :: st.user.mode[c],
         map c | c in st.user.pick && C(c) in st.was :: st.user.pick[c])
  }

  /** Replacing the current user values by those in a file. */
  function LoadReplace(cfg: Config, u: User, lines: seq<string>): User {
    KeepSet(LoadLines(cfg, Loaded(u, {}), lines))
  }

  lemma LookupFinds(cfg: Config, s: nat, k: nat)
    requires NamesOk(cfg) && k <= s < |cfg.syms|
    ensures Lookup(cfg, cfg.syms[s].name, k) == Some(s)
    decreases s - k
  {
  }

  lemma LookupInRange(cfg: Config, name: string, k: nat)
    requires k <= |cfg.syms|
    ensures Lookup(cfg, name, k).Some? ==> Lookup(cfg, name, k).value < |cfg.syms|
    decreases |cfg.syms| - k
  {
  }

  lemma DecodeInRange(cfg: Config, raw: string)
    ensures Decode(cfg, raw).Some? ==> Decode(cfg, raw).value.s < |cfg.syms|
  {
    match ParseLine(raw)
    case SetLine(name, _) => LookupInRange(cfg, name, 0);
    case UnsetLine(name) => LookupInRange(cfg, name, 0);
    case Other =>
  }

  lemma ApplyOk(cfg: Config, st: Loaded, a: Assignment)
    requires UserOk(cfg, st.user) && a.s < |cfg.syms|
    ensures UserOk(cfg, Apply(cfg, st, a).user)
  {
    assert UserOk(cfg, ApplyMode(cfg, st, a.s, a.text).user);
  }

  lemma LoadLineOk(cfg: Config, st: Loaded, raw: string)
    requires UserOk(cfg, st.user)
    ensures UserOk(cfg, LoadLine(cfg, st, raw).user)
  {
    DecodeInRange(cfg, raw);
    if Decode(cfg, raw).Some? { ApplyOk(cfg, st, Decode(cfg, raw).value); }
  }

  lemma {:induction false} LoadLinesOk(cfg: Config, st: Loaded, lines: seq<string>)
    requires UserOk(cfg, st.user)
    ensures UserOk(cfg, LoadLines(cfg, st, lines).user)
  {
    if lines != [] {
      LoadLinesOk(cfg, st, lines[..|lines| - 1]);
      LoadLineOk(cfg, LoadLines(cfg, st, lines[..|lines| - 1]), lines[|lines| - 1]);
    }
  }

  // History independence

  /** Some line assigns text to a symbol of choice c, and the choice accepts the mode. */
  ghost predicate AssignsIn(cfg: Config, lines: seq<string>, c: nat, text: string) {
    exists k :: 0 <= k < |lines| && AssignsHere(cfg, lines[k], c, text)
  }

  ghost predicate AssignsHere(cfg: Config, raw: string, c: nat, text: string) {
    Decode(cfg, raw).Some? && AssignsTo(cfg, Decode(cfg, raw).value, c, text)
  }

  ghost predicate AssignsTo(cfg: Config, a: Assignment, c: nat, text: string) {
    && a.text == text && Boolish(SymAt(cfg, a.s).typ) && SymAt(cfg, a.s).choice == Some(c)
    && IsTriText(text) && AcceptableMode(ChoiceAt(cfg, c).typ, TriOfText(text))
  }

  /** What decoding a line guarantees. */
  predicate AssignmentOk(cfg: Config, a: Assignment) {
    a.s < |cfg.syms| && (Boolish(SymAt(cfg, a.s).typ) ==> IsTriText(a.text))
  }

  /** Two runs of the same lines, from different user values, agree on everything they have set; a user
      selection is only known to agree once the lines so far have assigned y in its choice. */
  ghost predicate Agree(cfg: Config, st: Loaded, st': Loaded, lines: seq<string>) {
    (forall s: nat :: AgreeSym(st, st', s)) && (forall c: nat :: AgreeChoice(cfg, st, st', lines, c))
  }

  ghost predicate AgreeSym(st: Loaded, st': Loaded, s: nat) {
    && (S(s) in st.was <==> S(s) in st'.was)
    && (S(s) in st.was ==> s in st.user.val && s in st'.user.val && st.user.val[s] == st'.user.val[s])
  }

  ghost predicate AgreeChoice(cfg: Config, st: Loaded, st': Loaded, lines: seq<string>, c: nat) {
    && (C(c) in st.was <==> C(c) in st'.was)
    && (C(c) in st.was ==>
          && (AssignsIn(cfg, lines, c, "m") || AssignsIn(cfg, lines, c, "y"))
          && c in st.user.mode && c in st'.user.mode && st.user.mode[c] == st'.user.mode[c])
    && (AssignsIn(cfg, lines, c, "y") ==>
          c in st.user.pick && c in st'.user.pick && st.user.pick[c] == st'.user.pick[c])
  }

  lemma DecodeOk(cfg: Config, raw: string)
    ensures Decode(cfg, raw).Some? ==> AssignmentOk(cfg, Decode(cfg, raw).value)
  {
    DecodeInRange(cfg, raw);
  }

  lemma AssignsSplit(cfg: Config, lines: seq<string>, c: nat, text: string)
    requires lines != []
    ensures AssignsIn(cfg, lines, c, text) <==>
              AssignsIn(cfg, lines[..|lines| - 1], c, text) || AssignsHere(cfg, lines[|lines| - 1], c, text)
  {
    var init, last := lines[..|lines| - 1], lines[|lines| - 1];
    if AssignsIn(cfg, init, c, text) {
      var k :| 0 <= k < |init| && AssignsHere(cfg, init[k], c, text);
      assert AssignsHere(cfg, lines[k], c, text);
    }
    if AssignsIn(cfg, lines, c, text) {
      var k :| 0 <= k < |lines| && AssignsHere(cfg, lines[k], c, text);
      if k < |init| { assert AssignsHere(cfg, init[k], c, text); }
    }
  }

  /** What one assignment does, on any valid user state: it stores the value and marks the symbol, and for
      choices stores the mode and the selection. */
  lemma ApplyEffect(cfg: Config, st: Loaded, a: Assignment, c: nat)
    requires ChoicesOk(cfg) && UserOk(cfg, st.user) && AssignmentOk(cfg, a)
    ensures var st' := Apply(cfg, st, a);
            var y, m := AssignsTo(cfg, a, c, "y"), AssignsTo(cfg, a, c, "m");
            && (C(c) in st'.was <==> C(c) in st.was || y || m)
            && (if y || m then c in st'.user.mode && st'.user.mode[c] == (if y then 2 else 1)
                else (c in st'.user.mode) == (c in st.user.mode) && (c in st.user.mode ==> st'.user.mode[c] == st.user.mode[c]))
            && (if y then c in st'.user.pick && st'.user.pick[c] == a.s
                else (c in st'.user.pick) == (c in st.user.pick) && (c in st.user.pick ==> st'.user.pick[c] == st.user.pick[c]))
  {
    assert ChoiceSymOk(cfg, a.s);
  }

  lemma ApplySymEffect(cfg: Config, st: Loaded, a: Assignment, s: nat)
    requires UserOk(cfg, st.user)
    ensures var v := Coerce(SymAt(cfg, a.s).typ, Text(a.text));
            var st' := Apply(cfg, st, a);
            if s == a.s && Acceptable(cfg, SymAt(cfg, s).typ, v)
            then S(s) in st'.was && s in st'.user.val && st'.user.val[s] == v
            else
              && (S(s) in st'.was <==> S(s) in st.was)
              && (s in st'.user.val) == (s in st.user.val) && (s in st.user.val ==> st'.user.val[s] == st.user.val[s])
  {
  }

  lemma {:induction false} LoadsAgree(cfg: Config, u: User, u': User, lines: seq<string>)
    requires ChoicesOk(cfg) && UserOk(cfg, u) && UserOk(cfg, u')
    ensures Agree(cfg, LoadLines(cfg, Loaded(u, {}), lines), LoadLines(cfg, Loaded(u', {}), lines), lines)
  {
    if lines != [] {
      var init, last := lines[..|lines| - 1], lines[|lines| - 1];
      LoadsAgree(cfg, u, u', init);
      LoadLinesOk(cfg, Loaded(u, {}), init);
      LoadLinesOk(cfg, Loaded(u', {}), init);
      AgreeStep(cfg, LoadLines(cfg, Loaded(u, {}), init), LoadLines(cfg, Loaded(u', {}), init), lines);
    }
  }

  lemma AgreeStep(cfg: Config, st: Loaded, st': Loaded, lines: seq<string>)
    requires ChoicesOk(cfg) && UserOk(cfg, st.user) && UserOk(cfg, st'.user)
    requires lines != [] && Agree(cfg, st, st', lines[..|lines| - 1])
    ensures Agree(cfg, LoadLine(cfg, st, lines[|lines| - 1]), LoadLine(cfg, st', lines[|lines| - 1]), lines)
  {
    var raw := lines[|lines| - 1];
    forall s: nat ensures AgreeSym(LoadLine(cfg, st, raw), LoadLine(cfg, st', raw), s) {
      assert AgreeSym(st, st', s);
      if Decode(cfg, raw).Some? {
        ApplySymEffect(cfg, st, Decode(cfg, raw).value, s);
        ApplySymEffect(cfg, st', Decode(cfg, raw).value, s);
      }
    }
    forall c: nat ensures AgreeChoice(cfg, LoadLine(cfg, st, raw), LoadLine(cfg, st', raw), lines, c) {
      assert AgreeChoice(cfg, st, st', lines[..|lines| - 1], c);
      AssignsSplit(cfg, lines, c, "m");
      AssignsSplit(cfg, lines, c, "y");
      DecodeOk(cfg, raw);
      if Decode(cfg, raw).Some? {
        ApplyEffect(cfg, st, Decode(cfg, raw).value, c);
        ApplyEffect(cfg, st', Decode(cfg, raw).value, c);
      }
    }
  }

  /** Every choice whose mode gets set to m by some line also gets a y selection from some line. */
  ghost predicate NoMOnly(cfg: Config, lines: seq<string>) {
    forall c: nat :: AssignsIn(cfg, lines, c, "m") ==> AssignsIn(cfg, lines, c, "y")
  }

  ghost predicate HistoryFree(cfg: Config, lines: seq<string>) {
    forall u, u' :: UserOk(cfg, u) && UserOk(cfg, u') ==> LoadReplace(cfg, u, lines) == LoadReplace(cfg, u', lines)
  }

  lemma AgreeingLoads(cfg: Config, u: User, u': User, lines: seq<string>)
    requires ChoicesOk(cfg) && UserOk(cfg, u) && UserOk(cfg, u') && NoMOnly(cfg, lines)
    ensures LoadReplace(cfg, u, lines) == LoadReplace(cfg, u', lines)
  {
    LoadsAgree(cfg, u, u', lines);
    var st, st' := LoadLines(cfg, Loaded(u, {}), lines), LoadLines(cfg, Loaded(u', {}), lines);
    var r, r' := KeepSet(st), KeepSet(st');
    forall s: nat ensures (s in r.val) == (s in r'.val) && (s in r.val ==> r.val[s] == r'.val[s]) {
      assert AgreeSym(st, st', s);
    }
    forall c: nat
      ensures (c in r.mode) == (c in r'.mode) && (c in r.mode ==> r.mode[c] == r'.mode[c])
      ensures (c in r.pick) == (c in r'.pick) && (c in r.pick ==> r.pick[c] == r'.pick[c])
    {
      assert AgreeChoice(cfg, st, st', lines, c);
    }
    assert r.val == r'.val && r.mode == r'.mode && r.pick == r'.pick;
  }

  /** Without a y assignment in its choice, an old user selection survives loading. */
  lemma {:induction false} PickSurvives(cfg: Config, st: Loaded, lines: seq<string>, c: nat)
    requires ChoicesOk(cfg) && UserOk(cfg, st.user) && !AssignsIn(cfg, lines, c, "y")
    ensures c in LoadLines(cfg, st, lines).user.pick <==> c in st.user.pick
  {
    if lines != [] {
      var init, raw := lines[..|lines| - 1], lines[|lines| - 1];
      AssignsSplit(cfg, lines, c, "y");
      PickSurvives(cfg, st, init, c);
      LoadLinesOk(cfg, st, init);
      DecodeOk(cfg, raw);
      if Decode(cfg, raw).Some? { ApplyEffect(cfg, LoadLines(cfg, st, init), Decode(cfg, raw).value, c); }
    }
  }

  lemma {:induction false} ModeMarks(cfg: Config, st: Loaded, lines: seq<string>, c: nat)
    requires ChoicesOk(cfg) && UserOk(cfg, st.user) && AssignsIn(cfg, lines, c, "m")
    ensures C(c) in LoadLines(cfg, st, lines).was
  {
    var init, raw := lines[..|lines| - 1], lines[|lines| - 1];
    AssignsSplit(cfg, lines, c, "m");
    LoadLinesOk(cfg, st, init);
    if AssignsIn(cfg, init, c, "m") { ModeMarks(cfg, st, init, c); }
    DecodeOk(cfg, raw);
    if Decode(cfg, raw).Some? { ApplyEffect(cfg, LoadLines(cfg, st, init), Decode(cfg, raw).value, c); }
  }

  /** An old user selection leaks through a replacing load when a file assigns only m in the choice. */
  lemma StaleSelection(cfg: Config, lines: seq<string>, c: nat) returns (old_: User)
    requires ChoicesOk(cfg) && AssignsIn(cfg, lines, c, "m") && !AssignsIn(cfg, lines, c, "y")
    ensures UserOk(cfg, old_) && UserOk(cfg, NOBODY)
    ensures LoadReplace(cfg, old_, lines) != LoadReplace(cfg, NOBODY, lines)
  {
    var k :| 0 <= k < |lines| && AssignsHere(cfg, lines[k], c, "m");
    old_ := User(map[], map[], map[c := Decode(cfg, lines[k]).value.s]);
    PickSurvives(cfg, Loaded(old_, {}), lines, c);
    PickSurvives(cfg, Loaded(NOBODY, {}), lines, c);
    ModeMarks(cfg, Loaded(old_, {}), lines, c);
    assert c in LoadReplace(cfg, old_, lines).pick && c !in LoadReplace(cfg, NOBODY, lines).pick;
  }

  /** A replacing load reaches the same user values from every earlier state exactly when no choice is assigned
      m without also being assigned y. */
  lemma ReplaceIsHistoryFree(cfg: Config, lines: seq<string>)
    requires ChoicesOk(cfg)
    ensures HistoryFree(cfg, lines) <==> NoMOnly(cfg, lines)
  {
    if NoMOnly(cfg, lines) {
      forall u, u' | UserOk(cfg, u) && UserOk(cfg, u')
        ensures LoadReplace(cfg, u, lines) == LoadReplace(cfg, u', lines)
      {
        AgreeingLoads(cfg, u, u', lines);
      }
    } else {
      var c: nat :| AssignsIn(cfg, lines, c, "m") && !AssignsIn(cfg, lines, c, "y");
      var stale := StaleSelection(cfg, lines, c);
    }
  }
}
