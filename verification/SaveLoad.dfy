/** Writing full and minimal .config files, and reading them back. */
module SaveLoad {
  import opened KconfigLang
  import opened Evaluation
  import opened Choices
  import opened UserState
  import opened DotText
  import opened Loading
  import opened Reproduction
  import opened Frozen

  // Lines and text

  predicate IsBreak(c: char) {
    c == '\n' || c == '\r'
  }

  predicate OneLine(s: string) {
    forall k :: 0 <= k < |s| ==> !IsBreak(s[k])
  }

  function JoinLines(lines: seq<string>): string {
    if lines == [] then "" else lines[0] + "\n" + JoinLines(lines[1..])
  }

  /** The first line break at or after k, or the length of s. */
  function FindBreak(s: string, k: nat): (r: nat)
    requires k <= |s|
    ensures k <= r <= |s| && OneLine(s[k..r]) && (r < |s| ==> IsBreak(s[r]))
    decreases |s| - k
  {
    if k == |s| || IsBreak(s[k]) then k
    else
      var r := FindBreak(s, k + 1);
      assert s[k..r] == [s[k]] + s[k + 1..r];
      r
  }

  /** Text-mode reading: \n, \r and \r\n all end a line. */
  function SplitLines(s: string): seq<string>
    decreases |s|
  {
    if s == [] then []
    else
      var i := FindBreak(s, 0);
      if i == |s| then [s]
      else if s[i] == '\r' && i + 1 < |s| && s[i + 1] == '\n' then [s[..i]] + SplitLines(s[i + 2..])
      else [s[..i]] + SplitLines(s[i + 1..])
  }

  lemma {:induction false} FindBreakAt(s: string, k: nat, n: nat)
    requires k <= n < |s| && IsBreak(s[n]) && forall j :: k <= j < n ==> !IsBreak(s[j])
    ensures FindBreak(s, k) == n
    decreases n - k
  {
    if k < n { FindBreakAt(s, k + 1, n); }
  }

  lemma OneLineConcat(a: string, b: string)
    requires OneLine(a) && OneLine(b)
    ensures OneLine(a + b)
  {
  }

  lemma {:induction false} SplitJoin(lines: seq<string>)
    requires forall k :: 0 <= k < |lines| ==> OneLine(lines[k])
    ensures SplitLines(JoinLines(lines)) == lines
  {
    if lines != [] {
      var s, rest := JoinLines(lines), JoinLines(lines[1..]);
      SplitJoin(lines[1..]);
      var n := |lines[0]|;
      assert s[n] == '\n';
      assert forall k :: 0 <= k < n ==> s[k] == lines[0][k];
      FindBreakAt(s, 0, n);
      assert s[..n] == lines[0] && s[n + 1..] == rest;
    }
  }

  // Written lines

  /** Symbol.config_string, without its final newline. */
  function ConfigString(cfg: Config, u: User, s: nat): Option<string>
    requires Sane(cfg, u)
  {
    var d := SymAt(cfg, s);
    var val := StrOf(cfg, u, s).val;
    if !WriteOf(cfg, u, s) then None
    else if Boolish(d.typ) then
      Some(if val != "n" then PREFIX + d.name + "=" + val else UNSET_HEAD + d.name + UNSET_TAIL)
    else if d.typ == STRING then Some(PREFIX + d.name + "=" + ("\"" + Escape(val) + "\""))
    else Some(PREFIX + d.name + "=" + val)
  }

  /** A step of the walk over the menu tree: reaching a symbol, a menu or comment, or leaving a menu. The two
      conditions decide whether a heading is visible. */
  datatype Stop = SymStop(s: nat) | Heading(title: string, dep: Expr, visible: Expr) | EndOf(title: string, dep: Expr, visible: Expr)

  predicate Shown(cfg: Config, u: User, dep: Expr, visible: Expr)
    requires Sane(cfg, u)
  {
    Ev(cfg, u, dep) != 0 && Ev(cfg, u, visible) != 0
  }

  /** The lines of a full configuration, for the rest of the walk. */
  function ConfigLines(cfg: Config, u: User, walk: seq<Stop>, visited: set<nat>, afterEnd: bool): seq<string>
    requires Sane(cfg, u)
  {
    if walk == [] then []
    else match walk[0]
      case SymStop(s) =>
        if s in visited then ConfigLines(cfg, u, walk[1..], visited, afterEnd)
        else (match ConfigString(cfg, u, s)
          case None => ConfigLines(cfg, u, walk[1..], visited + {s}, afterEnd)
          case Some(line) =>
            (if afterEnd then ["", line] else [line]) + ConfigLines(cfg, u, walk[1..], visited + {s}, false))
      case Heading(title, dep, visible) =>
        if Shown(cfg, u, dep, visible)
        then ["", "#", "# " + title, "#"] + ConfigLines(cfg, u, walk[1..], visited, false)
        else ConfigLines(cfg, u, walk[1..], visited, afterEnd)
      case EndOf(title, dep, visible) =>
        if Shown(cfg, u, dep, visible)
        then ["# end of " + title] + ConfigLines(cfg, u, walk[1..], visited, true)
        else ConfigLines(cfg, u, walk[1..], visited, afterEnd)
  }

  /** None of the three skip rules applies, and the symbol is written. */
  predicate InMinConfig(cfg: Config, u: User, s: nat)
    requires Sane(cfg, u)
  {
    !Droppable(cfg, u, s)
  }

  /** The lines of a minimal configuration for the symbols from k on. */
  function MinLines(cfg: Config, u: User, k: nat): seq<string>
    requires Sane(cfg, u) && k <= |cfg.syms|
    decreases |cfg.syms| - k
  {
    if k == |cfg.syms| then []
    else (if InMinConfig(cfg, u, k) then [ConfigString(cfg, u, k).value] else []) + MinLines(cfg, u, k + 1)
  }

  // Reading written lines back

  /** The value can be written on one line and read back unchanged. */
  predicate TextOk(t: SymType, val: string) {
    match t
    case STRING => OneLine(val)
    case KEY => IsName(val)
    case INT => OneLine(val) && RStrip(val) == val
    case HEX => OneLine(val) && RStrip(val) == val
    case _ => true
  }

  ghost predicate TextsOk(cfg: Config, u: User)
    requires Sane(cfg, u)
  {
    forall s :: 0 <= s < |cfg.syms| && WriteOf(cfg, u, s) ==> TextOk(cfg.syms[s].typ, StrOf(cfg, u, s).val)
  }

  lemma NameEnds(val: string)
    requires IsSymName(val)
    ensures RStrip(val) == val && OneLine(val)
  {
    assert forall k :: 0 <= k < |val| ==> IsSymChar(val[k]);
  }

  lemma {:induction false} EscapeOneLine(s: string)
    requires OneLine(s)
    ensures OneLine(Escape(s))
  {
    if s != [] {
      assert forall k :: 0 <= k < |s[1..]| ==> s[1..][k] == s[k + 1];
      EscapeOneLine(s[1..]);
    }
  }

  lemma LineOf(name: string, rhs: string)
    requires IsSymName(name) && OneLine(rhs)
    ensures OneLine(PREFIX + name + "=" + rhs)
  {
    NameEnds(name);
    OneLineConcat(PREFIX, name);
    OneLineConcat(PREFIX + name, "=");
    OneLineConcat(PREFIX + name + "=", rhs);
  }

  lemma UnsetLineOf(name: string)
    requires IsSymName(name)
    ensures OneLine(UNSET_HEAD + name + UNSET_TAIL)
  {
    NameEnds(name);
    OneLineConcat(UNSET_HEAD, name);
    OneLineConcat(UNSET_HEAD + name, UNSET_TAIL);
  }

  lemma ParseTriLine(name: string, t: SymType, val: string)
    requires IsSymName(name) && name != [] && Boolish(t) && (val == "n" || val == "y" || (val == "m" && t == TRISTATE))
    ensures val != "n" ==>
              && ParseLine(PREFIX + name + "=" + val) == SetLine(name, val) && OneLine(PREFIX + name + "=" + val)
              && DecodeValue(t, val) == Some(val)
    ensures val == "n" ==>
              ParseLine(UNSET_HEAD + name + UNSET_TAIL) == UnsetLine(name) && OneLine(UNSET_HEAD + name + UNSET_TAIL)
  {
    if val != "n" {
      assert IsName(val);
      NameEnds(val);
      ParseSetLine(name, val);
      LineOf(name, val);
    } else {
      ParseUnsetLine(name);
      UnsetLineOf(name);
    }
  }

  lemma StringRhs(val: string)
    requires OneLine(val)
    ensures var rhs := "\"" + Escape(val) + "\""; RStrip(rhs) == rhs && OneLine(rhs) && DecodeValue(STRING, rhs) == Some(val)
  {
    var rhs := "\"" + Escape(val) + "\"";
    assert RStrip(rhs) == rhs && rhs[1..] == Escape(val) + "\"" + "";
    assert DecodeValue(STRING, rhs) == Some(val) by {
      QuotedEscape(val, "");
      UnescapeEscape(val);
    }
    EscapeOneLine(val);
    OneLineConcat("\"", Escape(val));
    OneLineConcat("\"" + Escape(val), "\"");
  }

  lemma ParseStringLine(name: string, val: string)
    requires IsSymName(name) && name != [] && OneLine(val)
    ensures var rhs := "\"" + Escape(val) + "\"";
            && ParseLine(PREFIX + name + "=" + rhs) == SetLine(name, rhs) && OneLine(PREFIX + name + "=" + rhs)
            && DecodeValue(STRING, rhs) == Some(val)
  {
    var rhs := "\"" + Escape(val) + "\"";
    StringRhs(val);
    ParseSetLine(name, rhs);
    LineOf(name, rhs);
  }

  lemma ParseTextLine(name: string, t: SymType, val: string)
    requires IsSymName(name) && name != [] && (IntHex(t) || t == KEY) && TextOk(t, val)
    ensures ParseLine(PREFIX + name + "=" + val) == SetLine(name, val) && OneLine(PREFIX + name + "=" + val)
    ensures DecodeValue(t, val) == Some(val)
  {
    if t == KEY {
      NameEnds(val);
      NamePrefixAll(val);
      UnescapeName(val);
    }
    ParseSetLine(name, val);
    LineOf(name, val);
  }

  lemma BoolIsNotM(cfg: Config, u: User, s: nat)
    requires Sane(cfg, u) && SymAt(cfg, s).typ == BOOL
    ensures TriOf(cfg, u, s).val != 1
  {
    assert SymTypeOf(cfg, u, s) == BOOL;
  }

  /** A written line decodes to an assignment of the value to its symbol. */
  lemma DecodeWritten(cfg: Config, u: User, s: nat)
    requires Sane(cfg, u) && NamesOk(cfg) && s < |cfg.syms|
    requires WriteOf(cfg, u, s) && TextOk(cfg.syms[s].typ, StrOf(cfg, u, s).val)
    ensures Decode(cfg, ConfigString(cfg, u, s).value) == Some(Assignment(s, StrOf(cfg, u, s).val))
    ensures OneLine(ConfigString(cfg, u, s).value)
  {
    var d := cfg.syms[s];
    LookupFinds(cfg, s, 0);
    if Boolish(d.typ) {
      if d.typ == BOOL { BoolIsNotM(cfg, u, s); }
      ParseTriLine(d.name, d.typ, StrOf(cfg, u, s).val);
    } else if d.typ == STRING {
      ParseStringLine(d.name, StrOf(cfg, u, s).val);
    } else {
      ParseTextLine(d.name, d.typ, StrOf(cfg, u, s).val);
    }
  }

  /** The assignments found in a sequence of lines. */
  function Decoded(cfg: Config, lines: seq<string>): seq<Assignment> {
    if lines == [] then []
    else
      var a := Decode(cfg, lines[0]);
      (if a.Some? then [a.value] else []) + Decoded(cfg, lines[1..])
  }

  function ApplyAll(cfg: Config, st: Loaded, as_: seq<Assignment>): Loaded {
    if as_ == [] then st else Apply(cfg, ApplyAll(cfg, st, as_[..|as_| - 1]), as_[|as_| - 1])
  }

  lemma {:induction false} DecodedSnoc(cfg: Config, lines: seq<string>, line: string)
    ensures Decoded(cfg, lines + [line]) ==
              Decoded(cfg, lines) + if Decode(cfg, line).Some? then [Decode(cfg, line).value] else []
  {
    if lines == [] {
      assert lines + [line] == [line];
      assert Decoded(cfg, [line][1..]) == [];
    } else {
      assert (lines + [line])[1..] == lines[1..] + [line];
      DecodedSnoc(cfg, lines[1..], line);
    }
  }

  lemma DecodedCons(cfg: Config, line: string, lines: seq<string>)
    ensures Decoded(cfg, [line] + lines) ==
              (if Decode(cfg, line).Some? then [Decode(cfg, line).value] else []) + Decoded(cfg, lines)
  {
    assert ([line] + lines)[1..] == lines;
  }

  lemma {:induction false} DecodedConcat(cfg: Config, a: seq<string>, b: seq<string>)
    ensures Decoded(cfg, a + b) == Decoded(cfg, a) + Decoded(cfg, b)
  {
    if a == [] {
      assert a + b == b;
    } else {
      assert (a + b)[1..] == a[1..] + b;
      DecodedConcat(cfg, a[1..], b);
    }
  }

  /** Loading only looks at the assignments. */
  lemma {:induction false} LoadIsApplyAll(cfg: Config, st: Loaded, lines: seq<string>)
    ensures LoadLines(cfg, st, lines) == ApplyAll(cfg, st, Decoded(cfg, lines))
  {
    if lines != [] {
      var init, last := lines[..|lines| - 1], lines[|lines| - 1];
      assert lines == init + [last];
      LoadIsApplyAll(cfg, st, init);
      DecodedSnoc(cfg, init, last);
      var a := Decode(cfg, last);
      if a.Some? {
        assert Decoded(cfg, lines)[..|Decoded(cfg, lines)| - 1] == Decoded(cfg, init);
      } else {
        assert Decoded(cfg, lines) == Decoded(cfg, init);
      }
    }
  }

  // From saved values to user values

  /** The assignments that save the symbols in order. */
  function Saves(cfg: Config, u: User, order: seq<nat>): seq<Assignment>
    requires Sane(cfg, u)
  {
    seq(|order|, i requires 0 <= i < |order| => Assignment(order[i], StrOf(cfg, u, order[i]).val))
  }

  predicate Distinct(order: seq<nat>) {
    forall i, j :: 0 <= i < j < |order| ==> order[i] != order[j]
  }

  ghost predicate SavedSym(cfg: Config, u: User, st: Loaded, order: seq<nat>, s: nat)
    requires Sane(cfg, u)
  {
    if s in order && SavedVal(cfg, u, s).Some?
    then S(s) in st.was && s in st.user.val && st.user.val[s] == SavedVal(cfg, u, s).value
    else S(s) !in st.was
  }

  /** The symbols among order, as a set. */
  function Elements(order: seq<nat>): set<nat> {
    set s | s in order
  }

  ghost predicate SavedChoice(cfg: Config, u: User, u0: User, st: Loaded, order: seq<nat>, c: nat)
    requires Sane(cfg, u)
  {
    var y, m := SavedAsY(cfg, u, Elements(order), c), SavedAsM(cfg, u, Elements(order), c);
    && (C(c) in st.was <==> y || m)
    && (y || m ==> c in st.user.mode && st.user.mode[c] == if y then 2 else 1)
    && (if y then c in st.user.pick && st.user.pick[c] == SelOf(cfg, u, c).value
        else (c in st.user.pick <==> c in u0.pick) && (c in u0.pick ==> st.user.pick[c] == u0.pick[c]))
  }

  ghost predicate SavedAll(cfg: Config, u: User, u0: User, st: Loaded, order: seq<nat>)
    requires Sane(cfg, u)
  {
    && UserOk(cfg, st.user)
    && (forall s: nat :: SavedSym(cfg, u, st, order, s))
    && (forall c: nat :: SavedChoice(cfg, u, u0, st, order, c))
  }

  /** The assignment that saves s is a y or an m in choice c exactly if s is the selection, or is m. */
  lemma SaveAssigns(cfg: Config, u: User, s: nat, c: nat)
    requires Sane(cfg, u) && ChoicesOk(cfg) && s < |cfg.syms|
    ensures var a := Assignment(s, StrOf(cfg, u, s).val);
            && AssignmentOk(cfg, a)
            && (AssignsTo(cfg, a, c, "y") <==> SelOf(cfg, u, c) == Some(s))
            && (AssignsTo(cfg, a, c, "m") <==> SymAt(cfg, s).choice == Some(c) && TriOf(cfg, u, s).val == 1)
    ensures SymAt(cfg, s).choice == Some(c) && TriOf(cfg, u, s).val == 1 ==> SelOf(cfg, u, c).None?
  {
    assert ChoiceSymOk(cfg, s);
    SelectionIsVisible(cfg, u, c);
    if SymAt(cfg, s).choice == Some(c) {
      ChoiceExclusivity(cfg, u, c, s);
      assert TriOf(cfg, u, s).val == 1 ==> ChoiceTypeOf(cfg, u, c) != BOOL;
    }
  }

  lemma SavedAsStep(cfg: Config, u: User, order: seq<nat>, s: nat, c: nat)
    requires Sane(cfg, u)
    ensures SavedAsY(cfg, u, Elements(order + [s]), c) <==> SavedAsY(cfg, u, Elements(order), c) || SelOf(cfg, u, c) == Some(s)
    ensures SavedAsM(cfg, u, Elements(order + [s]), c) <==>
              SavedAsM(cfg, u, Elements(order), c) || (SymAt(cfg, s).choice == Some(c) && TriOf(cfg, u, s).val == 1)
  {
    assert Elements(order + [s]) == Elements(order) + {s};
  }

  lemma SaveChoiceStep(cfg: Config, u: User, u0: User, st: Loaded, order: seq<nat>, s: nat, c: nat)
    requires Sane(cfg, u) && ChoicesOk(cfg) && SavedAll(cfg, u, u0, st, order)
    requires s < |cfg.syms| && forall t :: t in order ==> t < |cfg.syms|
    ensures SavedChoice(cfg, u, u0, Apply(cfg, st, Assignment(s, StrOf(cfg, u, s).val)), order + [s], c)
  {
    assert SavedChoice(cfg, u, u0, st, order, c);
    SaveAssigns(cfg, u, s, c);
    ApplyEffect(cfg, st, Assignment(s, StrOf(cfg, u, s).val), c);
    SavedAsStep(cfg, u, order, s, c);
    if SavedAsM(cfg, u, Elements(order), c) {
      var t :| t in Elements(order) && SymAt(cfg, t).choice == Some(c) && TriOf(cfg, u, t).val == 1;
      SaveAssigns(cfg, u, t, c);
    }
  }

  lemma SaveSymStep(cfg: Config, u: User, u0: User, st: Loaded, order: seq<nat>, s: nat, t: nat)
    requires Sane(cfg, u) && SavedAll(cfg, u, u0, st, order) && s < |cfg.syms| && s !in order
    ensures SavedSym(cfg, u, Apply(cfg, st, Assignment(s, StrOf(cfg, u, s).val)), order + [s], t)
  {
    assert SavedSym(cfg, u, st, order, t);
    ApplySymEffect(cfg, st, Assignment(s, StrOf(cfg, u, s).val), t);
  }

  lemma SaveStep(cfg: Config, u: User, u0: User, st: Loaded, order: seq<nat>, s: nat)
    requires Sane(cfg, u) && ChoicesOk(cfg) && SavedAll(cfg, u, u0, st, order)
    requires s < |cfg.syms| && s !in order && forall t :: t in order ==> t < |cfg.syms|
    ensures SavedAll(cfg, u, u0, Apply(cfg, st, Assignment(s, StrOf(cfg, u, s).val)), order + [s])
  {
    var a := Assignment(s, StrOf(cfg, u, s).val);
    ApplyOk(cfg, st, a);
    forall t: nat ensures SavedSym(cfg, u, Apply(cfg, st, a), order + [s], t) {
      SaveSymStep(cfg, u, u0, st, order, s, t);
    }
    forall c: nat ensures SavedChoice(cfg, u, u0, Apply(cfg, st, a), order + [s], c) {
      SaveChoiceStep(cfg, u, u0, st, order, s, c);
    }
  }

  lemma {:induction false} LoadSaves(cfg: Config, u: User, u0: User, order: seq<nat>)
    requires Sane(cfg, u) && ChoicesOk(cfg) && UserOk(cfg, u0) && Distinct(order)
    requires forall i :: 0 <= i < |order| ==> order[i] < |cfg.syms|
    ensures SavedAll(cfg, u, u0, ApplyAll(cfg, Loaded(u0, {}), Saves(cfg, u, order)), order)
  {
    var as_ := Saves(cfg, u, order);
    if order == [] {
      assert ApplyAll(cfg, Loaded(u0, {}), as_) == Loaded(u0, {});
    } else {
      var init, s := order[..|order| - 1], order[|order| - 1];
      assert as_[..|as_| - 1] == Saves(cfg, u, init);
      LoadSaves(cfg, u, u0, init);
      assert order == init + [s];
      SaveStep(cfg, u, u0, ApplyAll(cfg, Loaded(u0, {}), Saves(cfg, u, init)), init, s);
    }
  }

  lemma SavedInRange(cfg: Config, u: User, kept: set<nat>, c: nat)
    requires Sane(cfg, u) && ChoicesOk(cfg)
    ensures SavedAsY(cfg, u, kept, c) || SavedAsM(cfg, u, kept, c) ==> c < |cfg.choices|
  {
    SelectionOfChoice(cfg, u, c);
    if SavedAsM(cfg, u, kept, c) {
      var s :| s in kept && SymAt(cfg, s).choice == Some(c) && TriOf(cfg, u, s).val == 1;
      assert ChoiceSymOk(cfg, s);
    }
  }

  lemma KeptSym(cfg: Config, u: User, u0: User, st: Loaded, order: seq<nat>, s: nat)
    requires Sane(cfg, u) && SavedSym(cfg, u, st, order, s)
    ensures var r, saved := KeepSet(st).val, SavedState(cfg, u, u0, Elements(order)).val;
            (s in r) == (s in saved) && (s in r ==> r[s] == saved[s])
  {
  }

  lemma KeptChoice(cfg: Config, u: User, u0: User, st: Loaded, order: seq<nat>, c: nat)
    requires Sane(cfg, u) && ChoicesOk(cfg) && SavedChoice(cfg, u, u0, st, order, c)
    ensures var r, saved := KeepSet(st), SavedState(cfg, u, u0, Elements(order));
            && (c in r.mode) == (c in saved.mode) && (c in r.mode ==> r.mode[c] == saved.mode[c])
            && (c in r.pick) == (c in saved.pick) && (c in r.pick ==> r.pick[c] == saved.pick[c])
  {
    SavedInRange(cfg, u, Elements(order), c);
  }

  lemma SameUser(a: User, b: User)
    requires forall s: nat :: (s in a.val) == (s in b.val) && (s in a.val ==> a.val[s] == b.val[s])
    requires forall c: nat :: (c in a.mode) == (c in b.mode) && (c in a.mode ==> a.mode[c] == b.mode[c])
    requires forall c: nat :: (c in a.pick) == (c in b.pick) && (c in a.pick ==> a.pick[c] == b.pick[c])
    ensures a == b
  {
    assert a.val == b.val && a.mode == b.mode && a.pick == b.pick;
  }

  lemma KeptIs(cfg: Config, u: User, u0: User, st: Loaded, order: seq<nat>)
    requires Sane(cfg, u) && ChoicesOk(cfg) && SavedAll(cfg, u, u0, st, order)
    ensures KeepSet(st) == SavedState(cfg, u, u0, Elements(order))
  {
    var r, saved := KeepSet(st), SavedState(cfg, u, u0, Elements(order));
    forall s: nat ensures (s in r.val) == (s in saved.val) && (s in r.val ==> r.val[s] == saved.val[s]) {
      KeptSym(cfg, u, u0, st, order, s);
    }
    forall c: nat
      ensures (c in r.mode) == (c in saved.mode) && (c in r.mode ==> r.mode[c] == saved.mode[c])
      ensures (c in r.pick) == (c in saved.pick) && (c in r.pick ==> r.pick[c] == saved.pick[c])
    {
      KeptChoice(cfg, u, u0, st, order, c);
    }
    SameUser(r, saved);
  }

  /** Loading a file whose assignments save the symbols in order leaves exactly their saved values. */
  lemma LoadedIs(cfg: Config, u: User, u0: User, lines: seq<string>, order: seq<nat>)
    requires Sane(cfg, u) && ChoicesOk(cfg) && UserOk(cfg, u0) && Distinct(order)
    requires forall i :: 0 <= i < |order| ==> order[i] < |cfg.syms|
    requires Decoded(cfg, lines) == Saves(cfg, u, order)
    ensures LoadReplace(cfg, u0, lines) == SavedState(cfg, u, u0, Elements(order))
  {
    LoadIsApplyAll(cfg, Loaded(u0, {}), lines);
    LoadSaves(cfg, u, u0, order);
    KeptIs(cfg, u, u0, LoadLines(cfg, Loaded(u0, {}), lines), order);
  }

  ghost predicate SameValues(cfg: Config, u: User, u': User) {
    && Sane(cfg, u) && Sane(cfg, u')
    && forall s: nat :: SameSym(cfg, u, u', s)
  }

  /** Every symbol keeps its text when it is evaluated once more, from the present values of its inputs, with the
      values that saving the symbols in kept and loading them over u0 leaves behind. */
  ghost predicate SurvivesSaving(cfg: Config, u: User, u0: User, kept: set<nat>)
    requires Sane(cfg, u) && PicksOk(cfg, u0) && ChoicesOk(cfg)
  {
    SavedStateSane(cfg, u, u0, kept);
    forall s: nat :: KeepsText(cfg, u, SavedState(cfg, u, u0, kept), s)
  }

  lemma SameIffSurvives(cfg: Config, u: User, u0: User, kept: set<nat>)
    requires Sane(cfg, u) && PicksOk(cfg, u0) && ChoicesOk(cfg)
    ensures SameValues(cfg, u, SavedState(cfg, u, u0, kept)) <==> SurvivesSaving(cfg, u, u0, kept)
  {
    SavedStateSane(cfg, u, u0, kept);
    SameIffKept(cfg, u, SavedState(cfg, u, u0, kept));
  }

  /** Without modules, and when no lost mode is missed, everything survives. */
  lemma KeptModesSurvive(cfg: Config, u: User, u0: User, kept: set<nat>)
    requires PlainConfig(cfg) && UserOk(cfg, u) && UserOk(cfg, u0) && ModesKept(cfg, u)
    requires forall s: nat :: s in kept || Droppable(cfg, u, s)
    ensures SurvivesSaving(cfg, u, u0, kept)
  {
    SavedStateHolds(cfg, u, u0, kept);
    forall s: nat ensures SameSym(cfg, u, SavedState(cfg, u, u0, kept), s) {
      SameTri(cfg, u, SavedState(cfg, u, u0, kept), kept, s);
      SameStr(cfg, u, SavedState(cfg, u, u0, kept), kept, s);
    }
    SameIffSurvives(cfg, u, u0, kept);
  }

  // Full configurations

  /** Headings do not look like assignments, and span one line. */
  predicate TitleOk(cfg: Config, title: string) {
    Decode(cfg, "# " + title).None? && OneLine(title)
  }

  ghost predicate WalkOk(cfg: Config, walk: seq<Stop>) {
    forall k :: 0 <= k < |walk| ==>
                  match walk[k]
                  case SymStop(s) => s < |cfg.syms|
                  case Heading(title, _, _) => TitleOk(cfg, title)
                  case EndOf(title, _, _) => OneLine(title)
  }

  /** The written symbols in the order the walk first reaches them. */
  function WalkOrder(cfg: Config, u: User, walk: seq<Stop>, visited: set<nat>): seq<nat>
    requires Sane(cfg, u)
  {
    if walk == [] then []
    else if walk[0].SymStop? && walk[0].s !in visited then
      (if WriteOf(cfg, u, walk[0].s) then [walk[0].s] else []) + WalkOrder(cfg, u, walk[1..], visited + {walk[0].s})
    else WalkOrder(cfg, u, walk[1..], visited)
  }

  lemma {:induction false} WalkOrderIs(cfg: Config, u: User, walk: seq<Stop>, visited: set<nat>)
    requires Sane(cfg, u) && WalkOk(cfg, walk)
    ensures var order := WalkOrder(cfg, u, walk, visited);
            && Distinct(order)
            && (forall s :: s in order ==> s !in visited && s < |cfg.syms| && WriteOf(cfg, u, s))
            && (forall s :: SymStop(s) in walk && s !in visited && WriteOf(cfg, u, s) ==> s in order)
  {
    if walk != [] {
      var visited' := if walk[0].SymStop? && walk[0].s !in visited then visited + {walk[0].s} else visited;
      WalkOrderIs(cfg, u, walk[1..], visited');
    }
  }

  lemma PlainLine(cfg: Config, line: string)
    requires line == "" || line == "#" || "# end of " <= line
    ensures Decode(cfg, line).None?
  {
    if "# end of " <= line {
      assert line[2] == 'e' && line[0] == '#';
      var t := RStrip(line);
      RStripPrefix(line);
      assert t <= line;
      assert PREFIX[0] == 'C' && UNSET_HEAD[2] == 'C';
    } else {
      assert |RStrip(line)| <= 1 by { RStripShrinks(line); }
    }
  }

  lemma RStripPrefix(s: string)
    ensures RStrip(s) <= s
  {
  }

  ghost predicate AllOneLine(lines: seq<string>) {
    forall k :: 0 <= k < |lines| ==> OneLine(lines[k])
  }

  lemma SavesCons(cfg: Config, u: User, s: nat, order: seq<nat>)
    requires Sane(cfg, u)
    ensures Saves(cfg, u, [s] + order) == [Assignment(s, StrOf(cfg, u, s).val)] + Saves(cfg, u, order)
  {
  }

  lemma WrittenDecodes(cfg: Config, u: User, s: nat, tail: seq<string>, order: seq<nat>)
    requires Sane(cfg, u) && NamesOk(cfg) && TextsOk(cfg, u)
    requires s < |cfg.syms| && WriteOf(cfg, u, s) && Decoded(cfg, tail) == Saves(cfg, u, order) && AllOneLine(tail)
    ensures var line := ConfigString(cfg, u, s).value;
            && Decoded(cfg, [line] + tail) == Saves(cfg, u, [s] + order) && AllOneLine([line] + tail)
            && Decoded(cfg, ["", line] + tail) == Saves(cfg, u, [s] + order) && AllOneLine(["", line] + tail)
  {
    var line := ConfigString(cfg, u, s).value;
    DecodeWritten(cfg, u, s);
    DecodedCons(cfg, line, tail);
    SavesCons(cfg, u, s, order);
    PlainLine(cfg, "");
    DecodedCons(cfg, "", [line] + tail);
    assert [""] + ([line] + tail) == ["", line] + tail;
  }

  lemma SkipLine(cfg: Config, line: string, tail: seq<string>)
    requires Decode(cfg, line).None? && OneLine(line)
    ensures Decoded(cfg, [line] + tail) == Decoded(cfg, tail) && (AllOneLine(tail) ==> AllOneLine([line] + tail))
  {
    DecodedCons(cfg, line, tail);
  }

  lemma HeadingDecodes(cfg: Config, title: string, tail: seq<string>)
    requires TitleOk(cfg, title)
    ensures Decoded(cfg, ["", "#", "# " + title, "#"] + tail) == Decoded(cfg, tail)
    ensures AllOneLine(tail) ==> AllOneLine(["", "#", "# " + title, "#"] + tail)
  {
    PlainLine(cfg, "");
    PlainLine(cfg, "#");
    var d := ["#"] + tail;
    var c := ["# " + title] + d;
    var b := ["#"] + c;
    SkipLine(cfg, "#", tail);
    SkipLine(cfg, "# " + title, d);
    SkipLine(cfg, "#", c);
    SkipLine(cfg, "", b);
    assert ["", "#", "# " + title, "#"] + tail == [""] + b;
  }

  /** The rest of a full configuration saves every written symbol of the rest of the walk once. */
  ghost predicate Faithful(cfg: Config, u: User, walk: seq<Stop>, visited: set<nat>, afterEnd: bool)
    requires Sane(cfg, u)
  {
    && Decoded(cfg, ConfigLines(cfg, u, walk, visited, afterEnd)) == Saves(cfg, u, WalkOrder(cfg, u, walk, visited))
    && AllOneLine(ConfigLines(cfg, u, walk, visited, afterEnd))
  }

  lemma FaithfulSym(cfg: Config, u: User, s: nat, rest: seq<Stop>, visited: set<nat>, afterEnd: bool)
    requires Sane(cfg, u) && NamesOk(cfg) && TextsOk(cfg, u) && s < |cfg.syms|
    requires Faithful(cfg, u, rest, if s in visited then visited else visited + {s},
                      afterEnd && (s in visited || !WriteOf(cfg, u, s)))
    ensures Faithful(cfg, u, [SymStop(s)] + rest, visited, afterEnd)
  {
    var walk := [SymStop(s)] + rest;
    assert walk[1..] == rest;
    if s !in visited {
      var order := WalkOrder(cfg, u, rest, visited + {s});
      if WriteOf(cfg, u, s) {
        WrittenDecodes(cfg, u, s, ConfigLines(cfg, u, rest, visited + {s}, false), order);
        assert WalkOrder(cfg, u, walk, visited) == [s] + order;
      } else {
        assert WalkOrder(cfg, u, walk, visited) == order;
      }
    }
  }

  lemma FaithfulHeading(cfg: Config, u: User, stop: Stop, rest: seq<Stop>, visited: set<nat>, afterEnd: bool)
    requires Sane(cfg, u) && stop.Heading? && TitleOk(cfg, stop.title)
    requires Faithful(cfg, u, rest, visited, afterEnd && !Shown(cfg, u, stop.dep, stop.visible))
    ensures Faithful(cfg, u, [stop] + rest, visited, afterEnd)
  {
    assert ([stop] + rest)[1..] == rest;
    HeadingDecodes(cfg, stop.title, ConfigLines(cfg, u, rest, visited, false));
  }

  lemma FaithfulEnd(cfg: Config, u: User, stop: Stop, rest: seq<Stop>, visited: set<nat>, afterEnd: bool)
    requires Sane(cfg, u) && stop.EndOf? && OneLine(stop.title)
    requires Faithful(cfg, u, rest, visited, afterEnd || Shown(cfg, u, stop.dep, stop.visible))
    ensures Faithful(cfg, u, [stop] + rest, visited, afterEnd)
  {
    assert ([stop] + rest)[1..] == rest;
    PlainLine(cfg, "# end of " + stop.title);
    OneLineConcat("# end of ", stop.title);
    DecodedCons(cfg, "# end of " + stop.title, ConfigLines(cfg, u, rest, visited, true));
  }

  lemma {:induction false} ConfigDecodes(cfg: Config, u: User, walk: seq<Stop>, visited: set<nat>, afterEnd: bool)
    requires Sane(cfg, u) && NamesOk(cfg) && TextsOk(cfg, u) && WalkOk(cfg, walk)
    ensures Faithful(cfg, u, walk, visited, afterEnd)
  {
    if walk != [] {
      var rest := walk[1..];
      assert walk == [walk[0]] + rest;
      match walk[0]
      case SymStop(s) =>
        ConfigDecodes(cfg, u, rest, if s in visited then visited else visited + {s},
                      afterEnd && (s in visited || !WriteOf(cfg, u, s)));
        FaithfulSym(cfg, u, s, rest, visited, afterEnd);
      case Heading(title, dep, visible) =>
        ConfigDecodes(cfg, u, rest, visited, afterEnd && !Shown(cfg, u, dep, visible));
        FaithfulHeading(cfg, u, walk[0], rest, visited, afterEnd);
      case EndOf(title, dep, visible) =>
        ConfigDecodes(cfg, u, rest, visited, afterEnd || Shown(cfg, u, dep, visible));
        FaithfulEnd(cfg, u, walk[0], rest, visited, afterEnd);
    }
  }

  /** The lines of a header assign nothing. */
  ghost predicate HeaderOk(cfg: Config, header: seq<string>) {
    Decoded(cfg, header) == [] && AllOneLine(header)
  }

  function Written(cfg: Config, u: User): set<nat>
    requires Sane(cfg, u)
  {
    set s | 0 <= s < |cfg.syms| && WriteOf(cfg, u, s)
  }

  /** The user values that saving the full configuration and loading it over u0 leaves behind. */
  lemma SavedThenLoadedIs(cfg: Config, u: User, u0: User, header: seq<string>, walk: seq<Stop>)
    requires Sane(cfg, u) && ChoicesOk(cfg) && NamesOk(cfg) && UserOk(cfg, u0) && TextsOk(cfg, u)
    requires HeaderOk(cfg, header) && WalkOk(cfg, walk)
    requires forall s :: 0 <= s < |cfg.syms| ==> SymStop(s) in walk
    ensures var text := JoinLines(header + ConfigLines(cfg, u, walk, {}, false));
            LoadReplace(cfg, u0, SplitLines(text)) == SavedState(cfg, u, u0, Written(cfg, u))
  {
    var lines := ConfigLines(cfg, u, walk, {}, false);
    ConfigDecodes(cfg, u, walk, {}, false);
    SplitJoin(header + lines);
    DecodedConcat(cfg, header, lines);
    var order := WalkOrder(cfg, u, walk, {});
    WalkOrderIs(cfg, u, walk, {});
    assert forall i :: 0 <= i < |order| ==> order[i] in order;
    assert Elements(order) == Written(cfg, u) by {
      assert forall s :: s in Written(cfg, u) ==> SymStop(s) in walk;
    }
    LoadedIs(cfg, u, u0, header + lines, order);
  }

  /** Saving the full configuration and loading it, over any earlier user values, reproduces every value exactly if
      every symbol survives on its own. */
  lemma SaveThenLoad(cfg: Config, u: User, u0: User, header: seq<string>, walk: seq<Stop>)
    requires Sane(cfg, u) && ChoicesOk(cfg) && NamesOk(cfg) && UserOk(cfg, u0) && TextsOk(cfg, u)
    requires HeaderOk(cfg, header) && WalkOk(cfg, walk)
    requires forall s :: 0 <= s < |cfg.syms| ==> SymStop(s) in walk
    ensures var text := JoinLines(header + ConfigLines(cfg, u, walk, {}, false));
            SameValues(cfg, u, LoadReplace(cfg, u0, SplitLines(text))) <==> SurvivesSaving(cfg, u, u0, Written(cfg, u))
    ensures PlainConfig(cfg) && UserOk(cfg, u) && ModesKept(cfg, u) ==> SurvivesSaving(cfg, u, u0, Written(cfg, u))
  {
    SavedThenLoadedIs(cfg, u, u0, header, walk);
    SameIffSurvives(cfg, u, u0, Written(cfg, u));
    if PlainConfig(cfg) && UserOk(cfg, u) && ModesKept(cfg, u) {
      KeptModesSurvive(cfg, u, u0, Written(cfg, u));
    }
  }

  // Minimal configurations

  function MinOrder(cfg: Config, u: User, k: nat): seq<nat>
    requires Sane(cfg, u) && k <= |cfg.syms|
    decreases |cfg.syms| - k
  {
    if k == |cfg.syms| then [] else (if InMinConfig(cfg, u, k) then [k] else []) + MinOrder(cfg, u, k + 1)
  }

  lemma {:induction false} MinOrderHas(cfg: Config, u: User, k: nat, s: nat)
    requires Sane(cfg, u) && k <= |cfg.syms|
    ensures s in MinOrder(cfg, u, k) <==> k <= s < |cfg.syms| && InMinConfig(cfg, u, s)
    decreases |cfg.syms| - k
  {
    if k < |cfg.syms| { MinOrderHas(cfg, u, k + 1, s); }
  }

  lemma {:induction false} MinOrderDistinct(cfg: Config, u: User, k: nat)
    requires Sane(cfg, u) && k <= |cfg.syms|
    ensures Distinct(MinOrder(cfg, u, k))
    decreases |cfg.syms| - k
  {
    if k < |cfg.syms| {
      var rest := MinOrder(cfg, u, k + 1);
      MinOrderDistinct(cfg, u, k + 1);
      MinOrderHas(cfg, u, k + 1, k);
      DistinctCons(k, rest);
      assert [] + rest == rest;
    }
  }

  lemma DistinctCons(k: nat, rest: seq<nat>)
    requires Distinct(rest) && k !in rest
    ensures Distinct([k] + rest)
  {
    forall i, j | 0 <= i < j < |rest| + 1 ensures ([k] + rest)[i] != ([k] + rest)[j] {
      assert rest[j - 1] in rest;
    }
  }

  lemma {:induction false} MinDecodes(cfg: Config, u: User, k: nat)
    requires Sane(cfg, u) && NamesOk(cfg) && TextsOk(cfg, u) && k <= |cfg.syms|
    ensures Decoded(cfg, MinLines(cfg, u, k)) == Saves(cfg, u, MinOrder(cfg, u, k))
    ensures AllOneLine(MinLines(cfg, u, k))
    decreases |cfg.syms| - k
  {
    if k < |cfg.syms| {
      MinDecodes(cfg, u, k + 1);
      if InMinConfig(cfg, u, k) {
        WrittenDecodes(cfg, u, k, MinLines(cfg, u, k + 1), MinOrder(cfg, u, k + 1));
      } else {
        assert MinLines(cfg, u, k) == MinLines(cfg, u, k + 1) && MinOrder(cfg, u, k) == MinOrder(cfg, u, k + 1);
      }
    }
  }

  function Needed(cfg: Config, u: User): set<nat>
    requires Sane(cfg, u)
  {
    set s | 0 <= s < |cfg.syms| && InMinConfig(cfg, u, s)
  }

  /** The same for minimal configurations: without modules each skip rule drops only what defaults, selects and
      default selections bring back. */
  lemma MinConfigThenLoad(cfg: Config, u: User, u0: User, header: seq<string>)
    requires Sane(cfg, u) && ChoicesOk(cfg) && NamesOk(cfg) && UserOk(cfg, u0) && TextsOk(cfg, u)
    requires HeaderOk(cfg, header)
    ensures var text := JoinLines(header + MinLines(cfg, u, 0));
            SameValues(cfg, u, LoadReplace(cfg, u0, SplitLines(text))) <==> SurvivesSaving(cfg, u, u0, Needed(cfg, u))
    ensures PlainConfig(cfg) && UserOk(cfg, u) && ModesKept(cfg, u) ==> SurvivesSaving(cfg, u, u0, Needed(cfg, u))
  {
    var lines := MinLines(cfg, u, 0);
    MinDecodes(cfg, u, 0);
    MinOrderDistinct(cfg, u, 0);
    SplitJoin(header + lines);
    DecodedConcat(cfg, header, lines);
    var order := MinOrder(cfg, u, 0);
    forall s: nat ensures s in order <==> s in Needed(cfg, u) { MinOrderHas(cfg, u, 0, s); }
    assert Elements(order) == Needed(cfg, u);
    assert forall i :: 0 <= i < |order| ==> order[i] in order;
    LoadedIs(cfg, u, u0, header + lines, order);
    SameIffSurvives(cfg, u, u0, Needed(cfg, u));
    if PlainConfig(cfg) && UserOk(cfg, u) && ModesKept(cfg, u) {
      forall s: nat ensures s in Needed(cfg, u) || Droppable(cfg, u, s) {
        if s >= |cfg.syms| { assert !WriteOf(cfg, u, s); }
      }
      KeptModesSurvive(cfg, u, u0, Needed(cfg, u));
    }
  }
}
