/** Loading and writing .config files through the Kconfig object and its caches. */
module DotConfig {
  import opened KconfigLang
  import opened Evaluation
  import opened Dependents
  import Choices
  import opened UserState
  import opened Loading
  import opened Reproduction
  import opened DotText
  import opened SaveLoad
  import opened KconfigObject

  /** Reads str_value first, which also brings _write_to_conf up to date. */
  method ReadConfigString(k: Kconfig, s: nat) returns (line: Option<string>)
    requires k.Valid()
    modifies k`memo, k`writes
    ensures k.Valid() && line == ConfigString(k.cfg, k.user, s)
  {
    var d := SymAt(k.cfg, s);
    var val := k.StrValue(s);
    assert Current(k.cfg, k.user, k.memo, k.writes, StrQ(s));
    if s !in k.writes {
      return None;
    }
    line := Some(
      if Boolish(d.typ) then (if val != "n" then PREFIX + d.name + "=" + val else UNSET_HEAD + d.name + UNSET_TAIL)
      else if d.typ == STRING then PREFIX + d.name + "=" + ("\"" + Escape(val) + "\"")
      else PREFIX + d.name + "=" + val);
  }

  method IsShown(k: Kconfig, dep: Expr, visible: Expr) returns (shown: bool)
    requires k.Valid()
    modifies k`memo, k`writes
    ensures k.Valid() && shown == Shown(k.cfg, k.user, dep, visible)
  {
    var v := k.EvalExpr(dep);
    shown := false;
    if v != 0 {
      v := k.EvalExpr(visible);
      shown := v != 0;
    }
  }

  /** Writes what the first stop of a walk calls for. */
  method VisitStop(k: Kconfig, walk: seq<Stop>, visited: set<nat>, afterEnd: bool)
    returns (lines: seq<string>, visited': set<nat>, afterEnd': bool)
    requires k.Valid() && walk != []
    modifies k`memo, k`writes
    ensures k.Valid()
    ensures ConfigLines(k.cfg, k.user, walk, visited, afterEnd) ==
            lines + ConfigLines(k.cfg, k.user, walk[1..], visited', afterEnd')
  {
    lines, visited', afterEnd' := [], visited, afterEnd;
    match walk[0] {
      case SymStop(s) =>
        if s !in visited {
          visited' := visited + {s};
          var line := ReadConfigString(k, s);
          if line.Some? {
            lines := if afterEnd then ["", line.value] else [line.value];
            afterEnd' := false;
          }
        }
      case Heading(title, dep, visible) =>
        var shown := IsShown(k, dep, visible);
        if shown {
          lines := ["", "#", "# " + title, "#"];
          afterEnd' := false;
        }
      case EndOf(title, dep, visible) =>
        var shown := IsShown(k, dep, visible);
        if shown {
          lines := ["# end of " + title];
          afterEnd' := true;
        }
    }
  }

  method ConfigContents(k: Kconfig, walk: seq<Stop>) returns (lines: seq<string>)
    requires k.Valid()
    modifies k`memo, k`writes
    ensures k.Valid() && lines == ConfigLines(k.cfg, k.user, walk, {}, false)
  {
    lines := [];
    var visited: set<nat>, afterEnd := {}, false;
    assert walk[0..] == walk;
    for n := 0 to |walk|
      invariant k.Valid()
      invariant ConfigLines(k.cfg, k.user, walk, {}, false) ==
                lines + ConfigLines(k.cfg, k.user, walk[n..], visited, afterEnd)
    {
      assert walk[n..][1..] == walk[n + 1..];
      var more;
      more, visited, afterEnd := VisitStop(k, walk[n..], visited, afterEnd);
      lines := lines + more;
    }
  }

  /** Symbol._str_default(). */
  method ReadStrDefault(k: Kconfig, s: nat) returns (val: string)
    requires k.Valid()
    modifies k`memo, k`writes
    ensures k.Valid() && val == StrDefault(k.cfg, k.user, s)
  {
    var d := SymAt(k.cfg, s);
    if Boolish(d.typ) {
      if d.choice.Some? {
        return "n";
      }
      var v := k.FirstDefaultTri(s);
      var rev := k.EvalExpr(d.revDep);
      var weak := k.EvalExpr(d.weakRevDep);
      v := Max(Max(rev, weak), v);
      if v == 1 {
        var t := k.SymbolType(s);
        if t == BOOL {
          v := 2;
        }
      }
      val := TriStr(v);
    } else if d.typ == UNKNOWN {
      val := "";
    } else {
      var dflt := k.FirstDefaultStr(s);
      val := if dflt.Some? then dflt.value else "";
    }
  }

  method IsFixed(k: Kconfig, s: nat) returns (fixed: bool)
    requires k.Valid()
    modifies k`memo, k`writes
    ensures k.Valid() && fixed == Fixed(k.cfg, k.user, s)
  {
    fixed := false;
    if SymAt(k.cfg, s).choice.None? {
      var vis := k.Visibility(S(s));
      var rev := k.EvalExpr(SymAt(k.cfg, s).revDep);
      fixed := vis <= rev;
    }
  }

  method IsDefaultSelection(k: Kconfig, s: nat) returns (dflt: bool)
    requires k.Valid()
    modifies k`memo, k`writes
    ensures k.Valid() && dflt == DefaultSelection(k.cfg, k.user, s)
  {
    var d := SymAt(k.cfg, s);
    dflt := false;
    if d.choice.Some? && !ChoiceAt(k.cfg, d.choice.value).optional {
      var sel := k.SelectionFromDefaults(d.choice.value);
      if sel == Some(s) && d.typ == BOOL {
        var v := k.TriValue(s);
        dflt := v == 2;
      }
    }
  }

  /** Whether one of the three skip rules applies, tried in the order of the source. */
  method IsSkipped(k: Kconfig, s: nat) returns (skip: bool)
    requires k.Valid()
    modifies k`memo, k`writes
    ensures k.Valid()
    ensures skip == (Fixed(k.cfg, k.user, s) || AtDefault(k.cfg, k.user, s) || DefaultSelection(k.cfg, k.user, s))
  {
    skip := IsFixed(k, s);
    if !skip {
      var val := k.StrValue(s);
      var dflt := ReadStrDefault(k, s);
      skip := val == dflt;
    }
    if !skip {
      skip := IsDefaultSelection(k, s);
    }
  }

  /** What symbol s adds to a minimal configuration. */
  method MinLine(k: Kconfig, s: nat) returns (lines: seq<string>)
    requires k.Valid()
    modifies k`memo, k`writes
    ensures k.Valid()
    ensures lines == if InMinConfig(k.cfg, k.user, s) then [ConfigString(k.cfg, k.user, s).value] else []
  {
    var skip := IsSkipped(k, s);
    if skip {
      return [];
    }
    var line := ReadConfigString(k, s);
    lines := if line.Some? then [line.value] else [];
  }

  method MinConfigContents(k: Kconfig) returns (lines: seq<string>)
    requires k.Valid()
    modifies k`memo, k`writes
    ensures k.Valid() && lines == MinLines(k.cfg, k.user, 0)
  {
    lines := [];
    for s := 0 to |k.cfg.syms|
      invariant k.Valid()
      invariant MinLines(k.cfg, k.user, 0) == lines + MinLines(k.cfg, k.user, s)
    {
      var more := MinLine(k, s);
      assert lines + (more + MinLines(k.cfg, k.user, s + 1)) == (lines + more) + MinLines(k.cfg, k.user, s + 1);
      lines := lines + more;
    }
  }

  method LoadLineInto(k: Kconfig, raw: string)
    requires k.Valid()
    modifies k
    ensures k.Valid()
    ensures Loaded(k.user, k.wasSet) == LoadLine(k.cfg, Loaded(old(k.user), old(k.wasSet)), raw)
  {
    var a := Decode(k.cfg, raw);
    DecodeOk(k.cfg, raw);
    if a.Some? {
      var s, text := a.value.s, a.value.text;
      var d := SymAt(k.cfg, s);
      if Boolish(d.typ) && d.choice.Some? && text != "n" {
        assert Choices.ChoiceSymOk(k.cfg, s);
        var _ := k.SetChoiceMode(d.choice.value, TriOfText(text));
      }
      var _ := k.SetValue(s, Text(text));
    }
  }

  method LoadConfig(k: Kconfig, lines: seq<string>, replace: bool)
    requires k.Valid()
    modifies k
    ensures k.Valid()
    ensures replace ==> k.user == LoadReplace(k.cfg, old(k.user), lines)
    ensures !replace ==> k.user == LoadLines(k.cfg, Loaded(old(k.user), old(k.wasSet)), lines).user
  {
    if replace {
      k.wasSet := {};
    }
    ghost var start := Loaded(k.user, k.wasSet);
    for n := 0 to |lines|
      invariant k.Valid()
      invariant Loaded(k.user, k.wasSet) == LoadLines(k.cfg, start, lines[..n])
    {
      assert lines[..n + 1][..n] == lines[..n];
      LoadLineInto(k, lines[n]);
    }
    assert lines[..|lines|] == lines;
    if replace {
      UnsetOthers(k);
    }
  }

  /** Unsets the symbols and choices that no line has set. */
  method UnsetOthers(k: Kconfig)
    requires k.Valid()
    modifies k`user, k`memo
    ensures k.Valid() && k.user == KeepSet(Loaded(old(k.user), k.wasSet))
  {
    ghost var u := k.user;
    KnownItems(k.cfg, u);
    for s := 0 to |k.cfg.syms|
      invariant k.Valid() && k.user == KeepSyms(u, k.wasSet, s)
    {
      if S(s) !in k.wasSet {
        k.UnsetValue(s);
      }
      KeepSymsStep(u, k.wasSet, s);
    }
    UnsetOtherChoices(k);
    assert k.user == KeepSet(Loaded(u, k.wasSet));
  }

  function KeepSyms(u: User, was: set<Item>, n: nat): User {
    u.(val := map s | s in u.val && (s < n ==> S(s) in was) :: u.val[s])
  }

  function KeepChoices(u: User, was: set<Item>, n: nat): User {
    u.(mode := map c | c in u.mode && (c < n ==> C(c) in was) :: u.mode[c],
       pick := map c | c in u.pick && (c < n ==> C(c) in was) :: u.pick[c])
  }

  lemma KeepSymsStep(u: User, was: set<Item>, s: nat)
    ensures KeepSyms(u, was, s + 1) == if S(s) in was then KeepSyms(u, was, s) else UnsetSym(KeepSyms(u, was, s), s)
  {
    var a, b := KeepSyms(u, was, s + 1).val, KeepSyms(u, was, s).val;
    assert if S(s) in was then a == b else a == b - {s};
  }

  lemma KeepChoicesStep(u: User, was: set<Item>, c: nat)
    ensures KeepChoices(u, was, c + 1) ==
            if C(c) in was then KeepChoices(u, was, c) else UnsetChoice(KeepChoices(u, was, c), c)
  {
    var a, b := KeepChoices(u, was, c + 1), KeepChoices(u, was, c);
    assert if C(c) in was then a.mode == b.mode else a.mode == b.mode - {c};
    assert if C(c) in was then a.pick == b.pick else a.pick == b.pick - {c};
  }

  method UnsetOtherChoices(k: Kconfig)
    requires k.Valid()
    modifies k`user, k`memo
    ensures k.Valid() && k.user == KeepChoices(old(k.user), k.wasSet, |k.cfg.choices|)
  {
    ghost var u := k.user;
    for c := 0 to |k.cfg.choices|
      invariant k.Valid() && k.user == KeepChoices(u, k.wasSet, c)
    {
      UnsetUnlessSet(k, c);
      KeepChoicesStep(u, k.wasSet, c);
    }
  }

  method UnsetUnlessSet(k: Kconfig, c: nat)
    requires k.Valid() && c < |k.cfg.choices|
    modifies k`user, k`memo
    ensures k.Valid() && k.user == if C(c) in k.wasSet then old(k.user) else UnsetChoice(old(k.user), c)
  {
    if C(c) !in k.wasSet {
      k.UnsetChoiceValue(c);
    }
  }

  /** Only defined symbols and choices have user values. */
  lemma KnownItems(cfg: Config, u: User)
    requires UserOk(cfg, u) && Choices.ChoicesOk(cfg)
    ensures forall s :: s in u.val ==> s < |cfg.syms|
    ensures forall c :: c in u.mode || c in u.pick ==> c < |cfg.choices|
  {
    forall c | c in u.pick ensures c < |cfg.choices| {
      assert Choices.ChoiceSymOk(cfg, u.pick[c]);
    }
  }

  // Round trips

  /** Writing the full configuration and reading it back into the same object leaves every value as it was, exactly
      if every symbol survives on its own. */
  method SaveAndReload(k: Kconfig, header: seq<string>, walk: seq<Stop>)
    requires k.Valid() && NamesOk(k.cfg) && TextsOk(k.cfg, k.user)
    requires HeaderOk(k.cfg, header) && WalkOk(k.cfg, walk)
    requires forall s :: 0 <= s < |k.cfg.syms| ==> SymStop(s) in walk
    modifies k
    ensures k.Valid()
    ensures SameValues(k.cfg, old(k.user), k.user) <==> SurvivesSaving(k.cfg, old(k.user), old(k.user), Written(k.cfg, old(k.user)))
    ensures PlainConfig(k.cfg) && ModesKept(k.cfg, old(k.user)) ==> SameValues(k.cfg, old(k.user), k.user)
  {
    var lines := ConfigContents(k, walk);
    SaveThenLoad(k.cfg, k.user, k.user, header, walk);
    LoadConfig(k, SplitLines(JoinLines(header + lines)), true);
  }

  /** So does writing only the minimal configuration. */
  method MinSaveAndReload(k: Kconfig, header: seq<string>)
    requires k.Valid() && NamesOk(k.cfg) && TextsOk(k.cfg, k.user)
    requires HeaderOk(k.cfg, header)
    modifies k
    ensures k.Valid()
    ensures SameValues(k.cfg, old(k.user), k.user) <==> SurvivesSaving(k.cfg, old(k.user), old(k.user), Needed(k.cfg, old(k.user)))
    ensures PlainConfig(k.cfg) && ModesKept(k.cfg, old(k.user)) ==> SameValues(k.cfg, old(k.user), k.user)
  {
    var lines := MinConfigContents(k);
    MinConfigThenLoad(k.cfg, k.user, k.user, header);
    LoadConfig(k, SplitLines(JoinLines(header + lines)), true);
  }
}
