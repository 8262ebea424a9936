/** sync_deps(): touching the files of the symbols whose autoconf.h line has changed since the last call. */
module SyncDeps {
  import opened KconfigLang
  import opened Evaluation
  import opened Dependents
  import opened DotText
  import opened Loading
  import opened SaveLoad
  import opened KconfigObject
  import DotConfig

  /** The line of autoconf.h for a symbol. */
  function AutoconfLine(cfg: Config, u: User, s: nat): Option<string>
    requires Sane(cfg, u)
  {
    var d, val := SymAt(cfg, s), StrOf(cfg, u, s).val;
    if !WriteOf(cfg, u, s) then None
    else if Boolish(d.typ) then
      if val == "y" then Some("#define CONFIG_" + d.name + " 1")
      else if val == "m" then Some("#define CONFIG_" + d.name + "_MODULE 1")
      else None
    else if d.typ == STRING then Some("#define CONFIG_" + d.name + " \"" + Escape(val) + "\"")
    else Some("#define CONFIG_" + d.name + " " + WithPrefix(d.typ, val))
  }

  // auto.conf

  function OldLine(cfg: Config, u: User, s: nat): Option<string>
    requires Sane(cfg, u)
  {
    if Boolish(SymAt(cfg, s).typ) && TriOf(cfg, u, s).val == 0 then None else ConfigString(cfg, u, s)
  }

  /** _old_vals_contents(), from symbol k on. */
  function OldLines(cfg: Config, u: User, k: nat): seq<string>
    requires Sane(cfg, u) && k <= |cfg.syms|
    decreases |cfg.syms| - k
  {
    if k == |cfg.syms| then []
    else
      var line := OldLine(cfg, u, k);
      (if line.Some? then [line.value] else []) + OldLines(cfg, u, k + 1)
  }

  ghost predicate NoKeys(cfg: Config) {
    forall s: nat :: SymAt(cfg, s).typ != KEY
  }

  /** The effect of one line of auto.conf on the old values. */
  function Recorded(cfg: Config, old_: map<nat, string>, line: string): map<nat, string> {
    var p := ParseSet(line);
    if p.None? then old_
    else
      var s := Lookup(cfg, p.value.name, 0);
      if s.None? then old_
      else if SymAt(cfg, s.value).typ == STRING then
        var lit := StringLiteral(p.value.val);
        if lit.None? then old_ else old_[s.value := Unescape(lit.value)]
      else old_[s.value := p.value.val]
  }

  function AllRecorded(cfg: Config, old_: map<nat, string>, lines: seq<string>): map<nat, string>
    decreases |lines|
  {
    if lines == [] then old_ else AllRecorded(cfg, Recorded(cfg, old_, lines[0]), lines[1..])
  }

  /** The decision of sync_deps() to touch the file of a symbol, given the old values. */
  predicate Flagged(cfg: Config, u: User, old_: map<nat, string>, s: nat)
    requires Sane(cfg, u)
  {
    var val := StrOf(cfg, u, s).val;
    if WriteOf(cfg, u, s) then
      !(s !in old_ && Boolish(SymAt(cfg, s).typ) && val == "n") && !(s in old_ && old_[s] == val)
    else s in old_
  }

  // Reading auto.conf back gives the values written

  ghost predicate ValuesOneLine(cfg: Config, u: User)
    requires Sane(cfg, u)
  {
    forall s: nat :: OneLine(StrOf(cfg, u, s).val)
  }

  function OldVal(cfg: Config, u: User, s: nat): Option<string>
    requires Sane(cfg, u)
  {
    if OldLine(cfg, u, s).Some? then Some(StrOf(cfg, u, s).val) else None
  }

  function RightHandSide(t: SymType, val: string): string {
    if t == STRING then "\"" + Escape(val) + "\"" else val
  }

  lemma OldLineIs(cfg: Config, u: User, s: nat)
    requires Sane(cfg, u) && OldLine(cfg, u, s).Some?
    ensures OldLine(cfg, u, s).value ==
            PREFIX + SymAt(cfg, s).name + "=" + RightHandSide(SymAt(cfg, s).typ, StrOf(cfg, u, s).val)
  {
  }

  lemma WrittenRecorded(cfg: Config, u: User, old_: map<nat, string>, s: nat)
    requires Sane(cfg, u) && NamesOk(cfg) && NoKeys(cfg) && s < |cfg.syms| && OldLine(cfg, u, s).Some?
    ensures Recorded(cfg, old_, OldLine(cfg, u, s).value) == old_[s := StrOf(cfg, u, s).val]
  {
    var d, val := SymAt(cfg, s), StrOf(cfg, u, s).val;
    OldLineIs(cfg, u, s);
    LookupFinds(cfg, s, 0);
    ParsedSet(d.name, RightHandSide(d.typ, val));
    if d.typ == STRING { LiteralRead(val); }
  }

  lemma LiteralRead(val: string)
    ensures var lit := StringLiteral("\"" + Escape(val) + "\""); lit.Some? && Unescape(lit.value) == val
  {
    assert ("\"" + Escape(val) + "\"")[1..] == Escape(val) + "\"" + [];
    QuotedEscape(val, []);
    UnescapeEscape(val);
  }

  /** The old value of s after auto.conf has been read over old_, if its lines start at symbol k. */
  ghost predicate HasOld(cfg: Config, u: User, old_: map<nat, string>, r: map<nat, string>, k: nat, s: nat)
    requires Sane(cfg, u)
  {
    if k <= s < |cfg.syms| && OldVal(cfg, u, s).Some? then s in r && r[s] == OldVal(cfg, u, s).value
    else (s in r <==> s in old_) && (s in r ==> r[s] == old_[s])
  }

  lemma RecordStep(cfg: Config, u: User, old_: map<nat, string>, k: nat)
    requires Sane(cfg, u) && NamesOk(cfg) && NoKeys(cfg) && k < |cfg.syms|
    ensures var next := if OldVal(cfg, u, k).Some? then old_[k := StrOf(cfg, u, k).val] else old_;
            AllRecorded(cfg, old_, OldLines(cfg, u, k)) == AllRecorded(cfg, next, OldLines(cfg, u, k + 1))
  {
    var line := OldLine(cfg, u, k);
    if line.Some? {
      WrittenRecorded(cfg, u, old_, k);
      assert OldLines(cfg, u, k)[1..] == OldLines(cfg, u, k + 1);
    } else {
      assert OldLines(cfg, u, k) == OldLines(cfg, u, k + 1);
    }
  }

  lemma HasOldStep(cfg: Config, u: User, old_: map<nat, string>, r: map<nat, string>, k: nat, s: nat)
    requires Sane(cfg, u) && k < |cfg.syms|
    requires var next := if OldVal(cfg, u, k).Some? then old_[k := StrOf(cfg, u, k).val] else old_;
             HasOld(cfg, u, next, r, k + 1, s)
    ensures HasOld(cfg, u, old_, r, k, s)
  {
  }

  lemma {:induction false} AllWrittenRecorded(cfg: Config, u: User, old_: map<nat, string>, k: nat, s: nat)
    requires Sane(cfg, u) && NamesOk(cfg) && NoKeys(cfg) && k <= |cfg.syms|
    ensures HasOld(cfg, u, old_, AllRecorded(cfg, old_, OldLines(cfg, u, k)), k, s)
    decreases |cfg.syms| - k
  {
    if k < |cfg.syms| {
      RecordStep(cfg, u, old_, k);
      var next := if OldVal(cfg, u, k).Some? then old_[k := StrOf(cfg, u, k).val] else old_;
      AllWrittenRecorded(cfg, u, next, k + 1, s);
      HasOldStep(cfg, u, old_, AllRecorded(cfg, old_, OldLines(cfg, u, k)), k, s);
    }
  }

  lemma {:induction false} OldLinesOneLine(cfg: Config, u: User, k: nat)
    requires Sane(cfg, u) && NamesOk(cfg) && NoKeys(cfg) && ValuesOneLine(cfg, u) && k <= |cfg.syms|
    ensures forall i :: 0 <= i < |OldLines(cfg, u, k)| ==> OneLine(OldLines(cfg, u, k)[i])
    decreases |cfg.syms| - k
  {
    if k < |cfg.syms| {
      OldLinesOneLine(cfg, u, k + 1);
      EscapeOneLine(StrOf(cfg, u, k).val);
    }
  }

  // The main result

  /** Two written hex values that differ only in the 0x prefix. */
  predicate OnlyPrefixDiffers(cfg: Config, u1: User, u2: User, s: nat)
    requires Sane(cfg, u1) && Sane(cfg, u2)
  {
    var a, b := StrOf(cfg, u1, s).val, StrOf(cfg, u2, s).val;
    WriteOf(cfg, u1, s) && WriteOf(cfg, u2, s) && SymAt(cfg, s).typ == HEX && a != b && WithPrefix(HEX, a) == WithPrefix(HEX, b)
  }

  lemma SameTail(head: string, a: string, b: string)
    ensures head + a == head + b <==> a == b
  {
    assert (head + a)[|head|..] == a && (head + b)[|head|..] == b;
  }

  lemma QuotedInjective(head: string, a: string, b: string)
    ensures head + Escape(a) + "\"" == head + Escape(b) + "\"" <==> a == b
  {
    assert head + Escape(a) + "\"" == head + (Escape(a) + "\"") && head + Escape(b) + "\"" == head + (Escape(b) + "\"");
    SameTail(head, Escape(a) + "\"", Escape(b) + "\"");
    if Escape(a) + "\"" == Escape(b) + "\"" {
      assert (Escape(a) + "\"")[..|Escape(a)|] == Escape(a) && (Escape(b) + "\"")[..|Escape(b)|] == Escape(b);
      UnescapeEscape(a);
      UnescapeEscape(b);
    }
  }

  lemma FlaggedBoolish(cfg: Config, u1: User, u2: User, old_: map<nat, string>, s: nat)
    requires Sane(cfg, u1) && Sane(cfg, u2) && Boolish(SymAt(cfg, s).typ)
    requires (s in old_) == OldVal(cfg, u1, s).Some? && (s in old_ ==> old_[s] == OldVal(cfg, u1, s).value)
    ensures Flagged(cfg, u2, old_, s) <==> AutoconfLine(cfg, u1, s) != AutoconfLine(cfg, u2, s)
  {
    var name := SymAt(cfg, s).name;
    SameTail("#define CONFIG_" + name, " 1", "_MODULE 1");
    assert "#define CONFIG_" + name + " 1" == ("#define CONFIG_" + name) + " 1";
  }

  lemma FlaggedText(cfg: Config, u1: User, u2: User, old_: map<nat, string>, s: nat)
    requires Sane(cfg, u1) && Sane(cfg, u2) && !Boolish(SymAt(cfg, s).typ) && SymAt(cfg, s).typ != KEY
    requires (s in old_) == OldVal(cfg, u1, s).Some? && (s in old_ ==> old_[s] == OldVal(cfg, u1, s).value)
    ensures Flagged(cfg, u2, old_, s) <==>
            AutoconfLine(cfg, u1, s) != AutoconfLine(cfg, u2, s) || OnlyPrefixDiffers(cfg, u1, u2, s)
  {
    var d, a, b := SymAt(cfg, s), StrOf(cfg, u1, s).val, StrOf(cfg, u2, s).val;
    QuotedInjective("#define CONFIG_" + d.name + " \"", a, b);
    SameTail("#define CONFIG_" + d.name + " ", WithPrefix(d.typ, a), WithPrefix(d.typ, b));
  }

  /** Between two calls, sync_deps() touches exactly the symbols whose autoconf.h line has changed, and the hex
      symbols whose values differ only in the 0x prefix. */
  lemma TouchedIffChanged(cfg: Config, u1: User, u2: User, s: nat)
    requires Sane(cfg, u1) && Sane(cfg, u2) && NamesOk(cfg) && NoKeys(cfg) && ValuesOneLine(cfg, u1) && s < |cfg.syms|
    ensures var old_ := AllRecorded(cfg, map[], SplitLines(JoinLines(OldLines(cfg, u1, 0))));
            Flagged(cfg, u2, old_, s) <==>
            AutoconfLine(cfg, u1, s) != AutoconfLine(cfg, u2, s) || OnlyPrefixDiffers(cfg, u1, u2, s)
  {
    OldLinesOneLine(cfg, u1, 0);
    SplitJoin(OldLines(cfg, u1, 0));
    AllWrittenRecorded(cfg, u1, map[], 0, s);
    var old_ := AllRecorded(cfg, map[], OldLines(cfg, u1, 0));
    if Boolish(SymAt(cfg, s).typ) { FlaggedBoolish(cfg, u1, u2, old_, s); } else { FlaggedText(cfg, u1, u2, old_, s); }
  }

  // Through the caches

  method LoadOldVals(cfg: Config, lines: seq<string>) returns (old_: map<nat, string>, gone: seq<string>)
    ensures old_ == AllRecorded(cfg, map[], lines)
    ensures forall n :: n in gone <==> exists i :: 0 <= i < |lines| && Unknown(cfg, lines[i], n)
  {
    old_, gone := map[], [];
    for i := 0 to |lines|
      invariant AllRecorded(cfg, old_, lines[i..]) == AllRecorded(cfg, map[], lines)
      invariant forall n :: n in gone <==> exists j :: 0 <= j < i && Unknown(cfg, lines[j], n)
    {
      assert lines[i..][1..] == lines[i + 1..];
      var p := ParseSet(lines[i]);
      if p.Some? && Lookup(cfg, p.value.name, 0).None? {
        gone := gone + [p.value.name];
        assert Unknown(cfg, lines[i], p.value.name);
      }
      old_ := Recorded(cfg, old_, lines[i]);
    }
  }

  /** The line assigns to a symbol that no longer exists. */
  predicate Unknown(cfg: Config, line: string, name: string) {
    var p := ParseSet(line);
    p.Some? && p.value.name == name && Lookup(cfg, name, 0).None?
  }

  method IsFlagged(k: Kconfig, old_: map<nat, string>, s: nat) returns (r: bool)
    requires k.Valid()
    modifies k`memo, k`writes
    ensures k.Valid() && r == Flagged(k.cfg, k.user, old_, s)
  {
    var val := k.StrValue(s);
    assert Current(k.cfg, k.user, k.memo, k.writes, StrQ(s));
    if s in k.writes {
      if s !in old_ && Boolish(SymAt(k.cfg, s).typ) && val == "n" {
        return false;
      }
      return !(s in old_ && old_[s] == val);
    }
    r := s in old_;
  }

  /** sync_deps(), given the contents of auto.conf: the symbols to touch and the new contents. */
  method Sync(k: Kconfig, autoConf: Option<string>) returns (touched: set<nat>, gone: seq<string>, contents: string)
    requires k.Valid() && NoKeys(k.cfg)
    modifies k`memo, k`writes
    ensures k.Valid() && contents == JoinLines(OldLines(k.cfg, k.user, 0))
    ensures var old_ := AllRecorded(k.cfg, map[], if autoConf.Some? then SplitLines(autoConf.value) else []);
            forall s: nat :: s in touched <==> s < |k.cfg.syms| && Flagged(k.cfg, k.user, old_, s)
    ensures var lines := if autoConf.Some? then SplitLines(autoConf.value) else [];
            forall n :: n in gone <==> exists i :: 0 <= i < |lines| && Unknown(k.cfg, lines[i], n)
  {
    var old_;
    old_, gone := LoadOldVals(k.cfg, if autoConf.Some? then SplitLines(autoConf.value) else []);
    touched := {};
    for s := 0 to |k.cfg.syms|
      invariant k.Valid()
      invariant forall t: nat :: t in touched <==> t < s && Flagged(k.cfg, k.user, old_, t)
    {
      var flagged := IsFlagged(k, old_, s);
      touched := if flagged then touched + {s} else touched;
    }
    contents := OldValsContents(k);
  }

  method ReadOldLine(k: Kconfig, s: nat) returns (line: Option<string>)
    requires k.Valid()
    modifies k`memo, k`writes
    ensures k.Valid() && line == OldLine(k.cfg, k.user, s)
  {
    if Boolish(SymAt(k.cfg, s).typ) {
      var t := k.TriValue(s);
      if t == 0 {
        return None;
      }
    }
    line := DotConfig.ReadConfigString(k, s);
  }

  lemma OldLinesStep(cfg: Config, u: User, lines: seq<string>, s: nat)
    requires Sane(cfg, u) && s < |cfg.syms|
    ensures var line := OldLine(cfg, u, s);
            lines + OldLines(cfg, u, s) == (lines + if line.Some? then [line.value] else []) + OldLines(cfg, u, s + 1)
  {
  }

  method OldValsContents(k: Kconfig) returns (contents: string)
    requires k.Valid()
    modifies k`memo, k`writes
    ensures k.Valid() && contents == JoinLines(OldLines(k.cfg, k.user, 0))
  {
    var lines: seq<string> := [];
    ghost var all := OldLines(k.cfg, k.user, 0);
    for s := 0 to |k.cfg.syms|
      invariant k.Valid() && k.user == old(k.user)
      invariant all == lines + OldLines(k.cfg, k.user, s)
    {
      var line := ReadOldLine(k, s);
      OldLinesStep(k.cfg, k.user, lines, s);
      lines := lines + if line.Some? then [line.value] else [];
    }
    assert lines + [] == lines;
    contents := JoinLines(lines);
  }
}
