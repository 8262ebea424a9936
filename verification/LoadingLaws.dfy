/** What each line of a .config file assigns, whoever wrote it. */
module LoadingLaws {
  import opened KconfigLang
  import opened UserState
  import opened DotText
  import opened Loading

  // String literals

  /** A character of a string literal stands for itself, or for the character after a backslash. */
  datatype Piece = Plain(c: char) | Escaped(c: char)

  predicate PieceOk(p: Piece) {
    match p
    case Plain(c) => c != '\\' && c != '\"'
    case Escaped(c) => c != '\n'
  }

  predicate PiecesOk(ps: seq<Piece>) {
    forall k :: 0 <= k < |ps| ==> PieceOk(ps[k])
  }

  function Spelling(ps: seq<Piece>): string {
    if ps == [] then ""
    else (match ps[0] case Plain(c) => [c] case Escaped(c) => ['\\', c]) + Spelling(ps[1..])
  }

  function Meaning(ps: seq<Piece>): string {
    seq(|ps|, k requires 0 <= k < |ps| => ps[k].c)
  }

  /** The right-hand side starts with a string literal that stands for text. */
  ghost predicate SpellsText(rhs: string, text: string) {
    exists ps, rest :: IsLiteral(rhs, ps, rest) && Meaning(ps) == text
  }

  ghost predicate IsLiteral(rhs: string, ps: seq<Piece>, rest: string) {
    PiecesOk(ps) && rhs == "\"" + Spelling(ps) + "\"" + rest
  }

  lemma {:induction false} QuotedPieces(ps: seq<Piece>, rest: string)
    requires PiecesOk(ps)
    ensures Quoted(Spelling(ps) + "\"" + rest) == Some(Spelling(ps))
    decreases |ps|
  {
    if ps != [] {
      var tail := Spelling(ps[1..]) + "\"" + rest;
      QuotedPieces(ps[1..], rest);
      match ps[0] {
        case Plain(c) => assert Spelling(ps) + "\"" + rest == [c] + tail;
        case Escaped(c) =>
          assert Spelling(ps) + "\"" + rest == ['\\', c] + tail;
          assert (['\\', c] + tail)[2..] == tail;
      }
    }
  }

  lemma {:induction false} UnescapePieces(ps: seq<Piece>)
    requires PiecesOk(ps)
    ensures Unescape(Spelling(ps)) == Meaning(ps)
    decreases |ps|
  {
    if ps != [] {
      var tail := Spelling(ps[1..]);
      UnescapePieces(ps[1..]);
      assert Meaning(ps) == [ps[0].c] + Meaning(ps[1..]);
      match ps[0] {
        case Plain(c) => assert Spelling(ps)[1..] == tail;
        case Escaped(c) => assert Spelling(ps)[2..] == tail;
      }
    }
  }

  lemma {:induction false} QuotedHasPieces(s: string) returns (ps: seq<Piece>, rest: string)
    requires Quoted(s).Some?
    ensures PiecesOk(ps) && s == Spelling(ps) + "\"" + rest
    decreases |s|
  {
    if s[0] == '\"' {
      ps, rest := [], s[1..];
    } else if s[0] == '\\' {
      ps, rest := QuotedHasPieces(s[2..]);
      assert s == ['\\', s[1]] + s[2..];
      ps := [Escaped(s[1])] + ps;
    } else {
      ps, rest := QuotedHasPieces(s[1..]);
      assert s == [s[0]] + s[1..];
      ps := [Plain(s[0])] + ps;
    }
  }

  lemma LiteralLaw(rhs: string, text: string)
    ensures SpellsText(rhs, text) <==> StringLiteral(rhs).Some? && Unescape(StringLiteral(rhs).value) == text
  {
    if SpellsText(rhs, text) {
      var ps, rest :| IsLiteral(rhs, ps, rest) && Meaning(ps) == text;
      QuotedPieces(ps, rest);
      UnescapePieces(ps);
      assert rhs[1..] == Spelling(ps) + "\"" + rest;
    }
    if StringLiteral(rhs).Some? && Unescape(StringLiteral(rhs).value) == text {
      var ps, rest := QuotedHasPieces(rhs[1..]);
      QuotedPieces(ps, rest);
      UnescapePieces(ps);
      assert rhs == "\"" + rhs[1..];
      assert IsLiteral(rhs, ps, rest);
    }
  }

  /** w is the longest start of s that consists of letters, digits and underscores. */
  predicate LeadingName(s: string, w: string) {
    w <= s && IsName(w) && (|w| < |s| ==> !IsNameChar(s[|w|]))
  }

  lemma {:induction false} NamePrefixLeads(s: string, w: string)
    ensures LeadingName(s, w) <==> w == NamePrefix(s)
    ensures Unescape(NamePrefix(s)) == NamePrefix(s)
    decreases s
  {
    if s != [] && IsNameChar(s[0]) {
      assert s == [s[0]] + s[1..] && NamePrefix(s)[1..] == NamePrefix(s[1..]);
      NamePrefixLeads(s[1..], if w == [] then [] else w[1..]);
      if w != [] && w[0] == s[0] { assert w == [s[0]] + w[1..] && (w <= s <==> w[1..] <= s[1..]); }
    }
  }

  // Lines

  predicate Blank(s: string) {
    forall k :: 0 <= k < |s| ==> IsSpace(s[k])
  }

  predicate EndsPlain(s: string) {
    s == "" || !IsSpace(s[|s| - 1])
  }

  lemma {:induction false} StripsBlanks(s: string, blanks: string)
    requires s != "" && EndsPlain(s) && Blank(blanks)
    ensures RStrip(s + blanks) == s
    decreases |blanks|
  {
    if blanks == "" {
      assert s + blanks == s;
    } else {
      StripsBlanks(s, blanks[..|blanks| - 1]);
      assert (s + blanks)[..|s + blanks| - 1] == s + blanks[..|blanks| - 1];
    }
  }

  /** The part of a line before trailing whitespace. */
  lemma {:induction false} StripsTo(s: string, more: string) returns (rest: string)
    requires s != "" && EndsPlain(s)
    ensures RStrip(s + more) == s + rest
    decreases |more|
  {
    if more == "" {
      assert s + more == s;
      rest := "";
    } else if IsSpace(more[|more| - 1]) {
      rest := StripsTo(s, more[..|more| - 1]);
      assert (s + more)[..|s + more| - 1] == s + more[..|more| - 1];
    } else {
      rest := more;
    }
  }

  lemma {:induction false} LookupMisses(cfg: Config, name: string, k: nat)
    requires k <= |cfg.syms| && forall s :: 0 <= s < |cfg.syms| ==> cfg.syms[s].name != name
    ensures Lookup(cfg, name, k) == None
    decreases |cfg.syms| - k
  {
    if k < |cfg.syms| { LookupMisses(cfg, name, k + 1); }
  }

  function SetText(name: string, rhs: string, blanks: string): string {
    PREFIX + name + "=" + rhs + blanks
  }

  lemma SetTextParses(name: string, rhs: string, blanks: string)
    requires IsSymName(name) && name != [] && EndsPlain(rhs) && Blank(blanks)
    ensures ParseLine(SetText(name, rhs, blanks)) == SetLine(name, rhs)
  {
    var line := PREFIX + name + "=" + rhs;
    assert EndsPlain(line) by {
      if rhs != "" { assert line[|line| - 1] == rhs[|rhs| - 1]; } else { assert line[|line| - 1] == '='; }
    }
    StripsBlanks(line, blanks);
    ParsedSet(name, rhs);
  }

  predicate StartsWithChar(s: string, c: char) {
    s != "" && s[0] == c
  }

  /** The right-hand side gives the symbol this text: for bool and tristate symbols the first character decides, for
      strings a literal, for keys a leading name, and for others everything is taken. */
  ghost predicate Gives(t: SymType, rhs: string, text: string) {
    match t
    case BOOL => (text == "n" && StartsWithChar(rhs, 'n')) || (text == "y" && StartsWithChar(rhs, 'y'))
    case TRISTATE =>
      || (text == "n" && StartsWithChar(rhs, 'n')) || (text == "m" && StartsWithChar(rhs, 'm'))
      || (text == "y" && StartsWithChar(rhs, 'y'))
    case STRING => SpellsText(rhs, text)
    case KEY => LeadingName(rhs, text)
    case _ => text == rhs
  }

  /** An assignment line, trailing whitespace aside, assigns what its right-hand side gives the named symbol, and
      nothing if that gives nothing. */
  lemma SetLineAssigns(cfg: Config, s: nat, rhs: string, blanks: string, a: Assignment)
    requires NamesOk(cfg) && s < |cfg.syms| && EndsPlain(rhs) && Blank(blanks)
    ensures Decode(cfg, SetText(cfg.syms[s].name, rhs, blanks)) == Some(a) <==>
              a.s == s && Gives(cfg.syms[s].typ, rhs, a.text)
  {
    SetTextParses(cfg.syms[s].name, rhs, blanks);
    LookupFinds(cfg, s, 0);
    match cfg.syms[s].typ {
      case STRING => LiteralLaw(rhs, a.text);
      case KEY => NamePrefixLeads(rhs, a.text);
      case _ =>
    }
  }

  /** 'CONFIG_X is not set', whatever follows it, gives n to bool and tristate symbols and nothing to others. */
  lemma UnsetLineAssigns(cfg: Config, s: nat, more: string)
    requires NamesOk(cfg) && s < |cfg.syms|
    ensures Decode(cfg, UNSET_HEAD + cfg.syms[s].name + UNSET_TAIL + more) ==
            if cfg.syms[s].typ == BOOL || cfg.syms[s].typ == TRISTATE then Some(Assignment(s, "n")) else None
  {
    var name := cfg.syms[s].name;
    var line := UNSET_HEAD + name + UNSET_TAIL;
    assert line[|line| - 1] == 't';
    var more' := StripsTo(line, more);
    var kept := line + more';
    assert kept[0] == '#' && PREFIX[0] == 'C';
    var rest := kept[|UNSET_HEAD|..];
    assert rest == name + [' '] + (UNSET_TAIL[1..] + more');
    FindAfterName(name, ' ', UNSET_TAIL[1..] + more');
    assert rest[|name|..] == UNSET_TAIL + more' && rest[..|name|] == name;
    LookupFinds(cfg, s, 0);
  }

  /** Names that no symbol has, and lines of neither form, assign nothing. */
  lemma OtherLinesAssignNothing(cfg: Config, raw: string, name: string, rhs: string, blanks: string)
    requires forall s :: 0 <= s < |cfg.syms| ==> cfg.syms[s].name != name
    requires IsSymName(name) && name != [] && EndsPlain(rhs) && Blank(blanks)
    ensures Decode(cfg, SetText(name, rhs, blanks)) == None
    ensures !(PREFIX <= raw) && !(UNSET_HEAD <= raw) ==> Decode(cfg, raw) == None
  {
    SetTextParses(name, rhs, blanks);
    LookupMisses(cfg, name, 0);
    StripIsPrefix(raw);
    if PREFIX <= RStrip(raw) { assert PREFIX <= raw; }
    if UNSET_HEAD <= RStrip(raw) { assert UNSET_HEAD <= raw; }
  }

  lemma {:induction false} StripIsPrefix(s: string)
    ensures RStrip(s) <= s
  {
    if s != [] { StripIsPrefix(s[..|s| - 1]); }
  }

  /** After CONFIG_X=n, CONFIG_X=m or CONFIG_X=y, whatever follows the letter, the bool or tristate symbol X has that
      user value; only m for a bool changes nothing. */
  lemma TriLineLoads(cfg: Config, st: Loaded, s: nat, t: Tri, rest: string, blanks: string)
    requires NamesOk(cfg) && UserOk(cfg, st.user) && s < |cfg.syms| && Boolish(cfg.syms[s].typ)
    requires EndsPlain(rest) && Blank(blanks)
    ensures var rhs := ["n", "m", "y"][t] + rest;
            var st' := LoadLine(cfg, st, SetText(cfg.syms[s].name, rhs, blanks));
            if cfg.syms[s].typ == BOOL && t == 1 then st' == st
            else S(s) in st'.was && s in st'.user.val && st'.user.val[s] == TriVal(t)
  {
    var rhs := ["n", "m", "y"][t] + rest;
    assert EndsPlain(rhs) && rhs[0] == ['n', 'm', 'y'][t];
    var a := Assignment(s, ["n", "m", "y"][t]);
    var line := SetText(cfg.syms[s].name, rhs, blanks);
    if cfg.syms[s].typ == BOOL && t == 1 {
      var got := Decode(cfg, line);
      if got.Some? { SetLineAssigns(cfg, s, rhs, blanks, got.value); }
    } else {
      SetLineAssigns(cfg, s, rhs, blanks, a);
      assert Decode(cfg, line) == Some(a);
      ApplySymEffect(cfg, st, a, s);
    }
  }
}
