/** The text of .config lines: how values are written, and how lines are taken apart again. */
module DotText {
  import opened KconfigLang

  const PREFIX := "CONFIG_"
  const UNSET_HEAD := "# CONFIG_"
  const UNSET_TAIL := " is not set"

  // Escaping

  function Escape(s: string): string {
    if s == [] then []
    else if s[0] == '\\' || s[0] == '\"' then ['\\', s[0]] + Escape(s[1..])
    else [s[0]] + Escape(s[1..])
  }

  /** A backslash followed by any character but a newline becomes that character. */
  function Unescape(s: string): string {
    if s == [] then []
    else if s[0] == '\\' && |s| >= 2 && s[1] != '\n' then [s[1]] + Unescape(s[2..])
    else [s[0]] + Unescape(s[1..])
  }

  /** The raw contents of a string literal whose opening quote has been consumed: everything up to the first
      quote that is not escaped. */
  function Quoted(s: string): Option<string> {
    if s == [] then None
    else if s[0] == '\"' then Some([])
    else if s[0] == '\\' then
      if |s| >= 2 && s[1] != '\n' then
        var rest := Quoted(s[2..]);
        if rest.Some? then Some(s[..2] + rest.value) else None
      else None
    else
      var rest := Quoted(s[1..]);
      if rest.Some? then Some([s[0]] + rest.value) else None
  }

  function StringLiteral(s: string): Option<string> {
    if s != [] && s[0] == '\"' then Quoted(s[1..]) else None
  }

  lemma {:induction false} UnescapeEscape(s: string)
    ensures Unescape(Escape(s)) == s
  {
    if s != [] {
      UnescapeEscape(s[1..]);
      if s[0] == '\\' || s[0] == '\"' {
        assert Escape(s)[2..] == Escape(s[1..]);
      } else {
        assert Escape(s)[1..] == Escape(s[1..]);
      }
    }
  }

  lemma {:induction false} QuotedEscape(s: string, rest: string)
    ensures Quoted(Escape(s) + "\"" + rest) == Some(Escape(s))
  {
    var t := Escape(s) + "\"" + rest;
    if s != [] {
      QuotedEscape(s[1..], rest);
      if s[0] == '\\' || s[0] == '\"' {
        assert t[2..] == Escape(s[1..]) + "\"" + rest;
        assert t[..2] == ['\\', s[0]];
      } else {
        assert t[1..] == Escape(s[1..]) + "\"" + rest;
      }
    }
  }

  /** Hex values get a 0x prefix unless they have one. */
  function WithPrefix(t: SymType, text: string): string {
    if t == HEX && !("0x" <= text || "0X" <= text) then "0x" + text else text
  }

  // Whitespace and names

  /** The characters Python's str.rstrip() removes. */
  predicate IsSpace(c: char) {
    var n := c as int;
    || 9 <= n <= 13 || 28 <= n <= 32 || n == 0x85 || n == 0xA0 || n == 0x1680 || 0x2000 <= n <= 0x200A
    || n == 0x2028 || n == 0x2029 || n == 0x202F || n == 0x205F || n == 0x3000
  }

  function RStrip(s: string): string {
    if s != [] && IsSpace(s[|s| - 1]) then RStrip(s[..|s| - 1]) else s
  }

  predicate IsNameChar(c: char) {
    'A' <= c <= 'Z' || 'a' <= c <= 'z' || '0' <= c <= '9' || c == '_'
  }

  predicate IsName(s: string) {
    forall k :: 0 <= k < |s| ==> IsNameChar(s[k])
  }

  /** The characters that names of symbols may have. */
  predicate IsSymChar(c: char) {
    IsNameChar(c) || c == '$' || c == '/' || c == '.' || c == '-'
  }

  predicate IsSymName(s: string) {
    forall k :: 0 <= k < |s| ==> IsSymChar(s[k])
  }

  /** The longest prefix of name characters, which is what a key literal matches. */
  function NamePrefix(s: string): string {
    if s != [] && IsNameChar(s[0]) then [s[0]] + NamePrefix(s[1..]) else []
  }

  lemma {:induction false} NamePrefixAll(s: string)
    requires IsName(s)
    ensures NamePrefix(s) == s
  {
    if s != [] { NamePrefixAll(s[1..]); }
  }

  lemma {:induction false} UnescapeName(s: string)
    requires IsName(s)
    ensures Unescape(s) == s
  {
    if s != [] { UnescapeName(s[1..]); }
  }

  /** The first position of c at or after k, or the length of s. */
  function Find(s: string, c: char, k: nat): (r: nat)
    requires k <= |s|
    ensures k <= r <= |s|
    ensures forall j :: k <= j < r ==> s[j] != c
    ensures r < |s| ==> s[r] == c
    decreases |s| - k
  {
    if k == |s| || s[k] == c then k else Find(s, c, k + 1)
  }

  predicate StartsWith(s: string, p: string) {
    p <= s
  }

  // Lines

  datatype Line = SetLine(name: string, val: string) | UnsetLine(name: string) | Other

  function ParseSet(line: string): Option<Line> {
    if !StartsWith(line, PREFIX) then None
    else
      var rest := line[|PREFIX|..];
      var i := Find(rest, '=', 0);
      if i == 0 || i == |rest| then None else Some(SetLine(rest[..i], rest[i + 1..]))
  }

  function ParseUnset(line: string): Option<Line> {
    if !StartsWith(line, UNSET_HEAD) then None
    else
      var rest := line[|UNSET_HEAD|..];
      var i := Find(rest, ' ', 0);
      if i == 0 || !StartsWith(rest[i..], UNSET_TAIL) then None else Some(UnsetLine(rest[..i]))
  }

  /** Assignments are tried before 'is not set' comments; trailing whitespace is dropped first. */
  function ParseLine(raw: string): Line {
    var line := RStrip(raw);
    var set_ := ParseSet(line);
    if set_.Some? then set_.value
    else
      var unset := ParseUnset(line);
      if unset.Some? then unset.value else Other
  }

  lemma FindAfterName(name: string, c: char, rest: string)
    requires IsSymName(name) && !IsSymChar(c)
    ensures Find(name + [c] + rest, c, 0) == |name|
  {
    var s := name + [c] + rest;
    assert s[|name|] == c;
    assert forall j :: 0 <= j < |name| ==> s[j] == name[j];
  }

  lemma ParseSetLine(name: string, val: string)
    requires IsSymName(name) && name != [] && RStrip(val) == val
    ensures ParseLine(PREFIX + name + "=" + val) == SetLine(name, val)
  {
    var line := PREFIX + name + "=" + val;
    assert RStrip(line) == line by {
      if val == [] {
        assert line[|line| - 1] == '=';
      } else {
        assert line[|line| - 1] == val[|val| - 1];
        RStripShrinks(val[..|val| - 1]);
      }
    }
    ParsedSet(name, val);
  }

  lemma ParsedSet(name: string, val: string)
    requires IsSymName(name) && name != []
    ensures ParseSet(PREFIX + name + "=" + val) == Some(SetLine(name, val))
  {
    var line := PREFIX + name + "=" + val;
    var rest := line[|PREFIX|..];
    assert StartsWith(line, PREFIX) && rest == name + ['='] + val;
    FindAfterName(name, '=', val);
    assert rest[..|name|] == name && rest[|name| + 1..] == val;
  }

  lemma RStripShrinks(s: string)
    ensures |RStrip(s)| <= |s|
  {
  }

  lemma ParseUnsetLine(name: string)
    requires IsSymName(name) && name != []
    ensures ParseLine(UNSET_HEAD + name + UNSET_TAIL) == UnsetLine(name)
  {
    var line := UNSET_HEAD + name + UNSET_TAIL;
    assert line[|line| - 1] == 't';
    assert line[0] == '#' && PREFIX[0] == 'C';
    var rest := line[|UNSET_HEAD|..];
    assert rest == name + [' '] + UNSET_TAIL[1..];
    FindAfterName(name, ' ', UNSET_TAIL[1..]);
    assert rest[|name|..] == UNSET_TAIL;
  }
}
