/** What macros stand for: positional arguments, variables, functions and the environment, in terms of the texts that
    get expanded. */
module MacroLaws {
  import opened KconfigLang
  import opened Macros

  /** Text in which no macro starts. */
  predicate NoMacro(s: string) {
    forall k :: 0 <= k < |s| - 1 ==> !(s[k] == '$' && s[k + 1] == '(')
  }

  /** With n parentheses open before it, the text closes them and all of its own, and has commas only inside some. */
  predicate Closes(s: string, n: nat) {
    if s == [] then n == 0
    else if s[0] == '(' then Closes(s[1..], n + 1)
    else if s[0] == ')' then n > 0 && Closes(s[1..], n - 1)
    else (s[0] == ',' ==> n > 0) && Closes(s[1..], n)
  }

  /** What can stand between the commas of a call, without macros of its own. */
  predicate IsPart(s: string) {
    NoMacro(s) && Closes(s, 0)
  }

  predicate AreParts(vals: seq<string>) {
    forall k :: 0 <= k < |vals| ==> IsPart(vals[k])
  }

  function Joined(vals: seq<string>): string
    requires |vals| > 0
  {
    if |vals| == 1 then vals[0] else vals[0] + "," + Joined(vals[1..])
  }

  /** $(name,arg,...) */
  function CallText(vals: seq<string>): string
    requires |vals| > 0
  {
    "$(" + Joined(vals) + ")"
  }

  // Reading calls

  lemma NotAtMacro(s: string, t: string)
    requires NoMacro(s) && s != [] && (t == [] || t[0] != '(')
    ensures !AtMacro(s + t) && (s + t)[0] == s[0] && (s + t)[1..] == s[1..] + t && NoMacro(s[1..])
  {
    if |s| > 1 { assert (s + t)[1] == s[1]; }
  }

  /** A text that closes what is open becomes part of the current argument. */
  lemma {:induction false} ReadPart(d: Defs, left: multiset<string>, args: seq<string>, done: seq<string>, cur: string, n: nat, s: string, t: string)
    requires NoMacro(s) && Closes(s, n) && t != [] && t[0] != '('
    ensures CallFrom(d, left, args, done, cur, n, s + t) == CallFrom(d, left, args, done, cur + s, 0, t)
    decreases |s|
  {
    if s == [] {
      assert s + t == t && cur + s == cur;
    } else {
      var n' := if s[0] == '(' then n + 1 else if s[0] == ')' then n - 1 else n;
      NotAtMacro(s, t);
      CharStep(d, left, args, done, cur, n, s + t);
      ReadPart(d, left, args, done, cur + [s[0]], n', s[1..], t);
      assert cur + [s[0]] + s[1..] == cur + s;
    }
  }

  lemma Reassociate(a: string, b: string, c: string)
    ensures (a + b) + c == a + (b + c)
  {
  }

  lemma JoinedParts(vals: seq<string>, rest: string)
    requires |vals| > 1
    ensures Joined(vals) + ")" + rest == vals[0] + ("," + (Joined(vals[1..]) + ")" + rest))
  {
    var more := Joined(vals[1..]);
    Reassociate(vals[0] + ",", more, ")");
    Reassociate(vals[0] + ",", more + ")", rest);
    Reassociate(vals[0], ",", more + ")" + rest);
  }

  lemma LastPart(d: Defs, left: multiset<string>, args: seq<string>, done: seq<string>, s: string, rest: string)
    requires IsPart(s)
    ensures CallFrom(d, left, args, done, "", 0, s + ")" + rest) == LastArg(d, left, args, done + [s], rest)
  {
    var t := ")" + rest;
    Reassociate(s, ")", rest);
    ReadPart(d, left, args, done, "", 0, s, t);
    assert "" + s == s && t[1..] == rest;
    LastArgIs(d, left, args, done, s, t);
  }

  lemma NextPart(d: Defs, left: multiset<string>, args: seq<string>, done: seq<string>, s: string, more: string)
    requires IsPart(s)
    ensures CallFrom(d, left, args, done, "", 0, s + ("," + more)) == CallFrom(d, left, args, done + [s], "", 0, more)
  {
    var t := "," + more;
    ReadPart(d, left, args, done, "", 0, s, t);
    assert "" + s == s && t[1..] == more;
    CommaStep(d, left, args, done, s, t);
  }

  /** The parts of a call are what stands between its commas. */
  lemma {:induction false} ReadParts(d: Defs, left: multiset<string>, args: seq<string>, done: seq<string>, vals: seq<string>, rest: string)
    requires |vals| > 0 && AreParts(vals)
    ensures CallFrom(d, left, args, done, "", 0, Joined(vals) + ")" + rest) == LastArg(d, left, args, done + vals, rest)
    decreases |vals|
  {
    if |vals| == 1 {
      assert vals == [vals[0]];
      LastPart(d, left, args, done, vals[0], rest);
    } else {
      JoinedParts(vals, rest);
      NextPart(d, left, args, done, vals[0], Joined(vals[1..]) + ")" + rest);
      ReadParts(d, left, args, done + [vals[0]], vals[1..], rest);
      assert done + [vals[0]] + vals[1..] == done + vals;
    }
  }

  lemma {:induction false} ExpandAfterPlain(d: Defs, left: multiset<string>, args: seq<string>, s: string, t: string)
    requires NoMacro(s) && (t == [] || t[0] != '(')
    ensures var r := ExpandSpec(d, left, t, args);
            ExpandSpec(d, left, s + t, args) == if r.None? then None else Some(s + r.value)
    decreases |s|
  {
    var r := ExpandSpec(d, left, t, args);
    if s == [] {
      assert s + t == t;
      if r.Some? { assert s + r.value == r.value; }
    } else {
      NotAtMacro(s, t);
      ExpandPlain(d, left, args, s + t);
      ExpandAfterPlain(d, left, args, s[1..], t);
      if r.Some? { assert [s[0]] + (s[1..] + r.value) == s + r.value; }
    }
  }

  lemma PlainStays(d: Defs, left: multiset<string>, args: seq<string>, s: string)
    requires NoMacro(s)
    ensures ExpandSpec(d, left, s, args) == Some(s)
  {
    ExpandAfterPlain(d, left, args, s, "");
    assert s + "" == s && ExpandSpec(d, left, "", args) == Some("");
  }

  /** A call between texts without macros. */
  lemma CallBetween(d: Defs, left: multiset<string>, args: seq<string>, pre: string, vals: seq<string>, post: string)
    requires |vals| > 0 && AreParts(vals) && NoMacro(pre) && NoMacro(post)
    ensures var v := CallValue(d, left, args, vals);
            ExpandSpec(d, left, pre + CallText(vals) + post, args) == if v.None? then None else Some(pre + v.value + post)
  {
    var t := CallText(vals) + post;
    assert pre + CallText(vals) + post == pre + t;
    ExpandAfterPlain(d, left, args, pre, t);
    assert t[2..] == Joined(vals) + ")" + post;
    ExpandAtMacro(d, left, args, t);
    ReadParts(d, left, args, [], vals, post);
    assert [] + vals == vals;
    PlainStays(d, left, args, post);
    var v := CallValue(d, left, args, vals);
    if v.Some? { assert pre + (v.value + post) == pre + v.value + post; }
  }

  // Positional arguments

  /** The argument that a macro name stands for: $(0) the name of the enclosing function, $(1) its first argument, and so
      on, negative numbers counting from the end. */
  predicate IsPosition(d: Defs, name: string, args: seq<string>, value: string) {
    match d.index(name)
    case None => false
    case Some(k) => (0 <= k < |args| && value == args[k]) || (-|args| <= k < 0 && value == args[|args| + k])
  }

  predicate NoPosition(d: Defs, name: string, args: seq<string>) {
    match d.index(name)
    case None => true
    case Some(k) => k >= |args| || k < -|args|
  }

  /** A number that is a position stands for that argument, whatever else is called so. */
  lemma PositionalArgument(d: Defs, left: multiset<string>, args: seq<string>, pre: string, vals: seq<string>, post: string, value: string)
    requires |vals| > 0 && AreParts(vals) && NoMacro(pre) && NoMacro(post) && IsPosition(d, vals[0], args, value)
    ensures ExpandSpec(d, left, pre + CallText(vals) + post, args) == Some(pre + value + post)
  {
    CallBetween(d, left, args, pre, vals, post);
  }

  /** Anything else is a variable, or else a function, or else in the environment, or else empty. */
  lemma NamedCall(d: Defs, left: multiset<string>, args: seq<string>, vals: seq<string>)
    requires |vals| > 0 && AreParts(vals) && NoPosition(d, vals[0], args)
    ensures var name, r := vals[0], ExpandSpec(d, left, CallText(vals), args);
            if name in d.vars then
              r == if (if |vals| == 1 then left[name] < LIMIT else left[name] == 0) then None
                   else ExpandSpec(d, left - multiset{name}, d.vars[name], vals)
            else if name in d.fns then
              r == if d.fns[name].minArgs <= |vals| - 1 && (d.fns[name].maxArgs.None? || |vals| - 1 <= d.fns[name].maxArgs.value)
                   then d.fns[name].call(vals) else None
            else r == Some(if name in d.env then d.env[name] else "")
  {
    CallBetween(d, left, args, "", vals, "");
    assert "" + CallText(vals) + "" == CallText(vals);
    var v := CallValue(d, left, args, vals);
    if v.Some? { assert "" + v.value + "" == v.value; }
  }

  /** A call of a variable whose value is one positional reference between texts without macros gives that part of the call
      between the same texts. */
  lemma CallOfVariable(d: Defs, left: multiset<string>, args: seq<string>, vals: seq<string>, pre: string, name: string, post: string, value: string)
    requires |vals| > 0 && AreParts(vals) && NoPosition(d, vals[0], args) && vals[0] in d.vars
    requires if |vals| == 1 then left[vals[0]] >= LIMIT else left[vals[0]] > 0
    requires d.vars[vals[0]] == pre + CallText([name]) + post && NoMacro(pre) && IsPart(name) && NoMacro(post)
    requires IsPosition(d, name, vals, value)
    ensures ExpandSpec(d, left, CallText(vals), args) == Some(pre + value + post)
  {
    NamedCall(d, left, args, vals);
    PositionalArgument(d, left - multiset{vals[0]}, vals, pre, [name], post, value);
  }

  /** The same through the in-place expander. */
  method ExpandCall(p: Preprocessor, vals: seq<string>, ghost pre: string, ghost name: string, ghost post: string, ghost value: string)
    returns (ok: bool, val: string)
    requires p.Valid() && |vals| > 0 && AreParts(vals) && NoPosition(p.defs, vals[0], []) && vals[0] in p.defs.vars
    requires p.counts[vals[0]] == 0
    requires p.defs.vars[vals[0]] == pre + CallText([name]) + post && NoMacro(pre) && IsPart(name) && NoMacro(post)
    requires IsPosition(p.defs, name, vals, value)
    modifies p
    ensures ok && val == pre + value + post
  {
    CallOfVariable(p.defs, p.left, [], vals, pre, name, post, value);
    ok, val := p.ExpandWhole(CallText(vals), []);
  }
}
