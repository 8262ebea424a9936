/** The preprocessor's in-place macro expander. */
module Macros {
  import opened KconfigLang

  /** A built-in or user-defined function with its argument counts; None stands for a raised error. */
  datatype Fn = Fn(minArgs: nat, maxArgs: Option<nat>, call: seq<string> -> Option<string>)

  /** Variable values, functions, the environment, and Python's int() on macro names. */
  datatype Defs = Defs(vars: map<string, string>, fns: map<string, Fn>, env: map<string, string>, index: string -> Option<int>)

  /** How often a variable may be active at once: functions give up beyond 101 nested expansions. */
  const LIMIT: nat := 101

  // Macro trees

  datatype Text = End | Plain(c: char, rest: Text) | Macro(args: Args, rest: Text)
  datatype Args = Last(arg: Text) | More(arg: Text, next: Args)

  datatype ParsedCall = ParsedCall(args: Args, rest: string)

  predicate AtMacro(t: string) {
    |t| >= 2 && t[0] == '$' && t[1] == '('
  }

  function ConsPlain(c: char, a: Args): Args {
    match a
    case Last(arg) => Last(Plain(c, arg))
    case More(arg, next) => More(Plain(c, arg), next)
  }

  function ConsMacro(m: Args, a: Args): Args {
    match a
    case Last(arg) => Last(Macro(m, arg))
    case More(arg, next) => More(Macro(m, arg), next)
  }

  function NestingAfter(c: char, nesting: nat): nat {
    if c == '(' then nesting + 1 else if c == ')' && nesting > 0 then nesting - 1 else nesting
  }

  /** The rest of a macro call, after its "$(" and with some parentheses already open, up to its end. */
  function ParseCall(t: string, nesting: nat): (r: Option<ParsedCall>)
    ensures r.Some? ==> |r.value.rest| < |t|
    decreases |t|
  {
    if t == [] then None
    else if AtMacro(t) then
      var inner := ParseCall(t[2..], 0);
      if inner.None? then None
      else
        var outer := ParseCall(inner.value.rest, nesting);
        if outer.None? then None else Some(ParsedCall(ConsMacro(inner.value.args, outer.value.args), outer.value.rest))
    else if t[0] == ')' && nesting == 0 then Some(ParsedCall(Last(End), t[1..]))
    else
      var r := ParseCall(t[1..], NestingAfter(t[0], nesting));
      if r.None? then None
      else if t[0] == ',' && nesting == 0 then Some(ParsedCall(More(End, r.value.args), r.value.rest))
      else Some(ParsedCall(ConsPlain(t[0], r.value.args), r.value.rest))
  }

  function ParseWhole(t: string): Option<Text>
    decreases |t|
  {
    if t == [] then Some(End)
    else if AtMacro(t) then
      var call := ParseCall(t[2..], 0);
      if call.None? then None
      else
        var rest := ParseWhole(call.value.rest);
        if rest.None? then None else Some(Macro(call.value.args, rest.value))
    else
      var rest := ParseWhole(t[1..]);
      if rest.None? then None else Some(Plain(t[0], rest.value))
  }

  function Unparse(t: Text): string {
    match t
    case End => ""
    case Plain(c, rest) => [c] + Unparse(rest)
    case Macro(args, rest) => "$(" + UnparseArgs(args) + Unparse(rest)
  }

  function UnparseArgs(a: Args): string {
    match a
    case Last(arg) => Unparse(arg) + ")"
    case More(arg, next) => Unparse(arg) + "," + UnparseArgs(next)
  }

  lemma UnparseCons(c: char, m: Args, a: Args)
    ensures UnparseArgs(ConsPlain(c, a)) == [c] + UnparseArgs(a)
    ensures UnparseArgs(ConsMacro(m, a)) == "$(" + UnparseArgs(m) + UnparseArgs(a)
  {
    var p := "$(" + UnparseArgs(m);
    assert p + Unparse(a.arg) + ")" == p + (Unparse(a.arg) + ")");
    if a.More? {
      assert p + Unparse(a.arg) + "," + UnparseArgs(a.next) == p + (Unparse(a.arg) + "," + UnparseArgs(a.next));
      assert [c] + Unparse(a.arg) + "," + UnparseArgs(a.next) == [c] + (Unparse(a.arg) + "," + UnparseArgs(a.next));
    }
  }

  /** Parsing loses nothing: a call prints back as the text it was parsed from. */
  lemma {:induction false} ParseCallFaithful(t: string, nesting: nat)
    ensures var r := ParseCall(t, nesting); r.Some? ==> UnparseArgs(r.value.args) + r.value.rest == t
    decreases |t|
  {
    if ParseCall(t, nesting).Some? {
      if AtMacro(t) {
        FaithfulMacro(t, nesting);
      } else if t[0] == ')' && nesting == 0 {
        assert UnparseArgs(Last(End)) == ")";
      } else {
        FaithfulChar(t, nesting);
      }
    }
  }

  lemma {:induction false} FaithfulChar(t: string, nesting: nat)
    requires t != [] && !AtMacro(t) && !(t[0] == ')' && nesting == 0) && ParseCall(t, nesting).Some?
    ensures var r := ParseCall(t, nesting).value; UnparseArgs(r.args) + r.rest == t
    decreases |t|, 0
  {
    var r := ParseCall(t[1..], NestingAfter(t[0], nesting)).value;
    ParseCallFaithful(t[1..], NestingAfter(t[0], nesting));
    var all := ParseCall(t, nesting).value;
    if t[0] == ',' && nesting == 0 {
      assert all == ParsedCall(More(End, r.args), r.rest) && Unparse(End) == "";
      assert UnparseArgs(all.args) == "," + UnparseArgs(r.args);
    } else {
      assert all == ParsedCall(ConsPlain(t[0], r.args), r.rest);
      UnparseCons(t[0], r.args, r.args);
    }
    Recons(t, UnparseArgs(r.args), r.rest);
  }

  lemma Recons(t: string, a: string, rest: string)
    requires t != [] && a + rest == t[1..]
    ensures [t[0]] + a + rest == t
  {
    assert [t[0]] + a + rest == [t[0]] + (a + rest);
  }

  lemma Regroup(a: string, b: string, rest: string, t: string)
    requires AtMacro(t) && a + (b + rest) == t[2..]
    ensures "$(" + a + b + rest == t
  {
    assert "$(" + a + b + rest == "$(" + (a + (b + rest)) && t == "$(" + t[2..];
  }

  lemma {:induction false} FaithfulMacro(t: string, nesting: nat)
    requires AtMacro(t)
    ensures var r := ParseCall(t, nesting); r.Some? ==> UnparseArgs(r.value.args) + r.value.rest == t
    decreases |t|, 0
  {
    var inner := ParseCall(t[2..], 0);
    if inner.Some? && ParseCall(inner.value.rest, nesting).Some? {
      var outer := ParseCall(inner.value.rest, nesting).value;
      ParseCallFaithful(t[2..], 0);
      ParseCallFaithful(inner.value.rest, nesting);
      UnparseCons(' ', inner.value.args, outer.args);
      Regroup(UnparseArgs(inner.value.args), UnparseArgs(outer.args), outer.rest, t);
    }
  }

  lemma RegroupWhole(a: string, rest: string, t: string)
    requires AtMacro(t) && a + rest == t[2..]
    ensures "$(" + a + rest == t
  {
    assert "$(" + a + rest == "$(" + (a + rest) && t == "$(" + t[2..];
  }

  lemma {:induction false} ParseWholeFaithful(t: string)
    ensures ParseWhole(t).Some? ==> Unparse(ParseWhole(t).value) == t
    decreases |t|
  {
    if t != [] && ParseWhole(t).Some? {
      if AtMacro(t) {
        var call := ParseCall(t[2..], 0).value;
        var rest := ParseWhole(call.rest).value;
        assert ParseWhole(t).value == Macro(call.args, rest);
        ParseCallFaithful(t[2..], 0);
        ParseWholeFaithful(call.rest);
        RegroupWhole(UnparseArgs(call.args), call.rest, t);
      } else {
        var rest := ParseWhole(t[1..]).value;
        assert ParseWhole(t).value == Plain(t[0], rest);
        ParseWholeFaithful(t[1..]);
        assert [t[0]] + t[1..] == t;
      }
    }
  }

  // Evaluating macro trees

  /** The position a macro name gives into the arguments of the enclosing function, counting from the end for
      negative numbers; None if it is not a number or there is no such argument. */
  function ArgIndex(d: Defs, name: string, args: seq<string>): (r: Option<nat>)
    ensures r.Some? ==> r.value < |args|
  {
    match d.index(name)
    case None => None
    case Some(k) => if 0 <= k < |args| then Some(k) else if -|args| <= k < 0 then Some(|args| + k) else None
  }

  /** Whether variable fn, called with argc macro arguments in all, may be expanded once more: plain variables
      must not refer to themselves, and functions must not nest too deeply. */
  predicate MayExpand(left: multiset<string>, fn: string, argc: nat) {
    if argc == 1 then left[fn] >= LIMIT else left[fn] > 0
  }

  /** left holds how many more times each variable may be expanded inside the current expansions. */
  function EvalText(d: Defs, left: multiset<string>, args: seq<string>, t: Text): Option<string>
    decreases |left|, 2, t, 0
  {
    match t
    case End => Some("")
    case Plain(c, rest) =>
      var r := EvalText(d, left, args, rest);
      if r.None? then None else Some([c] + r.value)
    case Macro(m, rest) =>
      var v := EvalCall(d, left, args, m);
      if v.None? then None
      else
        var r := EvalText(d, left, args, rest);
        if r.None? then None else Some(v.value + r.value)
  }

  function EvalArgs(d: Defs, left: multiset<string>, args: seq<string>, a: Args): (r: Option<seq<string>>)
    ensures r.Some? ==> |r.value| > 0
    decreases |left|, 2, a, 0
  {
    match a
    case Last(arg) =>
      var v := EvalText(d, left, args, arg);
      if v.None? then None else Some([v.value])
    case More(arg, next) =>
      var v := EvalText(d, left, args, arg);
      if v.None? then None
      else
        var r := EvalArgs(d, left, args, next);
        if r.None? then None else Some([v.value] + r.value)
  }

  function EvalCall(d: Defs, left: multiset<string>, args: seq<string>, a: Args): Option<string>
    decreases |left|, 2, a, 1
  {
    var vals := EvalArgs(d, left, args, a);
    if vals.None? then None else CallValue(d, left, args, vals.value)
  }

  /** The value of a macro with evaluated parts vals: an argument of the enclosing function, or else a call. */
  function CallValue(d: Defs, left: multiset<string>, args: seq<string>, vals: seq<string>): Option<string>
    requires |vals| > 0
    decreases |left|, 1
  {
    var k := ArgIndex(d, vals[0], args);
    if k.Some? then Some(args[k.value]) else FnValue(d, left, vals)
  }

  function FnValue(d: Defs, left: multiset<string>, vals: seq<string>): Option<string>
    requires |vals| > 0
    decreases |left|, 0
  {
    var fn := vals[0];
    if fn in d.vars then
      if !MayExpand(left, fn, |vals|) then None else ExpandSpec(d, left - multiset{fn}, d.vars[fn], vals)
    else if fn in d.fns then
      var f := d.fns[fn];
      if |vals| - 1 < f.minArgs || (f.maxArgs.Some? && |vals| - 1 > f.maxArgs.value) then None else f.call(vals)
    else if fn in d.env then Some(d.env[fn])
    else Some("")
  }

  /** Expanding a whole text: parse it into a macro tree, then evaluate the tree. */
  function ExpandSpec(d: Defs, left: multiset<string>, s: string, args: seq<string>): Option<string>
    decreases |left|, 3
  {
    match ParseWhole(s)
    case None => None
    case Some(t) => EvalText(d, left, args, t)
  }

  // What is left to do in the middle of an expansion

  datatype Spliced = Spliced(val: string, rest: string)

  /** The result of a call of which done and the text cur of the current argument have been evaluated, with
      rest still to be read. */
  function CallFrom(d: Defs, left: multiset<string>, args: seq<string>,
                    done: seq<string>, cur: string, nesting: nat, rest: string): Option<Spliced>
  {
    match ParseCall(rest, nesting)
    case None => None
    case Some(call) =>
      match EvalArgs(d, left, args, call.args)
      case None => None
      case Some(vals) =>
        match CallValue(d, left, args, done + [cur + vals[0]] + vals[1..])
        case None => None
        case Some(v) => Some(Spliced(v, call.rest))
  }

  /** The first position at or after i of a parenthesis, a comma or a macro start. */
  function FindSpecial(s: string, i: nat): (r: nat)
    requires i <= |s|
    ensures i <= r <= |s| && (r < |s| ==> s[r] == '(' || s[r] == ')' || s[r] == ',' || AtMacro(s[r..]))
    decreases |s| - i
  {
    if i == |s| || s[i] == '(' || s[i] == ')' || s[i] == ',' || AtMacro(s[i..]) then i else FindSpecial(s, i + 1)
  }

  lemma ConsPlainEval(d: Defs, left: multiset<string>, args: seq<string>, c: char, a: Args)
    ensures var r, r' := EvalArgs(d, left, args, a), EvalArgs(d, left, args, ConsPlain(c, a));
            && (r.None? <==> r'.None?)
            && (r.Some? ==> r'.value == [[c] + r.value[0]] + r.value[1..])
  {
  }

  lemma ConsMacroEval(d: Defs, left: multiset<string>, args: seq<string>, m: Args, a: Args)
    ensures var v, r, r' := EvalCall(d, left, args, m), EvalArgs(d, left, args, a), EvalArgs(d, left, args, ConsMacro(m, a));
            && (r'.None? <==> v.None? || r.None?)
            && (r'.Some? ==> r'.value == [v.value + r.value[0]] + r.value[1..])
  {
  }

  /** Reading one character of an argument. */
  lemma CharStep(d: Defs, left: multiset<string>, args: seq<string>, done: seq<string>, cur: string, nesting: nat, rest: string)
    requires rest != [] && !AtMacro(rest) && !(rest[0] == ')' && nesting == 0) && !(rest[0] == ',' && nesting == 0)
    ensures CallFrom(d, left, args, done, cur, nesting, rest) ==
            CallFrom(d, left, args, done, cur + [rest[0]], NestingAfter(rest[0], nesting), rest[1..])
  {
    var r := ParseCall(rest[1..], NestingAfter(rest[0], nesting));
    if r.Some? {
      ConsPlainEval(d, left, args, rest[0], r.value.args);
      var vals := EvalArgs(d, left, args, r.value.args);
      if vals.Some? {
        assert cur + ([rest[0]] + vals.value[0]) == cur + [rest[0]] + vals.value[0];
      }
    }
  }

  lemma EmptyArgEval(d: Defs, left: multiset<string>, args: seq<string>, a: Args)
    ensures var r := EvalArgs(d, left, args, a);
            EvalArgs(d, left, args, More(End, a)) == if r.None? then None else Some([""] + r.value)
  {
  }

  lemma CommaVals(done: seq<string>, cur: string, vals: seq<string>)
    requires |vals| > 0
    ensures var more := [""] + vals;
            done + [cur + more[0]] + more[1..] == done + [cur] + ["" + vals[0]] + vals[1..]
  {
    assert cur + "" == cur && "" + vals[0] == vals[0];
    assert ([""] + vals)[1..] == vals == [vals[0]] + vals[1..];
  }

  /** Reading the comma that ends an argument. */
  lemma CommaStep(d: Defs, left: multiset<string>, args: seq<string>, done: seq<string>, cur: string, rest: string)
    requires rest != [] && rest[0] == ','
    ensures CallFrom(d, left, args, done, cur, 0, rest) == CallFrom(d, left, args, done + [cur], "", 0, rest[1..])
  {
    var r := ParseCall(rest[1..], 0);
    if r.Some? {
      assert ParseCall(rest, 0) == Some(ParsedCall(More(End, r.value.args), r.value.rest));
      EmptyArgEval(d, left, args, r.value.args);
      var vals := EvalArgs(d, left, args, r.value.args);
      if vals.Some? { CommaVals(done, cur, vals.value); }
    }
  }

  /** Replacing a nested macro by its value: the value becomes part of the argument and is not read again. */
  lemma MacroStep(d: Defs, left: multiset<string>, args: seq<string>, done: seq<string>, cur: string, nesting: nat, rest: string)
    requires AtMacro(rest)
    ensures var inner := CallFrom(d, left, args, [], "", 0, rest[2..]);
            CallFrom(d, left, args, done, cur, nesting, rest) ==
            if inner.None? then None
            else CallFrom(d, left, args, done, cur + inner.value.val, nesting, inner.value.rest)
  {
    var m := ParseCall(rest[2..], 0);
    if m.Some? {
      CallFromStart(d, left, args, rest[2..]);
      var r := ParseCall(m.value.rest, nesting);
      if r.Some? {
        ConsMacroEval(d, left, args, m.value.args, r.value.args);
        var v, vals := EvalCall(d, left, args, m.value.args), EvalArgs(d, left, args, r.value.args);
        if v.Some? && vals.Some? {
          assert cur + (v.value + vals.value[0]) == cur + v.value + vals.value[0];
        }
      }
    }
  }

  /** A call that has just been entered evaluates to the value of its tree. */
  lemma CallFromStart(d: Defs, left: multiset<string>, args: seq<string>, t: string)
    ensures var call := ParseCall(t, 0);
            CallFrom(d, left, args, [], "", 0, t) ==
            if call.None? then None
            else
              var v := EvalCall(d, left, args, call.value.args);
              if v.None? then None else Some(Spliced(v.value, call.value.rest))
  {
    var call := ParseCall(t, 0);
    if call.Some? {
      var vals := EvalArgs(d, left, args, call.value.args);
      if vals.Some? {
        assert "" + vals.value[0] == vals.value[0];
        assert [] + ["" + vals.value[0]] + vals.value[1..] == vals.value;
      }
    }
  }

  /** Reading plain characters up to the next special one. */
  lemma {:induction false} SkipPlain(d: Defs, left: multiset<string>, args: seq<string>,
                                     done: seq<string>, cur: string, nesting: nat, s: string, i: nat)
    requires i <= |s|
    ensures CallFrom(d, left, args, done, cur, nesting, s[i..]) ==
            CallFrom(d, left, args, done, cur + s[i..FindSpecial(s, i)], nesting, s[FindSpecial(s, i)..])
    decreases |s| - i
  {
    var m := FindSpecial(s, i);
    if m == i {
      assert cur + s[i..m] == cur;
    } else {
      var rest := s[i..];
      assert rest[0] == s[i] && rest[1..] == s[i + 1..] && !AtMacro(rest);
      CharStep(d, left, args, done, cur, nesting, rest);
      SkipPlain(d, left, args, done, cur + [s[i]], nesting, s, i + 1);
      assert cur + [s[i]] + s[i + 1..m] == cur + s[i..m];
    }
  }

  /** The expansion of a text whose part before position i has been expanded. */
  function WholeFrom(d: Defs, left: multiset<string>, args: seq<string>, s: string, i: nat): Option<string>
    requires i <= |s|
  {
    match ExpandSpec(d, left, s[i..], args)
    case None => None
    case Some(v) => Some(s[..i] + v)
  }

  lemma WholeEnds(d: Defs, left: multiset<string>, args: seq<string>, s: string)
    ensures WholeFrom(d, left, args, s, 0) == ExpandSpec(d, left, s, args)
    ensures WholeFrom(d, left, args, s, |s|) == Some(s)
  {
    assert s[0..] == s && s[|s|..] == "" && s[..|s|] + "" == s;
    var r := ExpandSpec(d, left, s, args);
    if r.Some? { assert s[..0] + r.value == r.value; }
  }

  function FindMacro(s: string, i: nat): (r: nat)
    requires i <= |s|
    ensures i <= r <= |s| && (r < |s| ==> AtMacro(s[r..]))
    decreases |s| - i
  {
    if i == |s| || AtMacro(s[i..]) then i else FindMacro(s, i + 1)
  }

  lemma ExpandPlain(d: Defs, left: multiset<string>, args: seq<string>, t: string)
    requires t != [] && !AtMacro(t)
    ensures var r := ExpandSpec(d, left, t[1..], args);
            ExpandSpec(d, left, t, args) == if r.None? then None else Some([t[0]] + r.value)
  {
  }

  lemma ExpandAtMacro(d: Defs, left: multiset<string>, args: seq<string>, t: string)
    requires AtMacro(t)
    ensures var inner := CallFrom(d, left, args, [], "", 0, t[2..]);
            ExpandSpec(d, left, t, args) ==
            if inner.None? then None
            else
              var r := ExpandSpec(d, left, inner.value.rest, args);
              if r.None? then None else Some(inner.value.val + r.value)
  {
    CallFromStart(d, left, args, t[2..]);
  }

  lemma Further(s: string, i: nat, v: string)
    requires i < |s|
    ensures s[..i] + ([s[i]] + v) == s[..i + 1] + v
    ensures s[i..][1..] == s[i + 1..] && s[i..][0] == s[i]
  {
  }

  lemma PlainStep(d: Defs, left: multiset<string>, args: seq<string>, s: string, i: nat)
    requires i < |s| && !AtMacro(s[i..])
    ensures WholeFrom(d, left, args, s, i) == WholeFrom(d, left, args, s, i + 1)
  {
    var r := ExpandSpec(d, left, s[i + 1..], args);
    Further(s, i, if r.Some? then r.value else "");
    ExpandPlain(d, left, args, s[i..]);
  }

  lemma {:induction false} SkipToMacro(d: Defs, left: multiset<string>, args: seq<string>, s: string, i: nat)
    requires i <= |s|
    ensures WholeFrom(d, left, args, s, i) == WholeFrom(d, left, args, s, FindMacro(s, i))
    decreases |s| - i
  {
    if i < |s| && !AtMacro(s[i..]) {
      PlainStep(d, left, args, s, i);
      SkipToMacro(d, left, args, s, i + 1);
    }
  }

  lemma WholeStep(d: Defs, left: multiset<string>, args: seq<string>, s: string, i: nat)
    requires i <= |s| && AtMacro(s[i..])
    ensures var inner := CallFrom(d, left, args, [], "", 0, s[i + 2..]);
            WholeFrom(d, left, args, s, i) ==
            if inner.None? then None
            else WholeFrom(d, left, args, s[..i] + inner.value.val + inner.value.rest, i + |inner.value.val|)
  {
    assert s[i..][2..] == s[i + 2..];
    ExpandAtMacro(d, left, args, s[i..]);
    var inner := CallFrom(d, left, args, [], "", 0, s[i + 2..]);
    if inner.Some? {
      var val, rest := inner.value.val, inner.value.rest;
      var s' := s[..i] + val + rest;
      assert s'[i + |val|..] == rest && s'[..i + |val|] == s[..i] + val;
      var r := ExpandSpec(d, left, rest, args);
      if r.Some? { assert s[..i] + (val + r.value) == s[..i] + val + r.value; }
    }
  }

  // The state of the expander in the middle of a call: the text of the current argument starts at argStart, and
  // what comes after i has not been read

  ghost predicate Midway(d: Defs, left: multiset<string>, args: seq<string>, goal: Option<Spliced>,
                         s: string, argStart: nat, i: nat, newArgs: seq<string>, nesting: nat)
  {
    argStart <= i <= |s| && goal == CallFrom(d, left, args, newArgs, s[argStart..i], nesting, s[i..])
  }

  lemma MidwaySkip(d: Defs, left: multiset<string>, args: seq<string>, goal: Option<Spliced>,
                   s: string, argStart: nat, i: nat, newArgs: seq<string>, nesting: nat)
    requires Midway(d, left, args, goal, s, argStart, i, newArgs, nesting)
    ensures Midway(d, left, args, goal, s, argStart, FindSpecial(s, i), newArgs, nesting)
    ensures FindSpecial(s, i) == |s| ==> goal == None
  {
    SkipPlain(d, left, args, newArgs, s[argStart..i], nesting, s, i);
    assert s[argStart..i] + s[i..FindSpecial(s, i)] == s[argStart..FindSpecial(s, i)];
  }

  lemma MidwayChar(d: Defs, left: multiset<string>, args: seq<string>, goal: Option<Spliced>,
                   s: string, argStart: nat, i: nat, newArgs: seq<string>, nesting: nat)
    requires Midway(d, left, args, goal, s, argStart, i, newArgs, nesting) && i < |s|
    requires s[i] == '(' || (nesting > 0 && (s[i] == ')' || s[i] == ','))
    ensures Midway(d, left, args, goal, s, argStart, i + 1, newArgs, NestingAfter(s[i], nesting))
  {
    var rest := s[i..];
    assert rest[0] == s[i] && rest[1..] == s[i + 1..];
    CharStep(d, left, args, newArgs, s[argStart..i], nesting, rest);
    assert s[argStart..i] + [s[i]] == s[argStart..i + 1];
  }

  lemma MidwayComma(d: Defs, left: multiset<string>, args: seq<string>, goal: Option<Spliced>,
                    s: string, argStart: nat, i: nat, newArgs: seq<string>)
    requires Midway(d, left, args, goal, s, argStart, i, newArgs, 0) && i < |s| && s[i] == ','
    ensures Midway(d, left, args, goal, s, i + 1, i + 1, newArgs + [s[argStart..i]], 0)
  {
    var rest := s[i..];
    assert rest[0] == s[i] && rest[1..] == s[i + 1..];
    CommaStep(d, left, args, newArgs, s[argStart..i], rest);
    assert s[i + 1..i + 1] == "";
  }

  lemma MidwayEnd(d: Defs, left: multiset<string>, args: seq<string>, goal: Option<Spliced>,
                  s: string, argStart: nat, i: nat, newArgs: seq<string>)
    requires Midway(d, left, args, goal, s, argStart, i, newArgs, 0) && i < |s| && s[i] == ')'
    ensures goal == LastArg(d, left, args, newArgs + [s[argStart..i]], s[i + 1..])
  {
    var rest := s[i..];
    assert rest[0] == s[i] && rest[1..] == s[i + 1..];
    LastArgIs(d, left, args, newArgs, s[argStart..i], rest);
  }

  lemma MidwayMacro(d: Defs, left: multiset<string>, args: seq<string>, goal: Option<Spliced>,
                    s: string, argStart: nat, i: nat, newArgs: seq<string>, nesting: nat)
    requires Midway(d, left, args, goal, s, argStart, i, newArgs, nesting) && AtMacro(s[i..])
    ensures var inner := CallFrom(d, left, args, [], "", 0, s[i + 2..]);
            if inner.None? then goal == None
            else Midway(d, left, args, goal, s[..i] + inner.value.val + inner.value.rest, argStart,
                        i + |inner.value.val|, newArgs, nesting)
  {
    assert s[i..][2..] == s[i + 2..];
    MacroStep(d, left, args, newArgs, s[argStart..i], nesting, s[i..]);
    var inner := CallFrom(d, left, args, [], "", 0, s[i + 2..]);
    if inner.Some? {
      var val := inner.value.val;
      var s' := s[..i] + val + inner.value.rest;
      assert s'[argStart..i + |val|] == s[argStart..i] + val;
      assert s'[i + |val|..] == inner.value.rest;
    }
  }

  // The expander

  class Preprocessor {
    const defs: Defs
    /** The _n_expansions counters. */
    var counts: map<string, nat>
    /** How many more times each variable may be expanded. */
    ghost var left: multiset<string>

    ghost predicate Valid()
      reads this
    {
      forall v :: v in defs.vars ==> v in counts && counts[v] + left[v] == LIMIT
    }

    constructor (defs: Defs)
      ensures Valid() && this.defs == defs && forall v :: v in defs.vars ==> v in counts && counts[v] == 0
    {
      this.defs := defs;
      counts := map v | v in defs.vars :: 0;
      new;
      left := Fill(defs.vars.Keys);
    }

    /** _expand_macro(): replaces the macro at position i of s by its value, and gives the position after it. */
    method ExpandMacro(s: string, i: nat, args: seq<string>) returns (ok: bool, s': string, i': nat)
      requires Valid() && i <= |s| && AtMacro(s[i..])
      modifies this
      ensures ok ==> Valid() && counts == old(counts) && left == old(left)
      ensures var r := CallFrom(defs, old(left), args, [], "", 0, s[i + 2..]);
              && ok == r.Some?
              && (ok ==> s' == s[..i] + r.value.val + r.value.rest && i' == i + |r.value.val|)
              && (ok ==> |s'| - i' < |s| - i)
      decreases |left|, |s| - i, 2
    {
      s', i' := s, i + 2;
      var argStart: nat, newArgs: seq<string>, nesting: nat := i + 2, [], 0;
      ghost var goal := CallFrom(defs, left, args, [], "", 0, s[i + 2..]);
      assert s'[argStart..i'] == "";
      while true
        invariant Valid() && counts == old(counts) && left == old(left)
        invariant |s'| - i' < |s| - i
        invariant Midway(defs, left, args, goal, s', argStart, i', newArgs, nesting)
        decreases |s'| - i'
      {
        MidwaySkip(defs, left, args, goal, s', argStart, i', newArgs, nesting);
        i' := FindSpecial(s', i');
        if i' == |s'| {
          ok := false;
          return;
        }
        if s'[i'] == ')' && nesting == 0 {
          ok, s', i' := FinishMacro(s, i, args, s', i', argStart, newArgs, goal);
          return;
        } else if s'[i'] == '(' || s'[i'] == ')' || s'[i'] == ',' {
          argStart, newArgs, nesting := StepOver(s', i', args, argStart, newArgs, nesting, goal);
          i' := i' + 1;
        } else {
          ok, s', i' := ExpandInner(s', i', args, argStart, newArgs, nesting, goal);
          if !ok {
            return;
          }
        }
      }
    }

    /** Past a comma or parenthesis inside a call: a comma outside parentheses starts the next argument. */
    method StepOver(s: string, i: nat, args: seq<string>, argStart: nat, newArgs: seq<string>, nesting: nat,
                    ghost goal: Option<Spliced>)
      returns (argStart': nat, newArgs': seq<string>, nesting': nat)
      requires Midway(defs, left, args, goal, s, argStart, i, newArgs, nesting) && i < |s|
      requires s[i] == '(' || s[i] == ',' || (s[i] == ')' && nesting > 0)
      ensures Midway(defs, left, args, goal, s, argStart', i + 1, newArgs', nesting')
    {
      argStart', newArgs', nesting' := argStart, newArgs, nesting;
      if s[i] == ',' && nesting == 0 {
        MidwayComma(defs, left, args, goal, s, argStart, i, newArgs);
        newArgs' := newArgs + [s[argStart..i]];
        argStart' := i + 1;
      } else {
        MidwayChar(defs, left, args, goal, s, argStart, i, newArgs, nesting);
        nesting' := if s[i] == '(' then nesting + 1 else if s[i] == ')' then nesting - 1 else nesting;
      }
    }

    /** Replaces a macro inside a call. */
    method ExpandInner(s: string, i: nat, args: seq<string>, argStart: nat, newArgs: seq<string>, nesting: nat,
                       ghost goal: Option<Spliced>)
      returns (ok: bool, s': string, i': nat)
      requires Valid() && Midway(defs, left, args, goal, s, argStart, i, newArgs, nesting) && AtMacro(s[i..])
      modifies this
      ensures ok ==> Valid() && counts == old(counts) && left == old(left)
      ensures !ok ==> goal == None
      ensures ok ==> |s'| - i' < |s| - i && Midway(defs, left, args, goal, s', argStart, i', newArgs, nesting)
      decreases |left|, |s| - i, 3
    {
      MidwayMacro(defs, left, args, goal, s, argStart, i, newArgs, nesting);
      ok, s', i' := ExpandMacro(s, i, args);
    }

    /** At the closing parenthesis of a macro call: splices its value into the text in place of the call. */
    method FinishMacro(s: string, i: nat, args: seq<string>, t: string, j: nat, argStart: nat, newArgs: seq<string>,
                       ghost goal: Option<Spliced>)
      returns (ok: bool, s': string, i': nat)
      requires Valid() && i <= |s| && j < |t| && |t| - j < |s| - i
      requires Midway(defs, left, args, goal, t, argStart, j, newArgs, 0) && t[j] == ')'
      modifies this
      ensures ok ==> Valid() && counts == old(counts) && left == old(left)
      ensures ok == goal.Some?
      ensures ok ==> s' == s[..i] + goal.value.val + goal.value.rest && i' == i + |goal.value.val|
      ensures ok ==> |s'| - i' < |s| - i
      decreases |left|, 0, 2
    {
      MidwayEnd(defs, left, args, goal, t, argStart, j, newArgs);
      var val;
      ok, val := MacroValue(newArgs + [t[argStart..j]], args);
      s', i' := s[..i] + val + t[j + 1..], i + |val|;
    }

    /** The value of a macro call all of whose parts are known. */
    method MacroValue(vals: seq<string>, args: seq<string>) returns (ok: bool, val: string)
      requires Valid() && |vals| > 0
      modifies this
      ensures ok ==> Valid() && counts == old(counts) && left == old(left)
      ensures var r := CallValue(defs, old(left), args, vals); ok == r.Some? && (ok ==> val == r.value)
      decreases |left|, 0, 1
    {
      var k := ArgIndex(defs, vals[0], args);
      if k.Some? {
        return true, args[k.value];
      }
      ok, val := FnVal(vals);
    }

    /** _fn_val(). */
    method FnVal(vals: seq<string>) returns (ok: bool, val: string)
      requires Valid() && |vals| > 0
      modifies this
      ensures ok ==> Valid() && counts == old(counts) && left == old(left)
      ensures var r := FnValue(defs, old(left), vals); ok == r.Some? && (ok ==> val == r.value)
      decreases |left|, 0, 0
    {
      var fn := vals[0];
      val := "";
      if fn in defs.vars {
        if |vals| == 1 {
          if counts[fn] != 0 {
            return false, "";
          }
        } else if counts[fn] > 100 {
          return false, "";
        }
        ok, val := ExpandVariable(fn, vals);
      } else if fn in defs.fns {
        var f := defs.fns[fn];
        if |vals| - 1 < f.minArgs || (f.maxArgs.Some? && |vals| - 1 > f.maxArgs.value) {
          return false, "";
        }
        var r := f.call(vals);
        if r.None? {
          return false, "";
        }
        ok, val := true, r.value;
      } else {
        ok, val := true, if fn in defs.env then defs.env[fn] else "";
      }
    }

    /** Counts the expansion of variable fn while it lasts. */
    method ExpandVariable(fn: string, vals: seq<string>) returns (ok: bool, val: string)
      requires Valid() && fn in defs.vars && left[fn] > 0
      modifies this
      ensures ok ==> Valid() && counts == old(counts) && left == old(left)
      ensures var r := ExpandSpec(defs, old(left) - multiset{fn}, defs.vars[fn], vals);
              ok == r.Some? && (ok ==> val == r.value)
      decreases |left| - 1, |defs.vars[fn]| + 1, 1
    {
      RaiseCount(fn);
      ok, val := ExpandWhole(defs.vars[fn], vals);
      if ok {
        LowerCount(fn, old(counts), old(left));
      }
    }

    method RaiseCount(fn: string)
      requires Valid() && fn in defs.vars && left[fn] > 0
      modifies this
      ensures Valid() && counts == old(counts)[fn := old(counts)[fn] + 1]
      ensures left == old(left) - multiset{fn} && |left| == |old(left)| - 1
    {
      OneLess(left, fn);
      counts := counts[fn := counts[fn] + 1];
      left := left - multiset{fn};
    }

    method LowerCount(fn: string, ghost before: map<string, nat>, ghost was: multiset<string>)
      requires fn in before && counts == before[fn := before[fn] + 1]
      requires forall v :: v in defs.vars ==> v in before && before[v] + was[v] == LIMIT
      modifies this
      ensures Valid() && counts == before && left == was
    {
      UpAndDown(before, fn);
      counts := counts[fn := counts[fn] - 1];
      left := was;
    }

    /** _expand_whole(): expands every macro in s. */
    method ExpandWhole(s: string, args: seq<string>) returns (ok: bool, val: string)
      requires Valid()
      modifies this
      ensures ok ==> Valid() && counts == old(counts) && left == old(left)
      ensures var r := ExpandSpec(defs, old(left), s, args); ok == r.Some? && (ok ==> val == r.value)
      decreases |left|, |s| + 1, 0
    {
      val := s;
      var i: nat := 0;
      ghost var goal := ExpandSpec(defs, left, s, args);
      WholeEnds(defs, left, args, s);
      while true
        invariant Valid() && counts == old(counts) && left == old(left)
        invariant i <= |val| && |val| - i <= |s| && goal == WholeFrom(defs, left, args, val, i)
        decreases |val| - i
      {
        SkipToMacro(defs, left, args, val, i);
        i := FindMacro(val, i);
        if i == |val| {
          WholeEnds(defs, left, args, val);
          return true, val;
        }
        WholeStep(defs, left, args, val, i);
        ok, val, i := ExpandMacro(val, i, args);
        if !ok {
          return;
        }
      }
    }
  }

  lemma UpAndDown(counts: map<string, nat>, fn: string)
    requires fn in counts
    ensures var up := counts[fn := counts[fn] + 1]; up[fn := up[fn] - 1] == counts
  {
  }

  lemma OneLess(left: multiset<string>, fn: string)
    requires left[fn] > 0
    ensures |left - multiset{fn}| == |left| - 1
    ensures forall v :: (left - multiset{fn})[v] == if v == fn then left[v] - 1 else left[v]
  {
  }

  /** The value of a call whose last argument has just ended. */
  function LastArg(d: Defs, left: multiset<string>, args: seq<string>, vals: seq<string>, rest: string): Option<Spliced>
    requires |vals| > 0
  {
    match CallValue(d, left, args, vals)
    case None => None
    case Some(v) => Some(Spliced(v, rest))
  }

  lemma LastArgIs(d: Defs, left: multiset<string>, args: seq<string>, done: seq<string>, cur: string, rest: string)
    requires rest != [] && rest[0] == ')'
    ensures CallFrom(d, left, args, done, cur, 0, rest) == LastArg(d, left, args, done + [cur], rest[1..])
  {
    assert ParseCall(rest, 0) == Some(ParsedCall(Last(End), rest[1..]));
    assert EvalArgs(d, left, args, Last(End)) == Some([""]);
    assert cur + "" == cur;
    assert done + [cur] + [""][1..] == done + [cur];
  }

  /** LIMIT copies of every name. */
  ghost function Fill(names: set<string>): (m: multiset<string>)
    ensures forall v :: m[v] == if v in names then LIMIT else 0
  {
    if names == {} then multiset{}
    else
      var v :| v in names;
      Fill(names - {v})[v := LIMIT]
  }
}
