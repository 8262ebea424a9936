/** What assigning a value promises, stated by itself: which values each type takes, what is stored, and what the symbol
    then evaluates to. */
module AssignmentLaws {
  import opened KconfigLang
  import opened Evaluation
  import opened Choices
  import opened UserState
  import opened Frames
  import opened Unchanged
  import opened EvaluationLaws

  /** n and y fit a bool, n, m and y a tristate, any text a string or key, decimal numbers an int, and non-negative
      hexadecimal numbers a hex; n, m and y can be given as texts, too. */
  ghost predicate Fits(cfg: Config, t: SymType, v: UserVal) {
    || (t == BOOL && v in {TriVal(0), TriVal(2), Text("n"), Text("y")})
    || (t == TRISTATE && v in {TriVal(0), TriVal(1), TriVal(2), Text("n"), Text("m"), Text("y")})
    || ((t == STRING || t == KEY) && v.Text?)
    || (t == INT && v.Text? && cfg.num.parse(v.text, 10).Some?)
    || (t == HEX && v.Text? && cfg.num.parse(v.text, 16).Some? && cfg.num.parse(v.text, 16).value >= 0)
  }

  /** What is stored for a value that fits. */
  function Stored(t: SymType, v: UserVal): UserVal {
    if t != BOOL && t != TRISTATE then v
    else if v == Text("n") then TriVal(0)
    else if v == Text("m") then TriVal(1)
    else if v == Text("y") then TriVal(2)
    else v
  }

  /** Values are taken exactly if they fit. */
  lemma TakesWhatFits(cfg: Config, u: User, s: nat, v: UserVal)
    requires UserOk(cfg, u)
    ensures Takes(cfg, u, s, v) <==> Fits(cfg, SymAt(cfg, s).typ, v)
    ensures Coerce(SymAt(cfg, s).typ, v) == Stored(SymAt(cfg, s).typ, v)
  {
    assert v.TriVal? ==> v.t == 0 || v.t == 1 || v.t == 2;
  }

  /** A value that does not fit changes nothing; one that fits is stored for its symbol alone, and y given to a choice
      symbol makes it the user selection of its choice. */
  lemma SetSymLaw(cfg: Config, u: User, s: nat, v: UserVal)
    requires UserOk(cfg, u)
    ensures var u', d := SetSym(cfg, u, s, v), SymAt(cfg, s);
            if !Fits(cfg, d.typ, v) then u' == u
            else
              && u'.mode == u.mode
              && u'.val.Keys == u.val.Keys + {s} && u'.val[s] == Stored(d.typ, v)
              && (forall t :: t in u.val && t != s ==> u'.val[t] == u.val[t])
              && if d.choice.Some? && Stored(d.typ, v) == TriVal(2)
                 then u'.pick.Keys == u.pick.Keys + {d.choice.value} && u'.pick[d.choice.value] == s
                      && forall c :: c in u.pick && c != d.choice.value ==> u'.pick[c] == u.pick[c]
                 else u'.pick == u.pick
  {
    TakesWhatFits(cfg, u, s, v);
  }

  /** A choice takes n and y as its mode, and m if it is tristate. */
  lemma SetModeLaw(cfg: Config, u: User, c: nat, m: Tri)
    requires UserOk(cfg, u)
    ensures var u', t := SetMode(cfg, u, c, m), ChoiceAt(cfg, c).typ;
            if t == TRISTATE || (t == BOOL && m != 1)
            then u'.val == u.val && u'.pick == u.pick && u'.mode.Keys == u.mode.Keys + {c} && u'.mode[c] == m
                 && forall b :: b in u.mode && b != c ==> u'.mode[b] == u.mode[b]
            else u' == u
  {
  }

  /** The user states differ in the value of s alone. */
  ghost predicate OnlyIn(u: User, u': User, s: nat) {
    && u.mode == u'.mode && u.pick == u'.pick
    && forall t: nat :: t != s ==> SameVal(u, u', t)
  }

  /** Default n and range r are the first to apply in both states, and are the same. */
  ghost predicate SameInputs(cfg: Config, u: User, u': User, s: nat, n: nat, r: nat)
    requires Sane(cfg, u) && Sane(cfg, u')
  {
    && FirstDefault(cfg, u', s, n) && DefaultText(cfg, u', s, n) == DefaultText(cfg, u, s, n)
    && FirstRange(cfg, u', s, r)
    && (r < |SymAt(cfg, s).ranges| ==>
          LowEnd(cfg, u', s, r) == LowEnd(cfg, u, s, r) && HighEnd(cfg, u', s, r) == HighEnd(cfg, u, s, r))
  }

  lemma AlikeOperand(cfg: Config, u: User, u': User, x: Leaf, top: nat)
    requires AlikeBelow(cfg, u, u', top) && LeafLevel(cfg, x) <= top
    ensures OperandText(cfg, u', x) == OperandText(cfg, u, x)
  {
    AlikeLeaf(cfg, u, u', x, top);
    OperandMeans(cfg, u, x);
    OperandMeans(cfg, u', x);
  }

  /** Visibility, defaults and ranges of a symbol outside choices do not look at its own user value. */
  lemma OwnValueUnread(cfg: Config, u: User, u': User, s: nat, n: nat, r: nat)
    requires Sane(cfg, u) && Sane(cfg, u') && ChoicesOk(cfg) && SymAt(cfg, s).choice.None? && OnlyIn(u, u', s)
    requires FirstDefault(cfg, u, s, n) && FirstRange(cfg, u, s, r)
    ensures Vis(cfg, u', S(s)) == Vis(cfg, u, S(s)) && SameInputs(cfg, u, u', s, n, r)
  {
    var d, top := SymAt(cfg, s), 8 * Rank(cfg, S(s)) + 3;
    assert SymRanked(cfg, s);
    forall t: nat | 8 * Rank(cfg, S(t)) + 4 <= top ensures SymAlike(cfg, u, u', t) {
      assert t != s && SameVal(u, u', t);
    }
    assert AlikeBelow(cfg, u, u', top);
    AlikeVis(cfg, u, u', S(s), top);
    forall k | 0 <= k < |d.defaults| ensures Ev(cfg, u', d.defaults[k].cond) == Ev(cfg, u, d.defaults[k].cond) {
      AlikeExpr(cfg, u, u', d.defaults[k].cond, top);
    }
    forall k | 0 <= k < |d.ranges| ensures Ev(cfg, u', d.ranges[k].cond) == Ev(cfg, u, d.ranges[k].cond) {
      AlikeExpr(cfg, u, u', d.ranges[k].cond, top);
    }
    if n < |d.defaults| && d.defaults[n].value.Atom? { AlikeOperand(cfg, u, u', d.defaults[n].value.leaf, top); }
    if r < |d.ranges| {
      AlikeOperand(cfg, u, u', d.ranges[r].low, top);
      AlikeOperand(cfg, u, u', d.ranges[r].high, top);
    }
  }

  /** The text is a number inside range r, if there is one. */
  predicate InRange(cfg: Config, u: User, s: nat, r: nat, text: string)
    requires Sane(cfg, u)
  {
    r < |SymAt(cfg, s).ranges| ==> LowEnd(cfg, u, s, r) <= NumberIn(cfg, SymAt(cfg, s).typ, text) <= HighEnd(cfg, u, s, r)
  }

  /** u' is u with s set to text. */
  lemma TextSet(cfg: Config, u: User, u': User, s: nat, text: string, n: nat, r: nat)
    requires Sane(cfg, u) && Sane(cfg, u') && ChoicesOk(cfg) && SymAt(cfg, s).choice.None? && OnlyIn(u, u', s)
    requires SymAt(cfg, s).typ in {STRING, KEY, INT, HEX} && Vis(cfg, u, S(s)) != 0
    requires s in u'.val && u'.val[s] == Text(text) && FirstDefault(cfg, u, s, n) && FirstRange(cfg, u, s, r)
    ensures var unset := UnsetSym(u, s);
            && Sane(cfg, unset)
            && if Textual(SymAt(cfg, s).typ) || (text != "" && InRange(cfg, u, s, r, text))
               then StrOf(cfg, u', s) == StrOut(text, !SymAt(cfg, s).isAuto)
               else StrOf(cfg, u', s) == StrOf(cfg, unset, s)
  {
    var unset := UnsetSym(u, s);
    assert OnlyIn(u, unset, s);
    OwnValueUnread(cfg, u, u', s, n, r);
    OwnValueUnread(cfg, u, unset, s, n, r);
    if Textual(SymAt(cfg, s).typ) {
      TextLaw(cfg, u', s, n);
    } else {
      assert UserCounts(cfg, u', s, r) <==> text != "" && InRange(cfg, u, s, r, text);
      NumberLaw(cfg, u', s, n, r);
      NumberLaw(cfg, unset, s, n, r);
    }
  }

  /** A text given to a visible string or key symbol is its value. One given to a visible int or hex symbol is its value
      if it is a number in the range in effect; a number outside it leaves the symbol as if it had no user value; and
      a text that is no number changes nothing. */
  lemma GivenText(cfg: Config, u: User, s: nat, text: string, r: nat)
    requires Sane(cfg, u) && ChoicesOk(cfg) && UserOk(cfg, u) && SymAt(cfg, s).typ in {STRING, KEY, INT, HEX}
    requires Vis(cfg, u, S(s)) != 0 && FirstRange(cfg, u, s, r)
    ensures var u', d, unset := SetSym(cfg, u, s, Text(text)), SymAt(cfg, s), UnsetSym(u, s);
            && Sane(cfg, u') && Sane(cfg, unset)
            && (!Fits(cfg, d.typ, Text(text)) ==> u' == u)
            && (Fits(cfg, d.typ, Text(text)) ==>
                  if Textual(d.typ) || (text != "" && InRange(cfg, u, s, r, text))
                  then StrOf(cfg, u', s) == StrOut(text, !d.isAuto)
                  else StrOf(cfg, u', s) == StrOf(cfg, unset, s))
  {
    var u', d, unset := SetSym(cfg, u, s, Text(text)), SymAt(cfg, s), UnsetSym(u, s);
    assert ChoiceSymOk(cfg, s);
    SetSymLaw(cfg, u, s, Text(text));
    if Fits(cfg, d.typ, Text(text)) {
      var n := FirstDefaultFrom(cfg, u, s, 0);
      TextSet(cfg, u, u', s, text, n, r);
    }
  }
}
