/** oldconfig: asking for new symbols until a pass changes nothing. */
module OldConfig {
  import opened KconfigLang
  import opened Evaluation
  import opened Choices
  import opened Dependents
  import opened Frames
  import opened UserState
  import opened DotText
  import opened KconfigObject
  import opened Unchanged
  import Assignability

  /** A menu node holding a symbol or choice, and whether it has a prompt. */
  datatype Place = Place(item: Item, prompted: bool)

  // Nothing left to ask

  /** A visible symbol outside y-mode choices that could have other values has a user value. */
  ghost predicate SymSettled(cfg: Config, u: User, s: nat)
    requires Sane(cfg, u)
  {
    && Vis(cfg, u, S(s)) != 0 && |AsgOf(cfg, u, S(s))| != 1
    && !(SymAt(cfg, s).choice.Some? && ModeOf(cfg, u, SymAt(cfg, s).choice.value) == 2)
    ==> s in u.val
  }

  ghost predicate HasOptions(cfg: Config, u: User, c: nat)
    requires Sane(cfg, u)
  {
    exists s :: s in ChoiceAt(cfg, c).syms && Vis(cfg, u, S(s)) == 2
  }

  ghost predicate OthersSet(cfg: Config, u: User, c: nat, syms: seq<nat>)
    requires Sane(cfg, u) && c in u.pick
  {
    forall s :: s in syms && s != u.pick[c] && Vis(cfg, u, S(s)) != 0 ==> s in u.val
  }

  /** A choice with y-visible symbols has a visible user selection, and its other visible symbols have user values. */
  ghost predicate ChoiceSettled(cfg: Config, u: User, c: nat)
    requires Sane(cfg, u)
  {
    HasOptions(cfg, u, c) ==>
      c in u.pick && Vis(cfg, u, S(u.pick[c])) == 2 && OthersSet(cfg, u, c, ChoiceAt(cfg, c).syms)
  }

  ghost predicate Settled(cfg: Config, u: User, i: Item)
    requires Sane(cfg, u)
  {
    match i
    case S(s) => SymSettled(cfg, u, s)
    case C(c) => ChoiceSettled(cfg, u, c)
  }

  /** A step that changes no value and unsettles nothing. */
  ghost predicate Quiet(cfg: Config, u: User, u': User) {
    SameAll(cfg, u, u') && forall i :: Settled(cfg, u, i) ==> Settled(cfg, u', i)
  }

  lemma QuietSteps(cfg: Config, u: User, v: User, w: User)
    requires Quiet(cfg, u, v) && Quiet(cfg, v, w)
    ensures Quiet(cfg, u, w)
  {
  }

  lemma OptionsNeedY(cfg: Config, u: User, c: nat)
    requires Sane(cfg, u) && ChoicesOk(cfg) && HasOptions(cfg, u, c)
    ensures ModeOf(cfg, u, c) == 2
  {
    var s :| s in ChoiceAt(cfg, c).syms && Vis(cfg, u, S(s)) == 2;
    assert ChoiceRanked(cfg, c) && ChoiceSymOk(cfg, s);
    ModeBoundsVisibility(cfg, u, s);
  }

  /** Assignments that change no value, only add user values, and change the user selection only of unsettled
      choices are quiet. */
  lemma QuietIfAlike(cfg: Config, u: User, u': User)
    requires Alike(cfg, u, u') && u.val.Keys <= u'.val.Keys
    requires forall c :: c in u.pick ==> c in u'.pick
    requires forall c :: c in u.pick && HasOptions(cfg, u, c) ==> u'.pick[c] == u.pick[c] || !ChoiceSettled(cfg, u, c)
    ensures Quiet(cfg, u, u')
  {
    AlikeIsSame(cfg, u, u');
    forall i | Settled(cfg, u, i) ensures Settled(cfg, u', i) {
      if i.C? && HasOptions(cfg, u', i.c) {
        assert HasOptions(cfg, u, i.c);
      }
    }
  }

  /** Giving a symbol outside y-mode choices a value that leaves its text as it was is quiet. */
  lemma SymStepQuiet(cfg: Config, u: User, s: nat, v: UserVal)
    requires Ranked(cfg) && ChoicesOk(cfg) && UserOk(cfg, u) && Takes(cfg, u, s, v)
    requires SymAt(cfg, s).choice.Some? ==> ModeOf(cfg, u, SymAt(cfg, s).choice.value) != 2
    requires UserOk(cfg, SetSym(cfg, u, s, v)) && StrOf(cfg, SetSym(cfg, u, s, v), s).val == StrOf(cfg, u, s).val
    ensures Quiet(cfg, u, SetSym(cfg, u, s, v))
  {
    var u' := SetSym(cfg, u, s, v);
    forall t: nat ensures SymAlike(cfg, u, u', t) {
      assert t != s ==> SameVal(u, u', t);
    }
    forall c: nat ensures ChoiceAlike(cfg, u, u', c) {}
    assert Alike(cfg, u, u');
    forall c | c in u.pick && HasOptions(cfg, u, c) ensures u'.pick[c] == u.pick[c] { OptionsNeedY(cfg, u, c); }
    QuietIfAlike(cfg, u, u');
  }

  /** In a y-mode choice, confirming the selection and giving other visible symbols n are quiet. */
  lemma ChoiceStepQuiet(cfg: Config, u: User, c: nat, s: nat, t: Tri)
    requires Ranked(cfg) && ChoicesOk(cfg) && UserOk(cfg, u) && UserOk(cfg, SetSym(cfg, u, s, TriVal(t)))
    requires SymAt(cfg, s).choice == Some(c) && ModeOf(cfg, u, c) == 2 && Vis(cfg, u, S(s)) != 0
    requires t == 0 || (t == 2 && SelOf(cfg, u, c) == Some(s))
    requires t == 2 ==> !ChoiceSettled(cfg, u, c)
    ensures Quiet(cfg, u, SetSym(cfg, u, s, TriVal(t)))
  {
    var u' := SetSym(cfg, u, s, TriVal(t));
    assert ChoiceSymOk(cfg, s);
    VisibilityInYMode(cfg, u, s);
    forall r: nat ensures SymAlike(cfg, u, u', r) {
      assert r != s ==> SameVal(u, u', r);
    }
    forall b: nat ensures ChoiceAlike(cfg, u, u', b) {}
    assert Alike(cfg, u, u');
    QuietIfAlike(cfg, u, u');
  }

  // What an answer means

  /** The text that answer a gives symbol s: its own one if the answer is empty, with 0x before bare hex numbers. */
  function Given(cfg: Config, u: User, s: nat, a: string): string
    requires Sane(cfg, u)
  {
    var text := if a == "" then StrOf(cfg, u, s).val else a;
    if SymAt(cfg, s).typ == HEX && !(|text| >= 2 && text[0] == '0' && (text[1] == 'x' || text[1] == 'X')) then "0x" + text
    else text
  }

  /** The answer asks for help, or is no value for s. */
  ghost predicate Refused(cfg: Config, u: User, s: nat, a: string)
    requires Sane(cfg, u)
  {
    a == "?" || !Takes(cfg, u, s, Text(Given(cfg, u, s, a)))
  }

  /** The answers up to rest have been used up: the last one gave s its value, and those before it were refused. */
  ghost predicate Answered(cfg: Config, u: User, u': User, s: nat, answers: seq<string>, rest: seq<string>)
    requires Sane(cfg, u)
  {
    exists n :: 0 <= n < |answers| && rest == answers[n + 1..] && !Refused(cfg, u, s, answers[n])
                && u' == SetSym(cfg, u, s, Text(Given(cfg, u, s, answers[n])))
                && forall j :: 0 <= j < n ==> Refused(cfg, u, s, answers[j])
  }

  /** The symbol that answer a chooses: the current selection if the answer is empty, else an option by its number. */
  function Chosen(cfg: Config, u: User, c: nat, options: seq<nat>, a: string): Option<nat>
    requires Sane(cfg, u)
  {
    if a == "?" then None
    else if a == "" then SelOf(cfg, u, c)
    else match cfg.num.parse(a, 10)
      case None => None
      case Some(n) => if 1 <= n <= |options| then Some(options[n - 1]) else None
  }

  /** The same for a choice: the last answer chose pick. */
  ghost predicate Picked(cfg: Config, u: User, c: nat, options: seq<nat>, pick: nat, answers: seq<string>, rest: seq<string>)
    requires Sane(cfg, u)
  {
    exists n :: 0 <= n < |answers| && rest == answers[n + 1..] && Chosen(cfg, u, c, options, answers[n]) == Some(pick)
                && forall j :: 0 <= j < n ==> Chosen(cfg, u, c, options, answers[j]) == None
  }

  /** The y-visible symbols, in order. */
  function OptionsIn(cfg: Config, u: User, syms: seq<nat>): seq<nat>
    requires Sane(cfg, u)
  {
    if syms == [] then []
    else OptionsIn(cfg, u, syms[..|syms| - 1]) +
         if Vis(cfg, u, S(syms[|syms| - 1])) == 2 then [syms[|syms| - 1]] else []
  }

  lemma {:induction false} OptionsAre(cfg: Config, u: User, syms: seq<nat>)
    requires Sane(cfg, u)
    ensures forall s :: s in OptionsIn(cfg, u, syms) <==> s in syms && Vis(cfg, u, S(s)) == 2
  {
    if syms != [] {
      assert syms == syms[..|syms| - 1] + [syms[|syms| - 1]];
      OptionsAre(cfg, u, syms[..|syms| - 1]);
    }
  }

  // Asking

  method OptionsOf(k: Kconfig, c: nat) returns (options: seq<nat>)
    requires k.Valid()
    modifies k`memo, k`writes
    ensures k.Valid() && options == OptionsIn(k.cfg, k.user, ChoiceAt(k.cfg, c).syms)
  {
    options := [];
    var syms := ChoiceAt(k.cfg, c).syms;
    for j := 0 to |syms|
      invariant k.Valid() && options == OptionsIn(k.cfg, k.user, syms[..j])
    {
      assert syms[..j + 1][..j] == syms[..j];
      var v := k.Visibility(S(syms[j]));
      if v == 2 {
        options := options + [syms[j]];
      }
    }
    assert syms[..|syms|] == syms;
  }

  /** Whether a choice has a visible user selection and no other visible symbol without a user value. */
  method NothingNew(k: Kconfig, c: nat) returns (r: bool)
    requires k.Valid()
    modifies k`memo, k`writes
    ensures k.Valid()
    ensures r <==> c in k.user.pick && Vis(k.cfg, k.user, S(k.user.pick[c])) == 2
                   && OthersSet(k.cfg, k.user, c, ChoiceAt(k.cfg, c).syms)
  {
    if c !in k.user.pick {
      return false;
    }
    var p := k.user.pick[c];
    var v := k.Visibility(S(p));
    if v != 2 {
      return false;
    }
    var syms := ChoiceAt(k.cfg, c).syms;
    for j := 0 to |syms|
      invariant k.Valid()
      invariant OthersSet(k.cfg, k.user, c, syms[..j])
    {
      var w := k.Visibility(S(syms[j]));
      assert syms[..j + 1] == syms[..j] + [syms[j]];
      if syms[j] != p && w != 0 && syms[j] !in k.user.val {
        return false;
      }
    }
    assert syms[..|syms|] == syms;
    r := true;
  }

  /** Asks for the value of a symbol until an answer is accepted. done is false if the input runs out. */
  method AskSym(k: Kconfig, s: nat, answers: seq<string>) returns (changed: bool, done: bool, rest: seq<string>)
    requires k.Valid() && s < |k.cfg.syms|
    requires SymAt(k.cfg, s).choice.Some? ==> ModeOf(k.cfg, k.user, SymAt(k.cfg, s).choice.value) != 2
    modifies k
    ensures k.Valid() && |rest| <= |answers| && (done ==> |rest| < |answers| && s in k.user.val)
    ensures done && !changed ==> Quiet(k.cfg, old(k.user), k.user)
    ensures done ==> Answered(k.cfg, old(k.user), k.user, s, answers, rest)
    ensures !done ==> rest == [] && k.user == old(k.user) && forall a :: a in answers ==> Refused(k.cfg, k.user, s, a)
    ensures changed <==> done && StrOf(k.cfg, k.user, s).val != StrOf(k.cfg, old(k.user), s).val
  {
    rest, done, changed := answers, false, false;
    for n := 0 to |answers|
      invariant k.Valid() && k.user == old(k.user) && rest == answers[n..] && !changed && !done
      invariant forall j :: 0 <= j < n ==> Refused(k.cfg, k.user, s, answers[j])
    {
      rest := answers[n + 1..];
      if answers[n] == "?" {
        continue;
      }
      changed, done := TryAnswer(k, s, answers[n]);
      if done {
        return;
      }
    }
  }

  method ReadAnswer(k: Kconfig, s: nat, answer: string) returns (val: string)
    requires k.Valid()
    modifies k`memo, k`writes
    ensures k.Valid() && val == Given(k.cfg, k.user, s, answer)
  {
    val := answer;
    if val == "" {
      val := k.StrValue(s);
    }
    var t := k.SymbolType(s);
    val := WithPrefix(t, val);
  }

  /** One answer, other than a call for help. */
  method TryAnswer(k: Kconfig, s: nat, answer: string) returns (changed: bool, ok: bool)
    requires k.Valid() && s < |k.cfg.syms| && answer != "?"
    requires SymAt(k.cfg, s).choice.Some? ==> ModeOf(k.cfg, k.user, SymAt(k.cfg, s).choice.value) != 2
    modifies k
    ensures k.Valid() && ok == !Refused(k.cfg, old(k.user), s, answer)
    ensures ok ==> k.user == SetSym(k.cfg, old(k.user), s, Text(Given(k.cfg, old(k.user), s, answer))) && s in k.user.val
    ensures !ok ==> k.user == old(k.user)
    ensures ok && !changed ==> Quiet(k.cfg, old(k.user), k.user)
    ensures changed <==> ok && StrOf(k.cfg, k.user, s).val != StrOf(k.cfg, old(k.user), s).val
  {
    var val := ReadAnswer(k, s, answer);
    var was := k.StrValue(s);
    ok := k.SetValue(s, Text(val));
    changed := false;
    if ok {
      var now := k.StrValue(s);
      if now == was {
        SymStepQuiet(k.cfg, old(k.user), s, Text(val));
      }
      changed := now != was;
    }
  }

  /** Makes a y-visible symbol the user selection of its choice. */
  method Choose(k: Kconfig, c: nat, pick: nat)
    requires k.Valid() && !ChoiceSettled(k.cfg, k.user, c) && ModeOf(k.cfg, k.user, c) == 2
    requires SymAt(k.cfg, pick).choice == Some(c) && pick < |k.cfg.syms| && Vis(k.cfg, k.user, S(pick)) != 0
    modifies k
    ensures k.Valid() && c in k.user.pick && k.user.pick[c] == pick
    ensures k.user == SetSym(k.cfg, old(k.user), pick, TriVal(2)) && SelOf(k.cfg, k.user, c) == Some(pick)
    ensures SelOf(k.cfg, old(k.user), c) == Some(pick) ==> Quiet(k.cfg, old(k.user), k.user)
  {
    ghost var u := k.user;
    assert ChoiceSymOk(k.cfg, pick);
    var ok := k.SetValue(pick, TriVal(2));
    VisibilityInYMode(k.cfg, u, pick);
    Assignability.ChoiceSymbolRespected(k.cfg, u, pick);
    ChoiceExclusivity(k.cfg, k.user, c, pick);
    if SelOf(k.cfg, u, c) == Some(pick) {
      ChoiceStepQuiet(k.cfg, u, c, pick, 2);
    }
  }

  /** The symbol that an answer chooses. */
  method ReadChoice(k: Kconfig, c: nat, options: seq<nat>, answer: string) returns (pick: Option<nat>)
    requires k.Valid()
    modifies k`memo, k`writes
    ensures k.Valid() && pick == Chosen(k.cfg, k.user, c, options, answer)
  {
    if answer == "?" {
      return None;
    }
    if answer == "" {
      pick := k.Selection(c);
      return;
    }
    var n := k.cfg.num.parse(answer, 10);
    if n.None? || !(1 <= n.value <= |options|) {
      return None;
    }
    pick := Some(options[n.value - 1]);
  }

  lemma ChosenIsVisible(cfg: Config, u: User, c: nat, options: seq<nat>, a: string)
    requires Sane(cfg, u) && ChoicesOk(cfg) && options != [] && Chosen(cfg, u, c, options, a).Some?
    requires forall j :: 0 <= j < |options| ==> options[j] in ChoiceAt(cfg, c).syms && Vis(cfg, u, S(options[j])) == 2
    ensures var pick := Chosen(cfg, u, c, options, a).value;
            && pick < |cfg.syms| && SymAt(cfg, pick).choice == Some(c) && Vis(cfg, u, S(pick)) != 0 && ModeOf(cfg, u, c) == 2
            && (TriOf(cfg, u, pick).val == 2 <==> SelOf(cfg, u, c) == Some(pick))
            && (a == "" ==> SelOf(cfg, u, c) == Some(pick))
  {
    assert HasOptions(cfg, u, c) by { assert options[0] in ChoiceAt(cfg, c).syms; }
    OptionsNeedY(cfg, u, c);
    SelectionIsVisible(cfg, u, c);
    assert ChoiceRanked(cfg, c);
    ChoiceExclusivity(cfg, u, c, Chosen(cfg, u, c, options, a).value);
  }

  /** Asks for a selection until an answer is accepted. */
  method AskChoice(k: Kconfig, c: nat, options: seq<nat>, answers: seq<string>)
    returns (changed: bool, done: bool, rest: seq<string>)
    requires k.Valid() && c < |k.cfg.choices| && options != [] && !ChoiceSettled(k.cfg, k.user, c)
    requires forall j :: 0 <= j < |options| ==>
               options[j] in ChoiceAt(k.cfg, c).syms && Vis(k.cfg, k.user, S(options[j])) == 2
    modifies k
    ensures k.Valid() && |rest| <= |answers| && (done ==> |rest| < |answers|)
    ensures done ==> c in k.user.pick && Picked(k.cfg, old(k.user), c, options, k.user.pick[c], answers, rest)
    ensures done ==> k.user == SetSym(k.cfg, old(k.user), k.user.pick[c], TriVal(2))
    ensures done ==> SelOf(k.cfg, k.user, c) == Some(k.user.pick[c])
    ensures !done ==> rest == [] && k.user == old(k.user)
                      && forall a :: a in answers ==> Chosen(k.cfg, k.user, c, options, a) == None
    ensures changed <==> done && TriOf(k.cfg, old(k.user), k.user.pick[c]).val != 2
    ensures done && !changed ==> Quiet(k.cfg, old(k.user), k.user)
  {
    rest, done, changed := answers, false, false;
    ghost var u := k.user;
    for n := 0 to |answers|
      invariant k.Valid() && k.user == u && rest == answers[n..] && !changed && !done
      invariant forall j :: 0 <= j < n ==> Chosen(k.cfg, u, c, options, answers[j]) == None
    {
      rest := answers[n + 1..];
      var pick := ReadChoice(k, c, options, answers[n]);
      if pick.Some? {
        if answers[n] != "" {
          var t := k.TriValue(pick.value);
          changed := t != 2;
        }
        ChosenIsVisible(k.cfg, u, c, options, answers[n]);
        Choose(k, c, pick.value);
        done := true;
        return;
      }
    }
  }

  /** Gives one symbol of a choice the user value n, unless it is selected or not visible. */
  method SetOther(k: Kconfig, c: nat, s: nat)
    requires k.Valid() && c in k.user.pick && s in ChoiceAt(k.cfg, c).syms
    modifies k
    ensures k.Valid() && k.user.pick == old(k.user.pick) && old(k.user.val.Keys) <= k.user.val.Keys
    ensures OthersDone(k.cfg, old(k.user), k.user, c, [s])
  {
    var v := k.Visibility(S(s));
    if s != k.user.pick[c] && v != 0 {
      ghost var w := k.user;
      var ok := k.SetValue(s, TriVal(0));
      GivenN(k.cfg, w, c, s);
    }
  }

  lemma GivenN(cfg: Config, u: User, c: nat, s: nat)
    requires Ranked(cfg) && ChoicesOk(cfg) && UserOk(cfg, u) && c in u.pick && s in ChoiceAt(cfg, c).syms
    requires s != u.pick[c] && Vis(cfg, u, S(s)) != 0 && UserOk(cfg, SetSym(cfg, u, s, TriVal(0)))
    ensures var v := SetSym(cfg, u, s, TriVal(0));
            && Sane(cfg, v) && v.pick == u.pick && u.val.Keys <= v.val.Keys && OthersDone(cfg, u, v, c, [s])
  {
    assert ChoiceRanked(cfg, c) && ChoiceSymOk(cfg, s);
    if SelOf(cfg, u, c) == Some(u.pick[c]) {
      SelectionIsVisible(cfg, u, c);
      ChoiceStepQuiet(cfg, u, c, s, 0);
    }
  }

  /** From u to v, the visible ones of syms other than the user selection of c have been given n, and nothing else has
      been assigned. */
  ghost predicate OthersAreN(cfg: Config, u: User, v: User, c: nat, syms: seq<nat>)
    requires Sane(cfg, u) && c in u.pick
  {
    && v.pick == u.pick && v.mode == u.mode
    && forall s: nat ::
         if s in syms && s != u.pick[c] && Vis(cfg, u, S(s)) != 0 then s in v.val && v.val[s] == TriVal(0)
         else SameVal(u, v, s)
  }

  /** What SetOthers() has achieved for the first symbols of a choice, if the user selection is the selection. */
  ghost predicate OthersDone(cfg: Config, u: User, v: User, c: nat, syms: seq<nat>)
    requires Sane(cfg, u) && Sane(cfg, v) && c in u.pick
  {
    SelOf(cfg, u, c) == Some(u.pick[c]) ==>
      Quiet(cfg, u, v) && v.pick == u.pick && OthersSet(cfg, v, c, syms) && OthersAreN(cfg, u, v, c, syms)
  }

  lemma OthersStep(cfg: Config, u: User, w: User, v: User, c: nat, syms: seq<nat>, s: nat)
    requires Sane(cfg, u) && Sane(cfg, w) && Sane(cfg, v) && c in u.pick && w.pick == u.pick
    requires OthersDone(cfg, u, w, c, syms) && OthersDone(cfg, w, v, c, [s]) && w.val.Keys <= v.val.Keys
    ensures OthersDone(cfg, u, v, c, syms + [s])
  {
    if SelOf(cfg, u, c) == Some(u.pick[c]) { QuietSteps(cfg, u, w, v); }
  }

  /** Gives the other visible symbols of a choice the user value n, so that they no longer count as new. */
  method SetOthers(k: Kconfig, c: nat)
    requires k.Valid() && c in k.user.pick
    modifies k
    ensures k.Valid() && k.user.pick == old(k.user.pick)
    ensures OthersDone(k.cfg, old(k.user), k.user, c, ChoiceAt(k.cfg, c).syms)
  {
    ghost var u := k.user;
    var syms := ChoiceAt(k.cfg, c).syms;
    for j := 0 to |syms|
      invariant k.Valid() && k.user.pick == u.pick
      invariant OthersDone(k.cfg, u, k.user, c, syms[..j])
    {
      ghost var w := k.user;
      SetOther(k, c, syms[j]);
      assert syms[..j + 1] == syms[..j] + [syms[j]];
      OthersStep(k.cfg, u, w, k.user, c, syms[..j], syms[j]);
    }
    assert syms[..|syms|] == syms;
  }

  /** A visible symbol or choice at a prompt is asked for: a symbol outside y-mode choices if the user has not set it
      and it has another value, a choice if it has y-visible symbols and something new. */
  ghost predicate Asks(cfg: Config, u: User, p: Place)
    requires Sane(cfg, u)
  {
    && p.prompted && Vis(cfg, u, p.item) != 0
    && match p.item
       case S(s) => s !in u.val && |AsgOf(cfg, u, S(s))| != 1
                    && !(SymAt(cfg, s).choice.Some? && ModeOf(cfg, u, SymAt(cfg, s).choice.value) == 2)
       case C(c) => HasOptions(cfg, u, c) && !ChoiceSettled(cfg, u, c)
  }

  ghost predicate GaveNs(cfg: Config, u: User, v: User, c: nat)
    requires Ranked(cfg)
  {
    Sane(cfg, u) && c in u.pick && OthersAreN(cfg, u, v, c, ChoiceAt(cfg, c).syms)
  }

  /** What asking makes of the answers: for a choice, the chosen symbol becomes the user selection, and the other
      visible ones are given n. */
  ghost predicate Obeys(cfg: Config, u: User, u': User, i: Item, answers: seq<string>, rest: seq<string>)
    requires Sane(cfg, u) && Sane(cfg, u')
  {
    match i
    case S(s) => Answered(cfg, u, u', s, answers, rest)
    case C(c) =>
      && c in u'.pick
      && Picked(cfg, u, c, OptionsIn(cfg, u, ChoiceAt(cfg, c).syms), u'.pick[c], answers, rest)
      && GaveNs(cfg, SetSym(cfg, u, u'.pick[c], TriVal(2)), u', c)
  }

  /** One visit: nothing happens unless there is something to ask. */
  ghost predicate Visited(cfg: Config, u: User, u': User, p: Place, answers: seq<string>, rest: seq<string>)
    requires Sane(cfg, u) && Sane(cfg, u')
  {
    if Asks(cfg, u, p) then Obeys(cfg, u, u', p.item, answers, rest) else u' == u && rest == answers
  }

  /** Visits to all places in turn, each with the answers that the one before has left. */
  ghost predicate VisitedAll(cfg: Config, u: User, u': User, places: seq<Place>, answers: seq<string>, rest: seq<string>)
    requires Sane(cfg, u) && Sane(cfg, u')
    decreases |places|
  {
    if places == [] then u' == u && rest == answers
    else
      var init, last := places[..|places| - 1], places[|places| - 1];
      exists v, r :: Sane(cfg, v) && VisitedAll(cfg, u, v, init, answers, r) && Visited(cfg, v, u', last, r, rest)
  }

  /** oldconfig(): asks for one symbol or choice, if there is something to ask. */
  method Visit(k: Kconfig, p: Place, answers: seq<string>) returns (changed: bool, done: bool, rest: seq<string>)
    requires k.Valid() && p.item in AllItems(k.cfg)
    modifies k
    ensures k.Valid() && |rest| <= |answers| && (done && changed ==> |rest| < |answers|)
    ensures done && !changed ==>
              Quiet(k.cfg, old(k.user), k.user) && (p.prompted ==> Settled(k.cfg, k.user, p.item))
    ensures !Asks(k.cfg, old(k.user), p) ==> done && !changed
    ensures done ==> Visited(k.cfg, old(k.user), k.user, p, answers, rest)
  {
    changed, done, rest := false, true, answers;
    var vis := k.Visibility(p.item);
    if vis == 0 || !p.prompted {
      InvisibleSettled(k.cfg, k.user, p.item);
      return;
    }
    match p.item
    case S(s) =>
      if s in k.user.val {
        return;
      }
      var vals := k.Assignable(S(s));
      if |vals| == 1 {
        return;
      }
      if SymAt(k.cfg, s).choice.Some? {
        var mode := k.ChoiceMode(SymAt(k.cfg, s).choice.value);
        if mode == 2 {
          return;
        }
      }
      changed, done, rest := AskSym(k, s, answers);
    case C(c) =>
      changed, done, rest := VisitChoice(k, c, answers);
  }

  lemma InvisibleSettled(cfg: Config, u: User, i: Item)
    requires Sane(cfg, u) && ChoicesOk(cfg)
    ensures Vis(cfg, u, i) == 0 ==> Settled(cfg, u, i)
  {
    if i.C? && HasOptions(cfg, u, i.c) {
      OptionsNeedY(cfg, u, i.c);
    }
  }

  method VisitChoice(k: Kconfig, c: nat, answers: seq<string>) returns (changed: bool, done: bool, rest: seq<string>)
    requires k.Valid() && c < |k.cfg.choices|
    modifies k
    ensures k.Valid() && |rest| <= |answers| && (done && changed ==> |rest| < |answers|)
    ensures done && !changed ==> Quiet(k.cfg, old(k.user), k.user) && ChoiceSettled(k.cfg, k.user, c)
    ensures !HasOptions(k.cfg, old(k.user), c) || ChoiceSettled(k.cfg, old(k.user), c) ==>
              done && !changed && k.user == old(k.user) && rest == answers
    ensures HasOptions(k.cfg, old(k.user), c) && !ChoiceSettled(k.cfg, old(k.user), c) && done ==>
              Obeys(k.cfg, old(k.user), k.user, C(c), answers, rest)
  {
    changed, done, rest := false, true, answers;
    var known := NothingNew(k, c);
    if known {
      return;
    }
    var options := OptionsOf(k, c);
    OptionsAre(k.cfg, k.user, ChoiceAt(k.cfg, c).syms);
    if options == [] {
      assert !HasOptions(k.cfg, k.user, c) by {
        assert forall s :: s in ChoiceAt(k.cfg, c).syms ==> s !in options && Vis(k.cfg, k.user, S(s)) != 2;
      }
      return;
    }
    assert HasOptions(k.cfg, k.user, c) by { assert options[0] in options; }
    changed, done, rest := AskNew(k, c, options, answers);
  }

  /** Asks for a selection, and gives the other visible symbols n. */
  method AskNew(k: Kconfig, c: nat, options: seq<nat>, answers: seq<string>)
    returns (changed: bool, done: bool, rest: seq<string>)
    requires k.Valid() && c < |k.cfg.choices| && !ChoiceSettled(k.cfg, k.user, c) && options != []
    requires options == OptionsIn(k.cfg, k.user, ChoiceAt(k.cfg, c).syms)
    modifies k
    ensures k.Valid() && |rest| <= |answers| && (done && changed ==> |rest| < |answers|)
    ensures done ==> ChoiceSettled(k.cfg, k.user, c) && Obeys(k.cfg, old(k.user), k.user, C(c), answers, rest)
    ensures done && !changed ==> Quiet(k.cfg, old(k.user), k.user)
  {
    ghost var u := k.user;
    OptionsAre(k.cfg, u, ChoiceAt(k.cfg, c).syms);
    assert forall j :: 0 <= j < |options| ==> options[j] in options;
    changed, done, rest := AskChoice(k, c, options, answers);
    if !done {
      return;
    }
    ghost var w := k.user;
    SetOthers(k, c);
    SelectionIsVisible(k.cfg, w, c);
    assert ChoiceSymOk(k.cfg, w.pick[c]);
    VisibilityInYMode(k.cfg, w, w.pick[c]);
    if !changed {
      QuietSteps(k.cfg, u, w, k.user);
    }
  }

  /** What visiting the given places has come to. */
  ghost predicate Swept(cfg: Config, u: User, v: User, places: seq<Place>, answers: seq<string>, rest: seq<string>, changed: bool) {
    && Sane(cfg, u) && Sane(cfg, v) && VisitedAll(cfg, u, v, places, answers, rest)
    && |rest| <= |answers| && (changed ==> |rest| < |answers|)
    && (!changed ==> Quiet(cfg, u, v) && AllSettled(cfg, v, places))
  }

  ghost predicate AllSettled(cfg: Config, u: User, places: seq<Place>)
    requires Sane(cfg, u)
  {
    forall j :: 0 <= j < |places| && places[j].prompted ==> Settled(cfg, u, places[j].item)
  }

  lemma SweptOneMore(cfg: Config, u: User, v: User, w: User, places: seq<Place>, n: nat, answers: seq<string>,
                     r: seq<string>, rest: seq<string>, changed: bool, c: bool)
    requires n < |places| && Swept(cfg, u, v, places[..n], answers, r, changed) && Sane(cfg, w)
    requires Visited(cfg, v, w, places[n], r, rest) && |rest| <= |r| && (c ==> |rest| < |r|)
    requires !c ==> Quiet(cfg, v, w) && (places[n].prompted ==> Settled(cfg, w, places[n].item))
    ensures Swept(cfg, u, w, places[..n + 1], answers, rest, changed || c)
  {
    var more := places[..n + 1];
    assert more[..|more| - 1] == places[..n] && more[|more| - 1] == places[n];
    if !changed && !c {
      QuietSteps(cfg, u, v, w);
      forall j | 0 <= j < |more| && more[j].prompted ensures Settled(cfg, w, more[j].item) {
        if j < n { assert places[..n][j] == more[j]; }
      }
    }
  }

  method VisitNext(k: Kconfig, ghost u: User, places: seq<Place>, n: nat, ghost answers: seq<string>, rest: seq<string>, changed: bool)
    returns (changed': bool, done: bool, rest': seq<string>)
    requires k.Valid() && n < |places| && places[n].item in AllItems(k.cfg)
    requires Swept(k.cfg, u, k.user, places[..n], answers, rest, changed)
    modifies k
    ensures k.Valid() && |rest'| <= |answers|
    ensures done ==> Swept(k.cfg, u, k.user, places[..n + 1], answers, rest', changed')
  {
    ghost var v := k.user;
    var c;
    c, done, rest' := Visit(k, places[n], rest);
    changed' := changed || c;
    if done {
      SweptOneMore(k.cfg, u, v, k.user, places, n, answers, rest, rest', changed, c);
    }
  }

  /** One pass over the menu. If it reports no change, no value has changed, and nothing it saw is left to ask. */
  method Pass(k: Kconfig, places: seq<Place>, answers: seq<string>) returns (changed: bool, done: bool, rest: seq<string>)
    requires k.Valid() && forall j :: 0 <= j < |places| ==> places[j].item in AllItems(k.cfg)
    modifies k
    ensures k.Valid() && |rest| <= |answers| && (done && changed ==> |rest| < |answers|)
    ensures done && !changed ==> SameAll(k.cfg, old(k.user), k.user) && AllSettled(k.cfg, k.user, places)
    ensures done ==> VisitedAll(k.cfg, old(k.user), k.user, places, answers, rest)
  {
    changed, done, rest := false, true, answers;
    ghost var u := k.user;
    for j := 0 to |places|
      invariant k.Valid() && done && Swept(k.cfg, u, k.user, places[..j], answers, rest, changed)
    {
      changed, done, rest := VisitNext(k, u, places, j, answers, rest, changed);
      if !done {
        return;
      }
    }
    assert places[..|places|] == places;
  }

  /** Every symbol and choice with a prompt is asked for at some node with a prompt. */
  ghost predicate Covers(cfg: Config, places: seq<Place>) {
    && (forall j :: 0 <= j < |places| ==> places[j].item in AllItems(cfg))
    && (forall i, n :: i in AllItems(cfg) && 0 <= n < |NodesOf(cfg, i)| && NodesOf(cfg, i)[n].prompt.Some? ==>
                         Place(i, true) in places)
  }

  lemma AllItemsSettled(cfg: Config, u: User, places: seq<Place>, i: Item)
    requires Sane(cfg, u) && ChoicesOk(cfg) && Covers(cfg, places) && i in AllItems(cfg)
    requires AllSettled(cfg, u, places)
    ensures Settled(cfg, u, i)
  {
    if Vis(cfg, u, i) == 0 {
      InvisibleSettled(cfg, u, i);
    } else {
      var n := PromptWitness(cfg, u, i, |NodesOf(cfg, i)|);
      assert Place(i, true) in places;
    }
  }

  /** n passes one after the other, each with the answers that the one before has left. */
  ghost predicate Passed(cfg: Config, u: User, u': User, places: seq<Place>, answers: seq<string>, rest: seq<string>, n: nat)
    requires Sane(cfg, u) && Sane(cfg, u')
    decreases n
  {
    if n == 0 then u' == u && rest == answers
    else exists v, r :: Sane(cfg, v) && Passed(cfg, u, v, places, answers, r, n - 1) && VisitedAll(cfg, v, u', places, r, rest)
  }

  lemma OnePass(cfg: Config, u: User, v: User, u': User, places: seq<Place>, answers: seq<string>, r: seq<string>, rest: seq<string>, n: nat)
    requires Sane(cfg, u) && Sane(cfg, v) && Sane(cfg, u')
    requires Passed(cfg, u, v, places, answers, r, n) && VisitedAll(cfg, v, u', places, r, rest)
    ensures Passed(cfg, u, u', places, answers, rest, n + 1)
  {
  }

  /** The loop of _main(): passes until one changes nothing. When it ends, there is nothing left to ask anywhere. */
  method Run(k: Kconfig, places: seq<Place>, answers: seq<string>) returns (done: bool, rest: seq<string>)
    requires k.Valid() && Covers(k.cfg, places)
    modifies k
    ensures k.Valid()
    ensures done ==> forall i :: i in AllItems(k.cfg) ==> Settled(k.cfg, k.user, i)
    ensures done ==> exists n :: n > 0 && Passed(k.cfg, old(k.user), k.user, places, answers, rest, n)
  {
    rest := answers;
    ghost var n := 0;
    while true
      invariant k.Valid() && Passed(k.cfg, old(k.user), k.user, places, answers, rest, n)
      decreases |rest|
    {
      ghost var v := k.user;
      var changed, ok, r := Pass(k, places, rest);
      if !ok {
        return false, r;
      }
      OnePass(k.cfg, old(k.user), v, k.user, places, answers, rest, r, n);
      rest, n := r, n + 1;
      if !changed {
        forall i | i in AllItems(k.cfg) ensures Settled(k.cfg, k.user, i) {
          AllItemsSettled(k.cfg, k.user, places, i);
        }
        return true, rest;
      }
    }
  }
}
