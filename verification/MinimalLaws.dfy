/** What a minimal configuration leaves out and what it keeps, for every kind of symbol. */
module MinimalLaws {
  import opened KconfigLang
  import opened Evaluation
  import opened Choices
  import opened Loading
  import opened SaveLoad
  import Laws = EvaluationLaws

  /** The text of the minimal configuration, taken apart again, assigns a value to s. */
  ghost predicate Kept(cfg: Config, u: User, s: nat)
    requires Sane(cfg, u)
  {
    exists a :: a in Decoded(cfg, SplitLines(JoinLines(MinLines(cfg, u, 0)))) && a.s == s
  }

  lemma KeptIff(cfg: Config, u: User, s: nat)
    requires Sane(cfg, u) && NamesOk(cfg) && TextsOk(cfg, u)
    ensures Kept(cfg, u, s) <==> s < |cfg.syms| && InMinConfig(cfg, u, s)
  {
    var order := MinOrder(cfg, u, 0);
    MinDecodes(cfg, u, 0);
    SplitJoin(MinLines(cfg, u, 0));
    MinOrderHas(cfg, u, 0, s);
    if s in order {
      var k :| 0 <= k < |order| && order[k] == s;
      assert Saves(cfg, u, order)[k].s == s;
    }
  }

  /** A bool or tristate symbol outside choices is kept exactly if it is more visible than selected and does not have
      the value it would have without a user value: the highest of its default, what selects it, and what implies it. */
  lemma TriKept(cfg: Config, u: User, s: nat, n: nat)
    requires Sane(cfg, u) && ChoicesOk(cfg) && NamesOk(cfg) && TextsOk(cfg, u) && DepsOk(cfg, s) && s < |cfg.syms|
    requires Boolish(SymAt(cfg, s).typ) && SymAt(cfg, s).choice.None? && Laws.FirstDefault(cfg, u, s, n)
    ensures var sel, imp := Ev(cfg, u, SymAt(cfg, s).revDep), Laws.ImplyPart(cfg, u, s);
            var otherwise := Laws.NeverM(cfg, u, s, Laws.Highest(Laws.DefaultPart(cfg, u, s, n), sel, imp));
            Kept(cfg, u, s) <==> Vis(cfg, u, S(s)) > sel && TriOf(cfg, u, s).val != otherwise
  {
    KeptIff(cfg, u, s);
    Laws.DefaultTriFrom(cfg, u, s, n, 0);
    if Vis(cfg, u, S(s)) != 0 { VisibleHasDeps(cfg, u, s); }
  }

  /** A symbol without a user value is not kept. */
  lemma UnsetNotKept(cfg: Config, u: User, s: nat)
    requires Sane(cfg, u) && ChoicesOk(cfg) && NamesOk(cfg) && TextsOk(cfg, u) && DepsOk(cfg, s) && s < |cfg.syms|
    requires Boolish(SymAt(cfg, s).typ) && SymAt(cfg, s).choice.None? && s !in u.val
    ensures !Kept(cfg, u, s)
  {
    var n := Laws.FirstDefaultFrom(cfg, u, s, 0);
    TriKept(cfg, u, s, n);
    Laws.ValueWithoutUser(cfg, u, s, n);
  }

  /** A string, key, int or hex symbol is kept exactly if it is more visible than selected, has no automatic value, and
      does not have the text of its default. */
  lemma TextKept(cfg: Config, u: User, s: nat, n: nat)
    requires Sane(cfg, u) && ChoicesOk(cfg) && NamesOk(cfg) && TextsOk(cfg, u) && s < |cfg.syms|
    requires SymAt(cfg, s).typ in {STRING, KEY, INT, HEX} && Laws.FirstDefault(cfg, u, s, n)
    ensures Kept(cfg, u, s) <==>
              && Vis(cfg, u, S(s)) > Ev(cfg, u, SymAt(cfg, s).revDep) && !SymAt(cfg, s).isAuto
              && StrOf(cfg, u, s).val != Laws.DefaultText(cfg, u, s, n)
  {
    KeptIff(cfg, u, s);
    assert ChoiceSymOk(cfg, s);
    Laws.DefaultStrFrom(cfg, u, s, n, 0);
  }

  lemma DefaultPickIs(cfg: Config, u: User, c: nat, r: Option<nat>)
    requires Sane(cfg, u) && Laws.DefaultPick(cfg, u, c, r)
    ensures SelDefault(cfg, u, c, 0) == r
  {
    var d := ChoiceAt(cfg, c);
    Laws.SelDefaultFrom(cfg, u, c, 0);
    Laws.FirstVisibleFrom(cfg, u, c, 0);
    if exists k :: 0 <= k < |d.defaults| && Laws.Applies(cfg, u, d.defaults[k]) {
      var i :| 0 <= i < |d.defaults| && Laws.Applies(cfg, u, d.defaults[i]) && SelDefault(cfg, u, c, 0) == Some(d.defaults[i].sym)
               && forall j :: 0 <= j < i ==> !Laws.Applies(cfg, u, d.defaults[j]);
      var k :| 0 <= k < |d.defaults| && Laws.Applies(cfg, u, d.defaults[k]) && r == Some(d.defaults[k].sym)
               && forall j :: 0 <= j < k ==> !Laws.Applies(cfg, u, d.defaults[j]);
      assert i == k;
    }
  }

  /** A choice symbol is kept exactly if it is visible and not n, unless it is a bool symbol that is y in a choice that
      is not optional and would have it as its default selection. */
  lemma ChoiceSymbolKept(cfg: Config, u: User, s: nat, c: nat, r: Option<nat>)
    requires Sane(cfg, u) && ChoicesOk(cfg) && NamesOk(cfg) && TextsOk(cfg, u) && s < |cfg.syms|
    requires SymAt(cfg, s).choice == Some(c) && Laws.DefaultPick(cfg, u, c, r)
    ensures Kept(cfg, u, s) <==>
              && Vis(cfg, u, S(s)) != 0 && TriOf(cfg, u, s).val != 0
              && !(SymAt(cfg, s).typ == BOOL && TriOf(cfg, u, s).val == 2 && !ChoiceAt(cfg, c).optional && r == Some(s))
  {
    KeptIff(cfg, u, s);
    assert ChoiceSymOk(cfg, s);
    DefaultPickIs(cfg, u, c, r);
  }

  /** Each line left assigns the current value. */
  lemma KeptValue(cfg: Config, u: User, a: Assignment)
    requires Sane(cfg, u) && NamesOk(cfg) && TextsOk(cfg, u)
    requires a in Decoded(cfg, SplitLines(JoinLines(MinLines(cfg, u, 0))))
    ensures a.text == StrOf(cfg, u, a.s).val
  {
    MinDecodes(cfg, u, 0);
    SplitJoin(MinLines(cfg, u, 0));
  }
}
