/** User values and the effect of assigning them, as pure functions on the user state. */
module UserState {
  import opened KconfigLang

  predicate IsTriText(text: string) {
    text == "n" || text == "m" || text == "y"
  }

  function TriOfText(text: string): Tri {
    if text == "n" then 0 else if text == "m" then 1 else 2
  }

  /** "n", "m" and "y" given to a bool or tristate symbol or to a choice stand for tristate values. */
  function Coerce(t: SymType, v: UserVal): UserVal {
    if Boolish(t) && v.Text? && IsTriText(v.text) then TriVal(TriOfText(v.text)) else v
  }

  /** The value is well-formed for a symbol of type t. */
  predicate Acceptable(cfg: Config, t: SymType, v: UserVal) {
    match t
    case UNKNOWN => false
    case BOOL => v == TriVal(0) || v == TriVal(2)
    case TRISTATE => v.TriVal?
    case STRING => v.Text?
    case KEY => v.Text?
    case INT => v.Text? && cfg.num.parse(v.text, 10).Some?
    case HEX => v.Text? && cfg.num.parse(v.text, 16).Some? && cfg.num.parse(v.text, 16).value >= 0
  }

  predicate AcceptableMode(t: SymType, m: Tri) {
    t == TRISTATE || (t == BOOL && m != 1)
  }

  /** What assigning a value can leave behind. */
  ghost predicate UserOk(cfg: Config, u: User) {
    && (forall s :: s in u.val ==> s < |cfg.syms| && Acceptable(cfg, SymAt(cfg, s).typ, u.val[s]))
    && (forall c :: c in u.mode ==> AcceptableMode(ChoiceAt(cfg, c).typ, u.mode[c]))
    && PicksOk(cfg, u)
  }

  /** The value given to set_value() gets stored or is already stored. */
  predicate Takes(cfg: Config, u: User, s: nat, v: UserVal) {
    var d := SymAt(cfg, s);
    (s in u.val && u.val[s] == Coerce(d.typ, v) && d.choice.None?) || Acceptable(cfg, d.typ, Coerce(d.typ, v))
  }

  /** Assigning y to a choice symbol also makes it the user selection of its choice. */
  function SetSym(cfg: Config, u: User, s: nat, v: UserVal): User {
    var d := SymAt(cfg, s);
    var w := Coerce(d.typ, v);
    if !Takes(cfg, u, s, v) then u
    else if d.choice.Some? && w == TriVal(2) then u.(val := u.val[s := w], pick := u.pick[d.choice.value := s])
    else u.(val := u.val[s := w])
  }

  function UnsetSym(u: User, s: nat): User {
    u.(val := u.val - {s})
  }

  predicate TakesMode(cfg: Config, u: User, c: nat, m: Tri) {
    (c in u.mode && u.mode[c] == m) || AcceptableMode(ChoiceAt(cfg, c).typ, m)
  }

  function SetMode(cfg: Config, u: User, c: nat, m: Tri): User {
    if TakesMode(cfg, u, c, m) then u.(mode := u.mode[c := m]) else u
  }

  function UnsetChoice(u: User, c: nat): User {
    u.(mode := u.mode - {c}, pick := u.pick - {c})
  }
}
