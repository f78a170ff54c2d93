/**
 Terminal macros as they arrive from a file or from storage: any field may be missing or hold
 any JSON value, and every reader says how it takes it.
 */
module Macros {
  import opened Json
  import opened Numbers
  import opened Records
  import opened Text

  datatype Field =
    | Identity | Name | Body | Keybinding | Slot | Secret
    | Pattern | Cooldown | Interval | Paused | Scope | ProfileId
    | Variables | Group | RunIn | Credentials | Route

  /** A missing key is `undefined`. */
  type Macro = map<Field, Js>

  /** What the host language supplies: printing, string conversion, regular expressions. */
  datatype Host = Host(show: int -> string, template: Js -> string, safePattern: string -> bool)

  function Get(m: Macro, f: Field): Option<Js> {
    if f in m then Some(m[f]) else None
  }

  /** Two records with the same under one field. */
  predicate AlikeAt(a: Macro, b: Macro, f: Field) {
    Get(a, f) == Get(b, f)
  }

  function With(m: Macro, f: Field, v: Option<Js>): Macro {
    if v.Some? then m[f := v.value] else m - {f}
  }

  predicate Truthy(v: Option<Js>) {
    match v
    case None => false
    case Some(Null) => false
    case Some(Bool(on)) => on
    case Some(Num(n)) => n != Finite(0)
    case Some(Str(s)) => s != ""
    case Some(Arr(_)) => true
    case Some(Obj(_)) => true
  }

  /** `v ?? fallback`. */
  function OrElse(v: Option<Js>, fallback: Js): Js {
    if v.None? || v.value.Null? then fallback else v.value
  }

  /** The member of an object; arrays and objects alike may be asked. */
  function Property(v: Js, key: string): Option<Js> {
    if v.Obj? then Find(v.members, key) else None
  }

  function Find(members: seq<Member>, key: string): Option<Js> {
    if members == [] then None
    else if members[0].key == key then Some(members[0].value)
    else Find(members[1..], key)
  }

  predicate IsObject(v: Js) {
    v.Obj? || v.Arr?
  }

  function Lower(s: string): (r: string)
    ensures |r| == |s|
    ensures forall i | 0 <= i < |s| :: r[i] == if 'A' <= s[i] <= 'Z' then s[i] + 32 as char else s[i]
  {
    if s == "" then "" else [if 'A' <= s[0] <= 'Z' then s[0] + 32 as char else s[0]] + Lower(s[1..])
  }

  lemma LowerTrimmed(s: string)
    requires Trimmed(s)
    ensures Trimmed(Lower(s))
  {
  }

  lemma LowerTwice(s: string)
    ensures Lower(Lower(s)) == Lower(s)
  {
    var low := Lower(s);
    assert forall i | 0 <= i < |s| :: !('A' <= low[i] <= 'Z');
  }

  lemma LowerSettles(s: string)
    requires Trimmed(s)
    ensures Trimmed(Lower(s)) && Lower(Lower(s)) == Lower(s)
  {
    LowerTrimmed(s);
    LowerTwice(s);
  }

  /** `normalizeBinding`. */
  function NormalizeBinding(v: Option<Js>): Option<string> {
    if v.Some? && v.value.Str? && Lower(Trim(v.value.text)) != "" then Some(Lower(Trim(v.value.text))) else None
  }

  /** A normalized binding normalizes to itself. */
  lemma NormalizedStays(binding: Option<Js>)
    requires NormalizeBinding(binding).Some?
    ensures NormalizeBinding(Some(Str(NormalizeBinding(binding).value))) == NormalizeBinding(binding)
  {
    TrimSettles(binding.value.text);
    LowerSettles(Trim(binding.value.text));
    TrimmedStays(Lower(Trim(binding.value.text)));
  }

  /** `getAssignedBinding`: the key binding, else what the legacy slot stands for. */
  function AssignedBinding(host: Host, m: Macro): Option<string> {
    if NormalizeBinding(Get(m, Keybinding)).Some? then NormalizeBinding(Get(m, Keybinding))
    else if Slot in m then Some("alt+" + host.template(m[Slot]))
    else None
  }

  function RunTarget(m: Macro): string {
    match Get(m, RunIn)
    case Some(Str(s)) => if s == "localTerminal" || s == "browser" then s else "session"
    case _ => "session"
  }

  predicate ValidScope(v: Js) {
    v == Str("all-terminals") || v == Str("active-session") || v == Str("profile")
  }

  const DEFAULT_TRIGGER_COOLDOWN := 3
  const TRIGGER_COOLDOWN_MAX_SECONDS := 300

  /** Between none and the longest cooldown. */
  predicate InCooldownRange(n: Number) {
    n.Finite? && 0 <= n.steps <= Whole(TRIGGER_COOLDOWN_MAX_SECONDS).steps
  }

  function Clamp(n: Number): Number
    requires n.Finite?
  {
    if n.steps < 0 then Finite(0)
    else if n.steps > Whole(TRIGGER_COOLDOWN_MAX_SECONDS).steps then Whole(TRIGGER_COOLDOWN_MAX_SECONDS)
    else n
  }

  /** The cooldown the trigger compiler uses; `None` follows the setting. */
  function CompiledCooldown(v: Option<Js>): (r: Option<Number>)
    ensures r.Some? ==> InCooldownRange(r.value)
  {
    match v
    case None => None
    case Some(Null) => None
    case Some(Num(n)) => Some(if n.Finite? then Clamp(n) else Whole(DEFAULT_TRIGGER_COOLDOWN))
    case Some(_) => Some(Whole(DEFAULT_TRIGGER_COOLDOWN))
  }

  function CompiledInterval(v: Option<Js>): (r: Option<Number>)
    ensures r.Some? ==> Positive(r.value)
  {
    if v.Some? && v.value.Num? && Positive(v.value.number) then Some(v.value.number) else None
  }

  predicate NameStart(c: char) {
    'a' <= c <= 'z' || 'A' <= c <= 'Z' || c == '_'
  }

  /** A letter or underscore, then at most 31 letters, digits or underscores. */
  predicate ValidVariableName(s: string) {
    && 0 < |s| <= 32
    && NameStart(s[0])
    && forall i | 1 <= i < |s| :: NameStart(s[i]) || '0' <= s[i] <= '9'
  }
}
