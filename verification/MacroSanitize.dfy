/**
 Sanitizing an imported macro: whatever a file holds, what comes out is in a normal form, and
 what is in normal form comes out as it went in.
 */
module MacroSanitize {
  import opened FolderPaths
  import opened Json
  import opened Macros
  import opened Numbers
  import opened Records
  import opened Text

  const MAX_MACRO_VARIABLES := 10

  // ---- key binding and folder ---------------------------------------------------------

  predicate BindingKey(c: char) {
    'a' <= c <= 'z' || '0' <= c <= '9'
  }

  /** One of the modifier groups and one key, in any case. */
  predicate ValidBinding(s: string) {
    var b := Lower(s);
    exists m | m in {"alt+", "alt+shift+", "ctrl+shift+"} :: |b| == |m| + 1 && b[..|m|] == m && BindingKey(b[|m|])
  }

  function CleanBinding(v: Option<Js>): Option<Js> {
    if v.Some? && v.value.Str? && ValidBinding(v.value.text) then v else None
  }

  function CleanGroup(v: Option<Js>): Option<Js> {
    if v.Some? && v.value.Str? && SanitizeGroup(v.value.text).Some? then Some(Str(SanitizeGroup(v.value.text).value))
    else None
  }

  // ---- variables ----------------------------------------------------------------------

  function VariableName(v: Js): Option<string> {
    if IsObject(v) && Property(v, "name").Some? && Property(v, "name").value.Str? && ValidVariableName(Property(v, "name").value.text)
    then Some(Property(v, "name").value.text) else None
  }

  function Caption(v: Js): seq<Member> {
    var l := Property(v, "label");
    if l.Some? && l.value.Str? && Trim(l.value.text) != "" then [Member("label", l.value)] else []
  }

  function Behaviour(v: Js): seq<Member> {
    var prefill, remember := Property(v, "default"), Property(v, "remember");
    if Property(v, "secret") == Some(Bool(true)) then [Member("secret", Bool(true))]
    else
      (if prefill.Some? && prefill.value.Str? then [Member("default", prefill.value)] else [])
      + (if remember == Some(Bool(false)) then [Member("remember", Bool(false))] else [])
  }

  /** The entry rebuilt from what is usable in it. */
  function CleanVariable(v: Js, name: string): Js {
    Obj([Member("name", Str(name))] + Caption(v) + Behaviour(v))
  }

  function NamesOf(kept: seq<Js>): set<string> {
    set i | 0 <= i < |kept| && VariableName(kept[i]).Some? :: VariableName(kept[i]).value
  }

  /** The entries kept so far and those still to come: at most ten, valid, no name twice. */
  function CleanVariables(raw: seq<Js>, kept: seq<Js>): seq<Js>
    decreases |raw|
  {
    if raw == [] || |kept| >= MAX_MACRO_VARIABLES then kept
    else
      var name := VariableName(raw[0]);
      CleanVariables(raw[1..],
                     if name.Some? && name.value !in NamesOf(kept) then kept + [CleanVariable(raw[0], name.value)] else kept)
  }

  predicate Declares(v: Option<Js>) {
    v.Some? && (!v.value.Arr? || v.value.items != [])
  }

  function CleanDeclaration(v: Option<Js>): Option<Js> {
    if v.Some? && v.value.Arr? && CleanVariables(v.value.items, []) != [] then Some(Arr(CleanVariables(v.value.items, [])))
    else None
  }

  // ---- trigger ------------------------------------------------------------------------

  /** What a string field is worth once trimmed; "" when it is not a string. */
  function Trimmings(v: Option<Js>): string {
    if v.Some? && v.value.Str? then Trim(v.value.text) else ""
  }

  predicate NeedsProfile(m: Macro) {
    Get(m, Scope) == Some(Str("profile"))
  }

  /** The trigger is kept: a safe pattern, a scope the compiler knows, its profile, no declaration. */
  predicate TriggerKept(host: Host, m: Macro) {
    && Trimmings(Get(m, Pattern)) != "" && host.safePattern(Trimmings(Get(m, Pattern)))
    && (Scope in m ==> ValidScope(m[Scope]))
    && (NeedsProfile(m) ==> Trimmings(Get(m, ProfileId)) != "")
    && !Declares(Get(m, Variables))
  }

  function NumberOr(n: Option<Number>): Option<Js> {
    if n.Some? then Some(Num(n.value)) else None
  }

  function CleanPaused(v: Option<Js>): Option<Js> {
    if v.Some? && v.value.Bool? then v else if Truthy(v) then Some(Bool(true)) else None
  }

  const TRIGGER_FIELDS: set<Field> := {Pattern, Cooldown, Interval, Paused, Scope, ProfileId}

  /** What sanitizing puts in a field that is no part of the trigger. */
  function BasicClean(m: Macro, f: Field): Option<Js> {
    match f
    case Credentials => None
    case Route => None
    case Keybinding => CleanBinding(Get(m, Keybinding))
    case Group => CleanGroup(Get(m, Group))
    case Variables => CleanDeclaration(Get(m, Variables))
    case _ => Get(m, f)
  }

  /** What sanitizing puts in a field of the trigger. */
  function TriggerClean(host: Host, m: Macro, f: Field): Option<Js> {
    if !TriggerKept(host, m) then None
    else match f
      case Pattern => Some(Str(Trimmings(Get(m, Pattern))))
      case ProfileId => if NeedsProfile(m) then Some(Str(Trimmings(Get(m, ProfileId)))) else None
      case Cooldown => NumberOr(CompiledCooldown(Get(m, Cooldown)))
      case Interval => NumberOr(CompiledInterval(Get(m, Interval)))
      case Paused => CleanPaused(Get(m, Paused))
      case _ => Get(m, f)
  }

  function Clean(host: Host, m: Macro, f: Field): Option<Js> {
    if f in TRIGGER_FIELDS then TriggerClean(host, m, f) else BasicClean(m, f)
  }

  const FIELDS: set<Field> :=
    {Identity, Name, Body, Keybinding, Slot, Secret, Pattern, Cooldown, Interval, Paused, Scope, ProfileId,
     Variables, Group, RunIn, Credentials, Route}

  lemma AllFields(f: Field)
    ensures f in FIELDS
  {
  }

  /** `sanitizeImportedMacro`. */
  function Sanitized(host: Host, m: Macro): Macro {
    map f | f in FIELDS && Clean(host, m, f).Some? :: Clean(host, m, f).value
  }

  lemma SanitizedField(host: Host, m: Macro, f: Field)
    ensures Get(Sanitized(host, m), f) == Clean(host, m, f)
  {
    AllFields(f);
  }

  // ---- step by step -------------------------------------------------------------------

  method SanitizeVariables(m: Macro) returns (after: Macro, declared: bool)
    ensures after == With(m, Variables, CleanDeclaration(Get(m, Variables)))
    ensures declared == Declares(Get(m, Variables))
  {
    declared := Variables in m && (!m[Variables].Arr? || m[Variables].items != []);
    if Variables !in m || !m[Variables].Arr? {
      after := m - {Variables};
      return;
    }
    var raw := m[Variables].items;
    var kept: seq<Js> := [];
    var seen: set<string> := {};
    var k := 0;
    while k < |raw| && |kept| < MAX_MACRO_VARIABLES
      invariant 0 <= k <= |raw| && seen == NamesOf(kept)
      invariant CleanVariables(raw[k..], kept) == CleanVariables(raw, [])
    {
      assert raw[k..][0] == raw[k] && raw[k..][1..] == raw[k + 1..];
      var name := VariableName(raw[k]);
      if name.Some? && name.value !in seen {
        NamesGrow(kept, raw[k], name.value);
        seen := seen + {name.value};
        kept := kept + [CleanVariable(raw[k], name.value)];
      }
      k := k + 1;
    }
    after := if |kept| > 0 then m[Variables := Arr(kept)] else m - {Variables};
  }

  /** The trigger branches: trim what is kept, or drop all six fields. */
  method SanitizeTrigger(host: Host, m: Macro) returns (after: Macro)
    ensures after == AfterTrigger(host, m)
  {
    var pattern := Trimmings(Get(m, Pattern));
    after := m;
    if pattern == "" || !host.safePattern(pattern) {
      after := after - TRIGGER_FIELDS;
    } else {
      after := after[Pattern := Str(pattern)];
      if Scope in after && !ValidScope(after[Scope]) {
        after := after - TRIGGER_FIELDS;
      } else if Get(after, Scope) == Some(Str("profile")) {
        var profile := Trimmings(Get(after, ProfileId));
        if profile == "" {
          after := after - TRIGGER_FIELDS;
        } else {
          after := after[ProfileId := Str(profile)];
        }
      } else {
        after := after - {ProfileId};
      }
    }
  }

  method SanitizeTimings(m: Macro) returns (after: Macro)
    ensures after == AfterTimings(m)
  {
    after := With(m, Cooldown, NumberOr(CompiledCooldown(Get(m, Cooldown))));
    after := With(after, Interval, NumberOr(CompiledInterval(Get(after, Interval))));
    if Paused !in after || !after[Paused].Bool? {
      if Truthy(Get(after, Paused)) {
        after := after[Paused := Bool(true)];
      } else {
        after := after - {Paused};
      }
    }
  }

  /** What is left after the trigger has been looked at. */
  function AfterTrigger(host: Host, m: Macro): Macro {
    var pattern, profile := Trimmings(Get(m, Pattern)), Trimmings(Get(m, ProfileId));
    if pattern == "" || !host.safePattern(pattern) || (Scope in m && !ValidScope(m[Scope])) || (NeedsProfile(m) && profile == "")
    then m - TRIGGER_FIELDS
    else if NeedsProfile(m) then m[Pattern := Str(pattern)][ProfileId := Str(profile)]
    else m[Pattern := Str(pattern)] - {ProfileId}
  }

  function AfterTimings(m: Macro): Macro {
    With(With(With(m, Cooldown, NumberOr(CompiledCooldown(Get(m, Cooldown)))),
              Interval, NumberOr(CompiledInterval(Get(m, Interval)))), Paused, CleanPaused(Get(m, Paused)))
  }

  function AfterBinding(m: Macro): Macro {
    if CleanBinding(Get(m, Keybinding)).None? then m - {Keybinding} else m
  }

  /** The record once capabilities, binding, folder and variables are done. */
  function AfterBasics(m: Macro): Macro {
    var bound := AfterBinding(m - {Credentials, Route});
    var grouped := With(bound, Group, CleanGroup(Get(bound, Group)));
    With(grouped, Variables, CleanDeclaration(Get(grouped, Variables)))
  }

  /** The trigger and what hangs on it, given the rest of the record. */
  function AfterTail(host: Host, basics: Macro, declared: bool): Macro {
    var kept := AfterTrigger(host, basics);
    if Pattern !in kept then kept
    else if declared then AfterTimings(kept) - TRIGGER_FIELDS
    else AfterTimings(kept)
  }

  lemma BasicsField(m: Macro, f: Field)
    ensures Get(AfterBasics(m), f) == BasicClean(m, f)
  {
    var bare := m - {Credentials, Route};
    var bound := AfterBinding(bare);
    var grouped := With(bound, Group, CleanGroup(Get(bound, Group)));
    BindingField(bare, f);
    BindingField(bare, Group);
    BindingField(bare, Variables);
    WithField(bound, Group, CleanGroup(Get(bound, Group)), f);
    WithField(bound, Group, CleanGroup(Get(bound, Group)), Variables);
    WithField(grouped, Variables, CleanDeclaration(Get(grouped, Variables)), f);
    BareField(m, f);
    BareField(m, Keybinding);
    BareField(m, Group);
    BareField(m, Variables);
  }

  lemma WithField(m: Macro, g: Field, v: Option<Js>, f: Field)
    ensures Get(With(m, g, v), f) == if f == g then v else Get(m, f)
  {
  }

  lemma BareField(m: Macro, f: Field)
    ensures Get(m - {Credentials, Route}, f) == if f == Credentials || f == Route then None else Get(m, f)
  {
  }

  lemma BindingField(m: Macro, f: Field)
    ensures Get(AfterBinding(m), f) == if f == Keybinding then CleanBinding(Get(m, Keybinding)) else Get(m, f)
  {
  }

  lemma TimingsField(m: Macro, f: Field)
    ensures Get(AfterTimings(m), f) ==
      match f
      case Cooldown => NumberOr(CompiledCooldown(Get(m, Cooldown)))
      case Interval => NumberOr(CompiledInterval(Get(m, Interval)))
      case Paused => CleanPaused(Get(m, Paused))
      case _ => Get(m, f)
  {
  }

  /** The trigger branches look at the trigger fields alone. */
  lemma TriggerBranches(host: Host, m: Macro, basics: Macro)
    requires AlikeAt(basics, m, Pattern) && AlikeAt(basics, m, Scope) && AlikeAt(basics, m, ProfileId)
    ensures Pattern in AfterTrigger(host, basics) && !Declares(Get(m, Variables)) <==> TriggerKept(host, m)
    ensures Pattern !in AfterTrigger(host, basics) ==> AfterTrigger(host, basics) == basics - TRIGGER_FIELDS
    ensures TriggerKept(host, m) ==>
              && Get(AfterTrigger(host, basics), Pattern) == TriggerClean(host, m, Pattern)
              && Get(AfterTrigger(host, basics), ProfileId) == TriggerClean(host, m, ProfileId)
    ensures forall f: Field | f != Pattern && f != ProfileId && Pattern in AfterTrigger(host, basics) ::
              Get(AfterTrigger(host, basics), f) == Get(basics, f)
  {
    assert Scope in basics <==> Scope in m;
  }

  /** Outside the trigger the later steps change nothing. */
  lemma TailOutside(host: Host, basics: Macro, declared: bool, f: Field)
    requires f !in TRIGGER_FIELDS
    ensures Get(AfterTail(host, basics, declared), f) == Get(basics, f)
  {
    var kept := AfterTrigger(host, basics);
    if Pattern in kept {
      TimingsField(kept, f);
    }
  }

  /** A kept trigger ends up as specified. */
  lemma TailKept(host: Host, m: Macro, kept: Macro, f: Field)
    requires f in TRIGGER_FIELDS && TriggerKept(host, m)
    requires Get(kept, Pattern) == TriggerClean(host, m, Pattern) && Get(kept, ProfileId) == TriggerClean(host, m, ProfileId)
    requires f != Pattern && f != ProfileId ==> AlikeAt(kept, m, f)
    ensures Get(AfterTimings(kept), f) == TriggerClean(host, m, f)
  {
    TimingsField(kept, f);
  }

  lemma TailTrigger(host: Host, m: Macro, basics: Macro, declared: bool, f: Field)
    requires f in TRIGGER_FIELDS && declared == Declares(Get(m, Variables)) && AlikeAt(basics, m, f)
    requires AlikeAt(basics, m, Pattern) && AlikeAt(basics, m, Scope) && AlikeAt(basics, m, ProfileId)
    ensures Get(AfterTail(host, basics, declared), f) == TriggerClean(host, m, f)
  {
    TriggerBranches(host, m, basics);
    if TriggerKept(host, m) {
      TailKept(host, m, AfterTrigger(host, basics), f);
    } else {
      TailDropped(host, basics, declared, f);
    }
  }

  lemma TailDropped(host: Host, basics: Macro, declared: bool, f: Field)
    requires f in TRIGGER_FIELDS && (Pattern in AfterTrigger(host, basics) ==> declared)
    requires Pattern !in AfterTrigger(host, basics) ==> AfterTrigger(host, basics) == basics - TRIGGER_FIELDS
    ensures Get(AfterTail(host, basics, declared), f) == None
  {
  }

  /** What the first steps leave of a field the trigger looks at is what was there. */
  lemma BasicsKeepTrigger(m: Macro, f: Field)
    requires f in TRIGGER_FIELDS
    ensures AlikeAt(AfterBasics(m), m, f)
  {
    BasicsField(m, f);
    BasicOutside(m, f);
  }

  lemma BasicOutside(m: Macro, f: Field)
    requires f in TRIGGER_FIELDS
    ensures BasicClean(m, f) == Get(m, f)
  {
  }

  lemma StepsOfTrigger(host: Host, m: Macro, declared: bool, f: Field)
    requires declared == Declares(Get(m, Variables)) && f in TRIGGER_FIELDS
    ensures Get(AfterTail(host, AfterBasics(m), declared), f) == TriggerClean(host, m, f)
  {
    BasicsKeepTrigger(m, f);
    BasicsKeepTrigger(m, Pattern);
    BasicsKeepTrigger(m, Scope);
    BasicsKeepTrigger(m, ProfileId);
    TailTrigger(host, m, AfterBasics(m), declared, f);
  }

  /** The steps in their order come to what each field is specified to hold. */
  lemma StepsField(host: Host, m: Macro, declared: bool, f: Field)
    requires declared == Declares(Get(m, Variables))
    ensures Get(AfterTail(host, AfterBasics(m), declared), f) == Clean(host, m, f)
  {
    if f in TRIGGER_FIELDS {
      StepsOfTrigger(host, m, declared, f);
    } else {
      BasicsField(m, f);
      TailOutside(host, AfterBasics(m), declared, f);
    }
  }

  /** Capabilities, binding, folder and variables. */
  method SanitizeBasics(raw: Macro) returns (macro: Macro, declared: bool)
    ensures macro == AfterBasics(raw) && declared == Declares(Get(raw, Variables))
  {
    macro := raw - {Credentials, Route};
    if CleanBinding(Get(macro, Keybinding)).None? {
      macro := macro - {Keybinding};
    }
    assert macro == AfterBinding(raw - {Credentials, Route});
    macro := With(macro, Group, CleanGroup(Get(macro, Group)));
    assert Get(macro, Variables) == Get(raw, Variables);
    macro, declared := SanitizeVariables(macro);
  }

  /** `sanitizeImportedMacro`, in the order it works on the record. */
  method SanitizeImportedMacro(host: Host, raw: Macro) returns (macro: Macro)
    ensures macro == Sanitized(host, raw)
  {
    var declared: bool;
    macro, declared := SanitizeBasics(raw);
    macro := SanitizeTrigger(host, macro);
    if Pattern in macro {
      macro := SanitizeTimings(macro);
      if declared {
        macro := macro - TRIGGER_FIELDS;
      }
    }
    StepsAreSanitizing(host, raw);
  }

  lemma StepsAreSanitizing(host: Host, m: Macro)
    ensures AfterTail(host, AfterBasics(m), Declares(Get(m, Variables))) == Sanitized(host, m)
  {
    var after := AfterTail(host, AfterBasics(m), Declares(Get(m, Variables)));
    forall f: Field ensures Get(after, f) == Clean(host, m, f) {
      StepsField(host, m, Declares(Get(m, Variables)), f);
    }
    SameFields(after, Sanitized(host, m), host, m);
  }

  lemma SameFields(a: Macro, b: Macro, host: Host, m: Macro)
    requires forall f: Field :: Get(a, f) == Clean(host, m, f)
    requires b == Sanitized(host, m)
    ensures a == b
  {
    forall f: Field ensures Get(a, f) == Get(b, f) {
      SanitizedField(host, m, f);
    }
    forall f: Field ensures f in a <==> f in b {
      assert Get(a, f) == Get(b, f);
    }
    forall f: Field | f in a ensures a[f] == b[f] {
      assert Get(a, f) == Get(b, f);
    }
  }

  // ---- the normal form ----------------------------------------------------------------

  /** A variable as the sanitizer writes it. */
  ghost predicate NormalVariable(v: Js) {
    VariableName(v).Some? && v == CleanVariable(v, VariableName(v).value)
  }

  ghost predicate NormalVariables(vs: seq<Js>) {
    && |vs| <= MAX_MACRO_VARIABLES
    && (forall i | 0 <= i < |vs| :: NormalVariable(vs[i]))
    && (forall i, j | 0 <= i < j < |vs| :: VariableName(vs[i]) != VariableName(vs[j]))
  }

  ghost predicate NormalTrigger(host: Host, m: Macro) {
    if Pattern !in m then forall f | f in TRIGGER_FIELDS :: f !in m
    else
      && Variables !in m
      && m[Pattern].Str? && m[Pattern].text != "" && Trimmed(m[Pattern].text) && host.safePattern(m[Pattern].text)
      && (Scope in m ==> ValidScope(m[Scope]))
      && (if NeedsProfile(m)
          then ProfileId in m && m[ProfileId].Str? && m[ProfileId].text != "" && Trimmed(m[ProfileId].text)
          else ProfileId !in m)
      && (Cooldown in m ==> m[Cooldown].Num? && InCooldownRange(m[Cooldown].number))
      && (Interval in m ==> m[Interval].Num? && Positive(m[Interval].number))
      && (Paused in m ==> m[Paused].Bool?)
  }

  /** No capability, a valid binding and folder, one to ten sound variables, a sound trigger. */
  ghost predicate NormalMacro(host: Host, m: Macro) {
    && Credentials !in m && Route !in m
    && (Keybinding in m ==> m[Keybinding].Str? && ValidBinding(m[Keybinding].text))
    && (Group in m ==> m[Group].Str? && Normal(m[Group].text))
    && (Variables in m ==> m[Variables].Arr? && m[Variables].items != [] && NormalVariables(m[Variables].items))
    && NormalTrigger(host, m)
  }

  // ---- variables land in their normal form --------------------------------------------

  lemma CaptionProperties(v: Js)
    ensures forall key :: Find(Caption(v), key) == if key == "label" && Caption(v) != [] then Some(Caption(v)[0].value) else None
  {
  }

  lemma BehaviourProperties(v: Js)
    ensures
      var secret := Property(v, "secret") == Some(Bool(true));
      var prefill := Property(v, "default");
      && Find(Behaviour(v), "name") == None && Find(Behaviour(v), "label") == None
      && Find(Behaviour(v), "secret") == (if secret then Some(Bool(true)) else None)
      && Find(Behaviour(v), "default") == (if !secret && prefill.Some? && prefill.value.Str? then prefill else None)
      && Find(Behaviour(v), "remember") == (if !secret && Property(v, "remember") == Some(Bool(false)) then Some(Bool(false)) else None)
  {
    var keys := ["name", "label", "secret", "default", "remember"];
    assert forall i, j | 0 <= i < j < |keys| :: |keys[i]| < |keys[j]|;
    var prefill := Property(v, "default");
    if Property(v, "secret") != Some(Bool(true)) {
      var first := if prefill.Some? && prefill.value.Str? then [Member("default", prefill.value)] else [];
      var second := if Property(v, "remember") == Some(Bool(false)) then [Member("remember", Bool(false))] else [];
      assert Behaviour(v) == first + second;
      FindIn(first, second, "name");
      FindIn(first, second, "label");
      FindIn(first, second, "secret");
      FindIn(first, second, "default");
      FindIn(first, second, "remember");
    }
  }

  lemma FindInCleaned(v: Js, name: string, key: string)
    ensures Property(CleanVariable(v, name), key) ==
              if key == "name" then Some(Str(name))
              else if Find(Caption(v), key).Some? then Find(Caption(v), key) else Find(Behaviour(v), key)
  {
    var head := [Member("name", Str(name))];
    FindIn(head + Caption(v), Behaviour(v), key);
    FindIn(head, Caption(v), key);
    assert head[1..] == [];
  }

  /** Reading a cleaned variable gives back exactly what was usable in it. */
  lemma CleanedProperties(v: Js, name: string)
    ensures var c := CleanVariable(v, name);
      && Property(c, "name") == Some(Str(name))
      && Property(c, "label") == (if SaysSomething(Property(v, "label")) then Property(v, "label") else None)
      && Property(c, "secret") == (if Property(v, "secret") == Some(Bool(true)) then Some(Bool(true)) else None)
      && (Property(v, "secret") == Some(Bool(true)) ==> Property(c, "default") == None && Property(c, "remember") == None)
      && (Property(v, "secret") != Some(Bool(true)) ==>
            && Property(c, "default") == (if Property(v, "default").Some? && Property(v, "default").value.Str? then Property(v, "default") else None)
            && Property(c, "remember") == (if Property(v, "remember") == Some(Bool(false)) then Some(Bool(false)) else None))
  {
    var keys := ["name", "label", "secret", "default", "remember"];
    assert forall i, j | 0 <= i < j < |keys| :: |keys[i]| < |keys[j]|;
    CaptionProperties(v);
    BehaviourProperties(v);
    FindInCleaned(v, name, "name");
    FindInCleaned(v, name, "label");
    FindInCleaned(v, name, "secret");
    FindInCleaned(v, name, "default");
    FindInCleaned(v, name, "remember");
  }

  lemma {:induction false} FindIn(a: seq<Member>, b: seq<Member>, key: string)
    ensures Find(a + b, key) == if Find(a, key).Some? then Find(a, key) else Find(b, key)
    decreases |a|
  {
    if a == [] {
      assert a + b == b;
    } else {
      assert (a + b)[1..] == a[1..] + b;
      FindIn(a[1..], b, key);
    }
  }

  lemma CleaningIsNormal(v: Js, name: string)
    requires ValidVariableName(name)
    ensures NormalVariable(CleanVariable(v, name)) && VariableName(CleanVariable(v, name)) == Some(name)
  {
    CleanedProperties(v, name);
    var c := CleanVariable(v, name);
    assert Caption(c) == Caption(v);
    assert Behaviour(c) == Behaviour(v);
  }

  lemma NamesGrow(kept: seq<Js>, v: Js, name: string)
    requires VariableName(v) == Some(name)
    ensures NamesOf(kept + [CleanVariable(v, name)]) == NamesOf(kept) + {name}
  {
    CleaningIsNormal(v, name);
    var more := kept + [CleanVariable(v, name)];
    assert VariableName(more[|kept|]) == Some(name);
    forall x | x in NamesOf(kept) ensures x in NamesOf(more) {
      var i :| 0 <= i < |kept| && VariableName(kept[i]) == Some(x);
      assert more[i] == kept[i];
    }
  }

  lemma {:induction false} CleanVariablesAreNormal(raw: seq<Js>, kept: seq<Js>)
    requires NormalVariables(kept)
    ensures NormalVariables(CleanVariables(raw, kept)) && kept <= CleanVariables(raw, kept)
    decreases |raw|
  {
    if raw != [] && |kept| < MAX_MACRO_VARIABLES {
      var name := VariableName(raw[0]);
      if name.Some? && name.value !in NamesOf(kept) {
        CleaningIsNormal(raw[0], name.value);
        forall i | 0 <= i < |kept| ensures VariableName(kept[i]) != name {
          assert VariableName(kept[i]).Some? ==> VariableName(kept[i]).value in NamesOf(kept);
        }
        CleanVariablesAreNormal(raw[1..], kept + [CleanVariable(raw[0], name.value)]);
      } else {
        CleanVariablesAreNormal(raw[1..], kept);
      }
    }
  }

  /** A normal entry that comes next is taken as it is. */
  lemma NormalVariableTaken(kept: seq<Js>, v: Js, rest: seq<Js>)
    requires |kept| < MAX_MACRO_VARIABLES && NormalVariable(v)
    requires forall i | 0 <= i < |kept| :: VariableName(kept[i]) != VariableName(v)
    ensures CleanVariables([v] + rest, kept) == CleanVariables(rest, kept + [v])
  {
    assert VariableName(v).value !in NamesOf(kept);
    assert ([v] + rest)[1..] == rest;
  }

  lemma {:induction false} NormalVariablesStay(all: seq<Js>, n: nat)
    requires NormalVariables(all) && n <= |all|
    ensures CleanVariables(all[n..], all[..n]) == all
    decreases |all| - n
  {
    if n == |all| {
      assert all[n..] == [] && all[..n] == all;
    } else {
      NextVariableTaken(all, n);
      NormalVariablesStay(all, n + 1);
    }
  }

  lemma NextVariableTaken(all: seq<Js>, n: nat)
    requires NormalVariables(all) && n < |all|
    ensures CleanVariables(all[n..], all[..n]) == CleanVariables(all[n + 1..], all[..n + 1])
  {
    assert all[n..] == [all[n]] + all[n + 1..] && all[..n + 1] == all[..n] + [all[n]];
    NormalVariableTaken(all[..n], all[n], all[n + 1..]);
  }

  // ---- the theorems -------------------------------------------------------------------

  lemma VariablesLand(v: Option<Js>)
    ensures CleanDeclaration(v).Some? ==>
              && CleanDeclaration(v).value.Arr? && CleanDeclaration(v).value.items != []
              && NormalVariables(CleanDeclaration(v).value.items)
    ensures CleanDeclaration(v).Some? ==> Declares(v)
  {
    if v.Some? && v.value.Arr? {
      CleanVariablesAreNormal(v.value.items, []);
    }
  }

  lemma KeptProfileLands(host: Host, m: Macro)
    requires TriggerKept(host, m)
    ensures var s := Sanitized(host, m);
      && (NeedsProfile(s) <==> NeedsProfile(m))
      && (if NeedsProfile(s)
          then ProfileId in s && s[ProfileId].Str? && s[ProfileId].text != "" && Trimmed(s[ProfileId].text)
          else ProfileId !in s)
  {
    SanitizedField(host, m, Scope);
    SanitizedField(host, m, ProfileId);
    if NeedsProfile(m) {
      TrimSettles(m[ProfileId].text);
    }
  }

  lemma CooldownLands(host: Host, m: Macro)
    requires TriggerKept(host, m)
    ensures var s := Sanitized(host, m); Cooldown in s ==> s[Cooldown].Num? && InCooldownRange(s[Cooldown].number)
  {
    SanitizedField(host, m, Cooldown);
  }

  lemma IntervalLands(host: Host, m: Macro)
    requires TriggerKept(host, m)
    ensures var s := Sanitized(host, m); Interval in s ==> s[Interval].Num? && Positive(s[Interval].number)
  {
    SanitizedField(host, m, Interval);
  }

  lemma PausedLands(host: Host, m: Macro)
    requires TriggerKept(host, m)
    ensures var s := Sanitized(host, m); Paused in s ==> s[Paused].Bool?
  {
    SanitizedField(host, m, Paused);
  }

  lemma KeptTriggerLands(host: Host, m: Macro)
    requires TriggerKept(host, m)
    ensures NormalTrigger(host, Sanitized(host, m))
  {
    TrimSettles(m[Pattern].text);
    SanitizedField(host, m, Pattern);
    SanitizedField(host, m, Variables);
    VariablesLand(Get(m, Variables));
    SanitizedField(host, m, Scope);
    KeptProfileLands(host, m);
    CooldownLands(host, m);
    IntervalLands(host, m);
    PausedLands(host, m);
  }

  lemma DroppedTriggerLands(host: Host, m: Macro)
    requires !TriggerKept(host, m)
    ensures NormalTrigger(host, Sanitized(host, m))
  {
    forall f | f in TRIGGER_FIELDS ensures f !in Sanitized(host, m) {
      SanitizedField(host, m, f);
    }
    assert Pattern in TRIGGER_FIELDS;
  }

  lemma GroupLands(host: Host, m: Macro)
    ensures var s := Sanitized(host, m); Group in s ==> s[Group].Str? && Normal(s[Group].text)
  {
    SanitizedField(host, m, Group);
    if CleanGroup(Get(m, Group)).Some? {
      SanitizeGroupSettles(m[Group].text);
    }
  }

  lemma BindingLands(host: Host, m: Macro)
    ensures var s := Sanitized(host, m); Keybinding in s ==> s[Keybinding].Str? && ValidBinding(s[Keybinding].text)
  {
    SanitizedField(host, m, Keybinding);
  }

  lemma DeclarationLands(host: Host, m: Macro)
    ensures var s := Sanitized(host, m);
            Variables in s ==> s[Variables].Arr? && s[Variables].items != [] && NormalVariables(s[Variables].items)
  {
    SanitizedField(host, m, Variables);
    VariablesLand(Get(m, Variables));
  }

  /** Whatever the file held, the result is in normal form. */
  lemma SanitizingLands(host: Host, m: Macro)
    ensures NormalMacro(host, Sanitized(host, m))
  {
    SanitizedField(host, m, Credentials);
    SanitizedField(host, m, Route);
    BindingLands(host, m);
    GroupLands(host, m);
    DeclarationLands(host, m);
    if TriggerKept(host, m) {
      KeptTriggerLands(host, m);
    } else {
      DroppedTriggerLands(host, m);
    }
  }

  lemma NormalTriggerStays(host: Host, m: Macro, f: Field)
    requires NormalTrigger(host, m) && f in TRIGGER_FIELDS
    requires Variables in m ==> Pattern !in m
    ensures Clean(host, m, f) == Get(m, f)
  {
    if Pattern in m {
      TrimmedStays(m[Pattern].text);
      if ProfileId in m {
        TrimmedStays(m[ProfileId].text);
      }
      assert TriggerKept(host, m);
    } else {
      assert !TriggerKept(host, m);
    }
  }

  lemma NormalStaysAsItIs(host: Host, m: Macro)
    requires NormalMacro(host, m)
    ensures Sanitized(host, m) == m
  {
    forall f: Field ensures Get(m, f) == Clean(host, m, f) {
      if f in TRIGGER_FIELDS {
        NormalTriggerStays(host, m, f);
      } else if f == Group && Group in m {
        NormalIsFixed(m[Group].text);
      } else if f == Variables && Variables in m {
        NormalVariablesStay(m[Variables].items, 0);
        assert m[Variables].items[0..] == m[Variables].items && m[Variables].items[..0] == [];
      }
    }
    SameFields(m, Sanitized(host, m), host, m);
  }

  /**
   The macros sanitizing leaves alone are exactly those in normal form; sanitizing twice is
   sanitizing once.
   */
  lemma SanitizingSettles(host: Host, m: Macro)
    ensures Sanitized(host, m) == m <==> NormalMacro(host, m)
    ensures Sanitized(host, Sanitized(host, m)) == Sanitized(host, m)
  {
    SanitizingLands(host, m);
    NormalStaysAsItIs(host, Sanitized(host, m));
    if NormalMacro(host, m) {
      NormalStaysAsItIs(host, m);
    }
  }

  /** A macro that declared anything as variables, however invalid, never keeps its trigger. */
  lemma DeclaringCostsTheTrigger(host: Host, m: Macro, f: Field)
    requires Declares(Get(m, Variables)) && f in TRIGGER_FIELDS
    ensures f !in Sanitized(host, m)
  {
    SanitizedField(host, m, f);
  }

  /** A masked variable in normal form carries nothing to prefill or remember. */
  lemma SecretVariablesAreBare(v: Js)
    requires NormalVariable(v) && Property(v, "secret") == Some(Bool(true))
    ensures Property(v, "default") == None && Property(v, "remember") == None
  {
    CleanedProperties(v, VariableName(v).value);
  }

  // ---- what sanitizing keeps ----------------------------------------------------------

  const UNTOUCHED: set<Field> := {Identity, Name, Body, Slot, Secret, RunIn}

  lemma UntouchedClean(host: Host, m: Macro, f: Field)
    requires f in UNTOUCHED
    ensures Clean(host, m, f) == Get(m, f)
  {
  }

  /** What is no trigger, capability, key binding, folder or declaration stays as it is, and capabilities go. */
  lemma SanitizingKeepsTheRest(host: Host, m: Macro, f: Field)
    ensures f in UNTOUCHED ==> AlikeAt(Sanitized(host, m), m, f)
    ensures f == Credentials || f == Route ==> f !in Sanitized(host, m)
  {
    SanitizedField(host, m, f);
    if f in UNTOUCHED {
      UntouchedClean(host, m, f);
    }
  }

  /** A key binding stays exactly when it is one, and a folder exactly when it names one, tidied. */
  lemma BindingAndFolderSurvive(host: Host, m: Macro)
    ensures
      Get(Sanitized(host, m), Keybinding)
      == if Keybinding in m && m[Keybinding].Str? && ValidBinding(m[Keybinding].text) then Some(m[Keybinding]) else None
    ensures
      Get(Sanitized(host, m), Group)
      == if Group in m && m[Group].Str? && SanitizeGroup(m[Group].text).Some? then Some(Str(SanitizeGroup(m[Group].text).value)) else None
  {
    SanitizedField(host, m, Keybinding);
    SanitizedField(host, m, Group);
    BasicCleanFields(host, m);
  }

  lemma BasicCleanFields(host: Host, m: Macro)
    ensures Clean(host, m, Keybinding) == CleanBinding(Get(m, Keybinding)) && Clean(host, m, Group) == CleanGroup(Get(m, Group))
  {
  }

  /** A text that is something once trimmed. */
  predicate SaysSomething(v: Option<Js>) {
    v.Some? && v.value.Str? && Trim(v.value.text) != ""
  }

  /** The trigger survives exactly when its pattern is safe, its scope known, its profile named and no variable declared. */
  predicate TriggerSound(host: Host, m: Macro) {
    && SaysSomething(Get(m, Pattern)) && host.safePattern(Trim(m[Pattern].text))
    && (Scope in m ==> m[Scope] == Str("all-terminals") || m[Scope] == Str("active-session") || m[Scope] == Str("profile"))
    && (Get(m, Scope) == Some(Str("profile")) ==> SaysSomething(Get(m, ProfileId)))
    && (Variables in m ==> m[Variables] == Arr([]))
  }

  lemma SoundIsKept(host: Host, m: Macro)
    ensures TriggerKept(host, m) <==> TriggerSound(host, m)
  {
  }

  /** What a field of a surviving trigger is worth: its texts trimmed, its times as the compiler takes them. */
  function Survivor(m: Macro, f: Field): Option<Js> {
    match f
    case Pattern => if SaysSomething(Get(m, Pattern)) then Some(Str(Trim(m[Pattern].text))) else None
    case ProfileId =>
      if Get(m, Scope) == Some(Str("profile")) && SaysSomething(Get(m, ProfileId)) then Some(Str(Trim(m[ProfileId].text))) else None
    case Cooldown => NumberOr(CompiledCooldown(Get(m, Cooldown)))
    case Interval => NumberOr(CompiledInterval(Get(m, Interval)))
    case Paused => if Paused in m && m[Paused] == Bool(false) then Some(Bool(false)) else if Truthy(Get(m, Paused)) then Some(Bool(true)) else None
    case _ => Get(m, f)
  }

  /** And then each of its fields is that; otherwise none of it is left. */
  lemma TriggerSurvivesExactly(host: Host, m: Macro, f: Field)
    requires f in {Pattern, Cooldown, Interval, Paused, Scope, ProfileId}
    ensures Get(Sanitized(host, m), f) == if TriggerSound(host, m) then Survivor(m, f) else None
  {
    SoundIsKept(host, m);
    SanitizedField(host, m, f);
    SurvivorClean(host, m, f);
  }

  lemma SurvivorClean(host: Host, m: Macro, f: Field)
    requires f in {Pattern, Cooldown, Interval, Paused, Scope, ProfileId}
    ensures TriggerKept(host, m) ==> Clean(host, m, f) == Survivor(m, f)
    ensures !TriggerKept(host, m) ==> Clean(host, m, f) == None
  {
  }

  /** The first entry with its name. */
  ghost predicate FirstOfName(raw: seq<Js>, j: nat) {
    j < |raw| && VariableName(raw[j]).Some? && forall i | 0 <= i < j :: VariableName(raw[i]) != VariableName(raw[j])
  }

  /** The places of the first `n` entries that were kept: each the first of its name, in order, none left out up to the tenth. */
  ghost predicate Chosen(raw: seq<Js>, kept: seq<Js>, n: nat, at: seq<nat>) {
    && n <= |raw| && |at| == |kept| <= MAX_MACRO_VARIABLES
    && (forall i | 0 <= i < |at| :: at[i] < n && FirstOfName(raw, at[i]) && kept[i] == CleanVariable(raw[at[i]], VariableName(raw[at[i]]).value))
    && (forall i, j | 0 <= i < j < |at| :: at[i] < at[j])
    && (forall j: nat | j < n && FirstOfName(raw, j) :: j in at || |kept| == MAX_MACRO_VARIABLES)
  }

  lemma NamesChosen(raw: seq<Js>, kept: seq<Js>, n: nat, at: seq<nat>)
    requires Chosen(raw, kept, n, at) && |kept| < MAX_MACRO_VARIABLES
    ensures forall name :: name in NamesOf(kept) <==> exists j :: 0 <= j < n && VariableName(raw[j]) == Some(name)
  {
    forall i | 0 <= i < |kept| ensures VariableName(kept[i]) == VariableName(raw[at[i]]) {
      CleaningIsNormal(raw[at[i]], VariableName(raw[at[i]]).value);
    }
    forall name | exists j :: 0 <= j < n && VariableName(raw[j]) == Some(name) ensures name in NamesOf(kept) {
      var j :| 0 <= j < n && VariableName(raw[j]) == Some(name);
      FirstExists(raw, j);
      var f: nat :| f <= j && FirstOfName(raw, f) && VariableName(raw[f]) == Some(name);
      assert f in at;
      var i :| 0 <= i < |at| && at[i] == f;
      assert VariableName(kept[i]) == Some(name);
    }
  }

  lemma FirstExists(raw: seq<Js>, j: nat)
    requires j < |raw| && VariableName(raw[j]).Some?
    ensures exists f: nat :: f <= j && FirstOfName(raw, f) && VariableName(raw[f]) == VariableName(raw[j])
    decreases j
  {
    if i :| 0 <= i < j && VariableName(raw[i]) == VariableName(raw[j]) {
      FirstExists(raw, i);
    } else {
      assert FirstOfName(raw, j);
    }
  }

  /** One entry further: it is chosen when it is the first of its name. */
  lemma ChooseStep(raw: seq<Js>, kept: seq<Js>, n: nat, at: seq<nat>) returns (kept': seq<Js>, at': seq<nat>)
    requires Chosen(raw, kept, n, at) && |kept| < MAX_MACRO_VARIABLES && n < |raw|
    ensures Chosen(raw, kept', n + 1, at')
    ensures CleanVariables(raw[n..], kept) == CleanVariables(raw[n + 1..], kept')
  {
    var name := VariableName(raw[n]);
    assert raw[n..][0] == raw[n] && raw[n..][1..] == raw[n + 1..];
    NamesChosen(raw, kept, n, at);
    if name.Some? && name.value !in NamesOf(kept) {
      kept', at' := kept + [CleanVariable(raw[n], name.value)], at + [n];
      assert FirstOfName(raw, n);
      ChooseNext(raw, kept, n, at);
    } else {
      kept', at' := kept, at;
      assert !FirstOfName(raw, n);
    }
  }

  lemma {:induction false} CleanVariablesChoose(raw: seq<Js>, kept: seq<Js>, n: nat, at: seq<nat>)
    requires Chosen(raw, kept, n, at)
    ensures exists all: seq<nat> :: Chosen(raw, CleanVariables(raw[n..], kept), |raw|, all)
    decreases |raw| - n
  {
    if n == |raw| {
      assert CleanVariables(raw[n..], kept) == kept;
    } else if |kept| == MAX_MACRO_VARIABLES {
      assert CleanVariables(raw[n..], kept) == kept && Chosen(raw, kept, |raw|, at);
    } else {
      var kept', at' := ChooseStep(raw, kept, n, at);
      CleanVariablesChoose(raw, kept', n + 1, at');
    }
  }

  lemma ChooseNext(raw: seq<Js>, kept: seq<Js>, n: nat, at: seq<nat>)
    requires Chosen(raw, kept, n, at) && |kept| < MAX_MACRO_VARIABLES && FirstOfName(raw, n)
    ensures Chosen(raw, kept + [CleanVariable(raw[n], VariableName(raw[n]).value)], n + 1, at + [n])
  {
    var more, all := kept + [CleanVariable(raw[n], VariableName(raw[n]).value)], at + [n];
    forall j: nat | j < n + 1 && FirstOfName(raw, j) ensures j in all || |more| == MAX_MACRO_VARIABLES {
      if j < n {
        assert j in at;
      } else {
        assert all[|at|] == n;
      }
    }
  }

  /**
   Of the declared variables the first ten are kept that have a valid name no earlier one has, in
   their order, each rebuilt from what is usable in it.
   */
  lemma FirstTenVariables(raw: seq<Js>)
    ensures exists at: seq<nat> :: Chosen(raw, CleanVariables(raw, []), |raw|, at)
  {
    assert Chosen(raw, [], 0, []);
    assert raw[0..] == raw;
    CleanVariablesChoose(raw, [], 0, []);
  }
}
