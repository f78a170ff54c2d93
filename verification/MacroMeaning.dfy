/**
 What running a macro can observe of it: its text, the rule its trigger compiles to, its
 shortcut, its prompts and where it runs. Two macros have the same terms exactly when these
 are the same.
 */
module MacroMeaning {
  import opened Json
  import opened MacroKey
  import opened Macros
  import opened Numbers
  import opened Records
  import opened Text

  /** The rule the trigger compiler makes; without a cooldown of its own it follows the setting. */
  datatype Trigger = Trigger(pattern: Js, cooldown: Option<Number>, interval: Option<Number>, paused: bool, scope: string, profile: Js)

  /** What the user is asked for a variable: a masked one has no prefill and is always remembered as told. */
  datatype Prompt = Prompt(name: Js, caption: Option<string>, masked: bool, prefill: string, forgotten: bool)

  datatype Running = Running(
    name: Js, masked: bool, text: Js, trigger: Option<Trigger>, shortcut: Option<string>,
    prompts: seq<Option<Prompt>>, target: string)

  /** No rule without a pattern, nor with a scope the compiler does not know. */
  function TriggerOf(m: Macro): Option<Trigger> {
    if !Truthy(Get(m, Pattern)) then None
    else if Scope in m && m[Scope] != Str("all-terminals") && m[Scope] != Str("active-session") && m[Scope] != Str("profile") then None
    else
      var scope := if Scope in m then m[Scope].text else "all-terminals";
      Some(Trigger(
        m[Pattern],
        InMilliseconds(CooldownOf(Get(m, Cooldown))),
        InMilliseconds(if Interval in m && m[Interval].Num? && Positive(m[Interval].number) then Some(m[Interval].number) else None),
        Truthy(Get(m, Paused)),
        scope,
        if scope == "profile" then OrElse(Get(m, ProfileId), Str("")) else Str("")))
  }

  function InMilliseconds(seconds: Option<Number>): Option<Number> {
    if seconds.Some? then Some(Times(seconds.value, 1000)) else None
  }

  /** Nothing follows the setting; a number counts between 0 and 300 seconds, and anything else as 3. */
  function CooldownOf(v: Option<Js>): Option<Number> {
    if v.None? || v.value.Null? then None
    else if !v.value.Num? || v.value.number.Infinite? then Some(Whole(3))
    else if v.value.number.steps < 0 then Some(Finite(0))
    else if v.value.number.steps > Whole(300).steps then Some(Whole(300))
    else Some(v.value.number)
  }

  /** The key binding in lower case and trimmed, unless it is blank; else what the slot stands for. */
  function ShortcutOf(host: Host, m: Macro): Option<string> {
    if Keybinding in m && m[Keybinding].Str? && Lower(Trim(m[Keybinding].text)) != "" then Some(Lower(Trim(m[Keybinding].text)))
    else if Slot in m then Some("alt+" + host.template(m[Slot]))
    else None
  }

  function TargetOf(m: Macro): string {
    if RunIn in m && m[RunIn] == Str("localTerminal") then "localTerminal"
    else if RunIn in m && m[RunIn] == Str("browser") then "browser"
    else "session"
  }

  lemma CooldownsAgree(v: Option<Js>)
    ensures CompiledCooldown(v) == CooldownOf(v)
  {
  }

  lemma ReadersAgree(host: Host, m: Macro)
    ensures AssignedBinding(host, m) == ShortcutOf(host, m) && RunTarget(m) == TargetOf(m)
  {
  }

  function TextOf(v: Option<Js>): Option<string> {
    if v.Some? && v.value.Str? then Some(v.value.text) else None
  }

  function PromptOf(v: Js): Option<Prompt> {
    if !v.Obj? && !v.Arr? then None
    else
      var masked := Property(v, "secret") == Some(Bool(true));
      Some(Prompt(
        OrElse(Property(v, "name"), Str("")),
        TextOf(Property(v, "label")),
        masked,
        if !masked && TextOf(Property(v, "default")).Some? then TextOf(Property(v, "default")).value else "",
        !masked && Property(v, "remember") == Some(Bool(false))))
  }

  function PromptsOf(m: Macro): seq<Option<Prompt>> {
    if Variables in m && m[Variables].Arr?
    then seq(|m[Variables].items|, i requires 0 <= i < |m[Variables].items| => PromptOf(m[Variables].items[i]))
    else []
  }

  function RunningOf(host: Host, m: Macro): Running {
    Running(OrElse(Get(m, Name), Str("")), Truthy(Get(m, Secret)), OrElse(Get(m, Body), Str("")), TriggerOf(m),
            ShortcutOf(host, m), PromptsOf(m), TargetOf(m))
  }

  lemma SameHead(a: Macro, b: Macro)
    ensures HeadTerms(a) == HeadTerms(b) <==>
      && OrElse(Get(a, Name), Str("")) == OrElse(Get(b, Name), Str(""))
      && (Truthy(Get(a, Secret)) <==> Truthy(Get(b, Secret)))
      && OrElse(Get(a, Body), Str("")) == OrElse(Get(b, Body), Str(""))
  {
    var x, y := HeadTerms(a), HeadTerms(b);
    if x == y {
      assert x[0] == y[0] && x[1] == y[1] && x[2] == y[2];
    }
  }

  lemma CompilesMeans(m: Macro)
    ensures Compiles(m) <==> TriggerOf(m).Some?
  {
  }

  /** A time as a term: nothing is null. */
  function TimeTerm(time: Option<Number>): Js {
    if time.Some? then Num(time.value) else Null
  }

  /** The six terms of a compiled trigger, one by one. */
  lemma TriggerTermsAre(m: Macro)
    ensures |TriggerTerms(m)| == 6
    ensures match TriggerOf(m)
      case None => TriggerTerms(m) == INERT
      case Some(t) =>
        && TriggerTerms(m)[0] == t.pattern != Str("")
        && TriggerTerms(m)[1] == TimeTerm(t.cooldown) && TriggerTerms(m)[2] == TimeTerm(t.interval)
        && TriggerTerms(m)[3] == Bool(t.paused) && TriggerTerms(m)[4] == Str(t.scope) && TriggerTerms(m)[5] == t.profile
  {
    CompilesMeans(m);
    CooldownsAgree(Get(m, Cooldown));
  }

  lemma SameTrigger(a: Macro, b: Macro)
    ensures TriggerTerms(a) == TriggerTerms(b) <==> TriggerOf(a) == TriggerOf(b)
  {
    var x, y := TriggerTerms(a), TriggerTerms(b);
    TriggerTermsAre(a);
    TriggerTermsAre(b);
    assert INERT[0] == Str("");
    if x == y {
      assert x[0] == y[0] && x[1] == y[1] && x[2] == y[2] && x[3] == y[3] && x[4] == y[4] && x[5] == y[5];
    }
    if TriggerOf(a) == TriggerOf(b) {
      assert x == y;
    }
  }

  lemma SamePrompt(v: Js, w: Js)
    ensures VariableTerm(v) == VariableTerm(w) <==> PromptOf(v) == PromptOf(w)
  {
    var x, y := VariableTerm(v), VariableTerm(w);
    if x.Arr? && y.Arr? {
      assert |x.items| == 5 && |y.items| == 5;
      if x == y {
        assert x.items[0] == y.items[0] && x.items[1] == y.items[1] && x.items[2] == y.items[2];
        assert x.items[3] == y.items[3] && x.items[4] == y.items[4];
      }
      if PromptOf(v) == PromptOf(w) {
        assert x.items == y.items;
      }
    }
  }

  lemma SamePrompts(a: Macro, b: Macro)
    ensures VariableTerms(a) == VariableTerms(b) <==> PromptsOf(a) == PromptsOf(b)
  {
    var x, y := PromptsOf(a), PromptsOf(b);
    assert x == [] <==> VariableTerms(a) == Null;
    assert y == [] <==> VariableTerms(b) == Null;
    if x != [] && y != [] {
      var s, t := VariableTerms(a).items, VariableTerms(b).items;
      assert |s| == |x| && |t| == |y|;
      forall i | 0 <= i < |x| && i < |y| ensures s[i] == t[i] <==> x[i] == y[i] {
        SamePrompt(a[Variables].items[i], b[Variables].items[i]);
      }
      if s == t {
        assert forall i | 0 <= i < |x| :: x[i] == y[i];
      }
      if x == y {
        assert forall i | 0 <= i < |s| :: s[i] == t[i];
      }
    }
  }

  lemma ShortcutIsSomething(host: Host, m: Macro)
    ensures AssignedBinding(host, m) != Some("")
  {
    if NormalizeBinding(Get(m, Keybinding)).None? && Slot in m {
      assert |"alt+"| == 4;
    }
  }

  lemma SameTail(host: Host, a: Macro, b: Macro)
    ensures TailTerms(host, a) == TailTerms(host, b) <==>
      && AssignedBinding(host, a) == AssignedBinding(host, b) && PromptsOf(a) == PromptsOf(b) && RunTarget(a) == RunTarget(b)
  {
    var x, y := TailTerms(host, a), TailTerms(host, b);
    SamePrompts(a, b);
    ShortcutIsSomething(host, a);
    ShortcutIsSomething(host, b);
    if x == y {
      assert x[0] == y[0] && x[1] == y[1] && x[2] == y[2];
    }
  }

  /** The content key names everything running a macro can observe, and nothing else. */
  lemma SameMacroRunsAlike(host: Host, a: Macro, b: Macro)
    ensures SameMacro(host, a, b) <==> RunningOf(host, a) == RunningOf(host, b)
  {
    var x, y := Terms(host, a), Terms(host, b);
    TriggerTermsAre(a);
    TriggerTermsAre(b);
    assert |HeadTerms(a)| == 3 && |HeadTerms(b)| == 3;
    if x == y {
      assert HeadTerms(a) == x[..3] && TriggerTerms(a) == x[3..9] && TailTerms(host, a) == x[9..];
      assert HeadTerms(b) == y[..3] && TriggerTerms(b) == y[3..9] && TailTerms(host, b) == y[9..];
    }
    SameHead(a, b);
    SameTrigger(a, b);
    SameTail(host, a, b);
    ReadersAgree(host, a);
    ReadersAgree(host, b);
  }
}
