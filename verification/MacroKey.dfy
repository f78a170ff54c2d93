/**
 The content key of a macro and the imports that skip what they already have.
 */
module MacroKey {
  import opened Json
  import opened Macros
  import opened Numbers
  import opened Records
  import opened Words

  const INERT := [Str(""), Null, Null, Bool(false), Str(""), Str("")]

  function Milliseconds(seconds: Option<Number>): Js {
    if seconds.Some? then Num(Times(seconds.value, 1000)) else Null
  }

  /** There is a pattern, and no scope the compiler does not know. */
  predicate Compiles(m: Macro) {
    Truthy(Get(m, Pattern)) && (Scope in m ==> ValidScope(m[Scope]))
  }

  /** The six trigger fields as the trigger compiler sees them. */
  function TriggerTerms(m: Macro): seq<Js> {
    if !Compiles(m) then INERT
    else
      var scope := if Scope in m then m[Scope] else Str("all-terminals");
      [m[Pattern], Milliseconds(CompiledCooldown(Get(m, Cooldown))), Milliseconds(CompiledInterval(Get(m, Interval))),
       Bool(Truthy(Get(m, Paused))), scope, if scope == Str("profile") then OrElse(Get(m, ProfileId), Str("")) else Str("")]
  }

  function VariableTerm(v: Js): Js {
    if !IsObject(v) then Null
    else
      var secret := Property(v, "secret") == Some(Bool(true));
      var caption := Property(v, "label");
      var prefill := Property(v, "default");
      Arr([OrElse(Property(v, "name"), Str("")),
           if caption.Some? && caption.value.Str? then caption.value else Null,
           Bool(secret),
           if secret then Str("") else if prefill.Some? && prefill.value.Str? then prefill.value else Str(""),
           Bool(!secret && Property(v, "remember") == Some(Bool(false)))])
  }

  function VariableTerms(m: Macro): Js {
    match Get(m, Variables)
    case Some(Arr(items)) =>
      if items == [] then Null else Arr(seq(|items|, i requires 0 <= i < |items| => VariableTerm(items[i])))
    case _ => Null
  }

  function HeadTerms(m: Macro): seq<Js> {
    [OrElse(Get(m, Name), Str("")), Bool(Truthy(Get(m, Secret))), OrElse(Get(m, Body), Str(""))]
  }

  function TailTerms(host: Host, m: Macro): seq<Js> {
    [if AssignedBinding(host, m).Some? then Str(AssignedBinding(host, m).value) else Str(""), VariableTerms(m), Str(RunTarget(m))]
  }

  /** Everything about a macro that running it can observe. */
  function Terms(host: Host, m: Macro): seq<Js> {
    HeadTerms(m) + TriggerTerms(m) + TailTerms(host, m)
  }

  /** `keyOf`. */
  function KeyOf(host: Host, m: Macro): string {
    Encode(host.show, Arr(Terms(host, m)))
  }

  /** Everything about two macros that running them can observe is the same. */
  predicate SameMacro(host: Host, a: Macro, b: Macro) {
    Terms(host, a) == Terms(host, b)
  }

  /** One key is one list of terms, as their text shows them: where infinities look like nothing. */
  lemma KeyShowsTerms(host: Host, a: Macro, b: Macro)
    requires Prints(host.show)
    ensures KeyOf(host, a) == KeyOf(host, b) <==> ShownAll(Terms(host, a)) == ShownAll(Terms(host, b))
  {
    EncodeInjective(host.show, Arr(Terms(host, a)), Arr(Terms(host, b)));
  }

  /** The interval compiles, and in milliseconds it is past every finite number. */
  predicate Overflows(m: Macro) {
    Compiles(m) && CompiledInterval(Get(m, Interval)).Some? && Times(CompiledInterval(Get(m, Interval)).value, 1000).Infinite?
  }

  /** No number in the record is infinite, except perhaps its interval. */
  predicate FiniteFields(m: Macro) {
    forall f | f in m && f != Interval :: ShowsAll(m[f])
  }

  lemma {:induction false} ShownEach(items: seq<Js>)
    ensures |ShownAll(items)| == |items| && forall i | 0 <= i < |items| :: ShownAll(items)[i] == Shown(items[i])
    ensures ShownAll(items) == items <==> forall i | 0 <= i < |items| :: ShowsAll(items[i])
    decreases |items|
  {
    if items != [] {
      ShownEach(items[1..]);
      assert forall i | 0 < i < |items| :: items[i] == items[1..][i - 1];
    }
  }

  lemma {:induction false} FindShown(members: seq<Member>, key: string)
    requires ShownMembers(members) == members && Find(members, key).Some?
    ensures ShowsAll(Find(members, key).value)
    decreases |members|
  {
    assert ShownMembers(members)[0] == members[0];
    if members[0].key != key {
      assert ShownMembers(members)[1..] == members[1..];
      FindShown(members[1..], key);
    }
  }

  lemma VariableTermShown(v: Js)
    requires ShowsAll(v)
    ensures ShowsAll(VariableTerm(v))
  {
    if IsObject(v) {
      if v.Obj? && Find(v.members, "name").Some? {
        FindShown(v.members, "name");
      }
      ShownEach(VariableTerm(v).items);
    }
  }

  lemma VariableTermsShown(m: Macro)
    requires FiniteFields(m)
    ensures ShowsAll(VariableTerms(m))
  {
    if Variables in m && m[Variables].Arr? && m[Variables].items != [] {
      var items := m[Variables].items;
      ShownEach(items);
      forall i | 0 <= i < |items| ensures ShowsAll(VariableTerm(items[i])) {
        VariableTermShown(items[i]);
      }
      ShownEach(VariableTerms(m).items);
    }
  }

  lemma CooldownShown(v: Option<Js>)
    ensures ShowsAll(Milliseconds(CompiledCooldown(v)))
  {
    if CompiledCooldown(v).Some? {
      ThousandfoldFits(CompiledCooldown(v).value, 1074);
    }
  }

  function IntervalTerm(m: Macro): Js {
    Milliseconds(CompiledInterval(Get(m, Interval)))
  }

  /** Of a compiled trigger's terms only the interval can be infinite. */
  lemma CompiledTermsShown(m: Macro)
    requires FiniteFields(m) && Compiles(m)
    ensures |TriggerTerms(m)| == 6 && TriggerTerms(m)[2] == IntervalTerm(m)
    ensures ShownAll(TriggerTerms(m)) == TriggerTerms(m)[2 := Shown(IntervalTerm(m))]
  {
    var terms := TriggerTerms(m);
    ShownEach(terms);
    CooldownShown(Get(m, Cooldown));
    assert ShowsAll(terms[0]) && ShowsAll(terms[1]) && ShowsAll(terms[3]) && ShowsAll(terms[4]) && ShowsAll(terms[5]);
  }

  /** Without its interval a trigger differs in that one term. */
  lemma WithoutInterval(m: Macro)
    requires Compiles(m)
    ensures TriggerTerms(m - {Interval}) == TriggerTerms(m)[2 := Null]
  {
    var bare := m - {Interval};
    assert AlikeAt(bare, m, Pattern) && AlikeAt(bare, m, Cooldown) && AlikeAt(bare, m, Paused);
    assert AlikeAt(bare, m, Scope) && AlikeAt(bare, m, ProfileId) && Get(bare, Interval) == None;
  }

  lemma IntervalShown(m: Macro)
    ensures Compiles(m) && Overflows(m) ==> IntervalTerm(m) == Num(Infinite(false)) && Shown(IntervalTerm(m)) == Null
    ensures Compiles(m) && !Overflows(m) ==> ShowsAll(IntervalTerm(m))
  {
    if CompiledInterval(Get(m, Interval)).Some? {
      PositiveTimes(CompiledInterval(Get(m, Interval)).value, 1000);
    }
  }

  lemma TriggerTermsShown(m: Macro)
    requires FiniteFields(m)
    ensures ShownAll(TriggerTerms(m)) == TriggerTerms(if Overflows(m) then m - {Interval} else m)
    ensures Overflows(m) ==> |TriggerTerms(m)| == 6 && TriggerTerms(m)[2] == Num(Infinite(false))
    ensures Overflows(m) ==> TriggerTerms(m - {Interval}) == TriggerTerms(m)[2 := Null]
  {
    if Compiles(m) {
      CompiledTermsShown(m);
      WithoutInterval(m);
      IntervalShown(m);
    } else {
      ShownEach(INERT);
    }
  }

  lemma ShownJoin(a: seq<Js>, b: seq<Js>)
    ensures ShownAll(a + b) == ShownAll(a) + ShownAll(b)
  {
    ShownEach(a);
    ShownEach(b);
    ShownEach(a + b);
  }

  lemma HeadShown(m: Macro)
    requires FiniteFields(m)
    ensures ShownAll(HeadTerms(m)) == HeadTerms(m) == HeadTerms(m - {Interval})
  {
    var bare := m - {Interval};
    assert AlikeAt(bare, m, Name) && AlikeAt(bare, m, Secret) && AlikeAt(bare, m, Body);
    ShownEach(HeadTerms(m));
  }

  lemma TailShown(host: Host, m: Macro)
    requires FiniteFields(m)
    ensures ShownAll(TailTerms(host, m)) == TailTerms(host, m) == TailTerms(host, m - {Interval})
  {
    var bare := m - {Interval};
    assert AlikeAt(bare, m, Keybinding) && AlikeAt(bare, m, Slot) && AlikeAt(bare, m, Variables) && AlikeAt(bare, m, RunIn);
    VariableTermsShown(m);
    ShownEach(TailTerms(host, m));
  }

  /** What a key shows of a macro is the macro itself, or, when its interval overflows, the one without. */
  lemma TermsShown(host: Host, m: Macro)
    requires FiniteFields(m)
    ensures ShownAll(Terms(host, m)) == Terms(host, if Overflows(m) then m - {Interval} else m)
    ensures Overflows(m) ==> Terms(host, m) != Terms(host, m - {Interval})
  {
    HeadShown(m);
    TriggerTermsShown(m);
    TailShown(host, m);
    ShownJoin(HeadTerms(m), TriggerTerms(m));
    ShownJoin(HeadTerms(m) + TriggerTerms(m), TailTerms(host, m));
    if Overflows(m) {
      assert Terms(host, m)[5] == TriggerTerms(m)[2];
      assert Terms(host, m - {Interval})[5] == TriggerTerms(m - {Interval})[2];
    }
  }

  lemma BareIsFinite(m: Macro)
    requires FiniteFields(m)
    ensures FiniteFields(m - {Interval}) && !Overflows(m - {Interval})
  {
    assert CompiledInterval(Get(m - {Interval}, Interval)).None?;
  }

  /**
   The key is unambiguous exactly for the macros whose interval does not overflow: such a macro
   shares its key with the macros that are the same and with no other; any other macro shares
   its key with the one that has no interval.
   */
  lemma KeyUnambiguous(host: Host, m: Macro)
    requires Prints(host.show) && FiniteFields(m)
    ensures (forall n | FiniteFields(n) && !Overflows(n) :: KeyOf(host, m) == KeyOf(host, n) <==> SameMacro(host, m, n))
            <==> !Overflows(m)
  {
    TermsShown(host, m);
    if Overflows(m) {
      var bare := m - {Interval};
      BareIsFinite(m);
      TermsShown(host, bare);
      KeyShowsTerms(host, m, bare);
      assert KeyOf(host, m) == KeyOf(host, bare) && !SameMacro(host, m, bare);
    } else {
      forall n | FiniteFields(n) && !Overflows(n) ensures KeyOf(host, m) == KeyOf(host, n) <==> SameMacro(host, m, n) {
        TermsShown(host, n);
        KeyShowsTerms(host, m, n);
      }
    }
  }

  lemma TriggerAlike(a: Macro, b: Macro)
    requires AlikeAt(a, b, Pattern) && AlikeAt(a, b, Cooldown) && AlikeAt(a, b, Interval)
    requires AlikeAt(a, b, Paused) && AlikeAt(a, b, Scope) && AlikeAt(a, b, ProfileId)
    ensures TriggerTerms(a) == TriggerTerms(b)
  {
  }

  lemma TermsAlike(host: Host, a: Macro, b: Macro)
    requires TriggerTerms(a) == TriggerTerms(b)
    requires AlikeAt(a, b, Name) && AlikeAt(a, b, Secret) && AlikeAt(a, b, Body) && AlikeAt(a, b, Variables)
    requires AlikeAt(a, b, RunIn) && AlikeAt(a, b, Keybinding) && AlikeAt(a, b, Slot)
    ensures Terms(host, a) == Terms(host, b)
  {
    assert VariableTerms(a) == VariableTerms(b);
    assert AssignedBinding(host, a) == AssignedBinding(host, b);
  }

  /** Two macros alike in every field but their id, folder and capabilities have one key. */
  lemma KeyIgnoresIdentity(host: Host, a: Macro, b: Macro)
    requires a - {Identity, Group, Credentials, Route} == b - {Identity, Group, Credentials, Route}
    ensures KeyOf(host, a) == KeyOf(host, b)
  {
    var ignored := {Identity, Group, Credentials, Route};
    forall f: Field | f !in ignored ensures AlikeAt(a, b, f) {
      assert f in a <==> f in a - ignored;
      assert f in b <==> f in b - ignored;
    }
    TriggerAlike(a, b);
    TermsAlike(host, a, b);
  }

  // ---- the loops ----------------------------------------------------------------------

  function ByContent(host: Host): Macro -> string {
    m => KeyOf(host, m)
  }

  function KeysOf(key: Macro -> string, macros: seq<Macro>): set<string> {
    set i | 0 <= i < |macros| :: key(macros[i])
  }

  function IdsOf(macros: seq<Macro>): set<Js> {
    set i | 0 <= i < |macros| && Truthy(Get(macros[i], Identity)) :: macros[i][Identity]
  }

  predicate IdTaken(m: Macro, ids: set<Js>) {
    Truthy(Get(m, Identity)) && m[Identity] in ids
  }

  /** What the loop appends; ids play a part in merge mode only. */
  function Unseen(key: Macro -> string, incoming: seq<Macro>, ids: set<Js>, keys: set<string>): seq<Macro>
    decreases |incoming|
  {
    if incoming == [] then []
    else if IdTaken(incoming[0], ids) || key(incoming[0]) in keys then Unseen(key, incoming[1..], ids, keys)
    else [incoming[0]] + Unseen(key, incoming[1..], ids, keys + {key(incoming[0])})
  }

  /** `{ ...m, id: m.id ?? randomUUID() }`. */
  function Identified(m: Macro, id: string): Macro {
    if Identity in m && m[Identity] != Null then m else m[Identity := Str(id)]
  }

  /** A record that comes without an id is given one; nothing else about any changes. */
  lemma IdentifiedExactly(m: Macro, id: string)
    ensures
      var after := Identified(m, id);
      && after - {Identity} == m - {Identity}
      && Get(after, Identity) == if Identity in m && m[Identity] != Null then Get(m, Identity) else Some(Str(id))
  {
  }

  function IdentifiedAll(macros: seq<Macro>, mint: nat -> string): seq<Macro> {
    seq(|macros|, i requires 0 <= i < |macros| => Identified(macros[i], mint(i)))
  }

  /** The list a merge saves. */
  function Merged(key: Macro -> string, existing: seq<Macro>, incoming: seq<Macro>, mint: nat -> string): seq<Macro> {
    existing + IdentifiedAll(Unseen(key, incoming, IdsOf(existing), KeysOf(key, existing)), mint)
  }

  /** The merge branch: skips on the id, then on the content, and records the content as it goes. */
  method MergeMacros(key: Macro -> string, existing: seq<Macro>, incoming: seq<Macro>, mint: nat -> string)
    returns (merged: seq<Macro>)
    ensures merged == Merged(key, existing, incoming, mint)
  {
    var ids, keys := IdsOf(existing), KeysOf(key, existing);
    merged := existing;
    ghost var all := Unseen(key, incoming, ids, keys);
    ghost var done: seq<Macro> := [];
    var k := 0;
    while k < |incoming|
      invariant 0 <= k <= |incoming|
      invariant all == done + Unseen(key, incoming[k..], ids, keys)
      invariant merged == existing + IdentifiedAll(done, mint)
    {
      assert incoming[k..][1..] == incoming[k + 1..];
      var m := incoming[k];
      k := k + 1;
      if IdTaken(m, ids) {
        continue;
      }
      if key(m) in keys {
        continue;
      }
      keys := keys + {key(m)};
      merged := merged + [Identified(m, mint(|merged| - |existing|))];
      done := done + [m];
    }
    assert all == done;
  }

  /** The share branch: no id skip; what is not secret arrives sanitized under a new id. */
  method ShareMacros(key: Macro -> string, existing: seq<Macro>, sanitized: seq<Macro>) returns (merged: seq<Macro>)
    ensures merged == existing + Unseen(key, sanitized, {}, KeysOf(key, existing))
  {
    var keys := KeysOf(key, existing);
    merged := existing;
    var k := 0;
    while k < |sanitized|
      invariant 0 <= k <= |sanitized|
      invariant existing + Unseen(key, sanitized, {}, KeysOf(key, existing)) == merged + Unseen(key, sanitized[k..], {}, keys)
    {
      assert sanitized[k..][1..] == sanitized[k + 1..];
      if key(sanitized[k]) !in keys {
        keys := keys + {key(sanitized[k])};
        merged := merged + [sanitized[k]];
      }
      k := k + 1;
    }
  }

  // ---- what the loops keep and drop ---------------------------------------------------

  ghost predicate AmongKeys(key: Macro -> string, m: Macro, macros: seq<Macro>) {
    exists j :: 0 <= j < |macros| && key(macros[j]) == key(m)
  }

  lemma AmongMore(key: Macro -> string, m: Macro, first: Macro, rest: seq<Macro>)
    ensures AmongKeys(key, m, [first] + rest) <==> key(first) == key(m) || AmongKeys(key, m, rest)
  {
    var all := [first] + rest;
    if key(first) == key(m) {
      assert key(all[0]) == key(m);
    }
    if AmongKeys(key, m, rest) {
      var j :| 0 <= j < |rest| && key(rest[j]) == key(m);
      assert key(all[j + 1]) == key(m);
    }
    if AmongKeys(key, m, all) {
      var j :| 0 <= j < |all| && key(all[j]) == key(m);
      assert j > 0 ==> key(rest[j - 1]) == key(m);
    }
  }

  /** Added: from the file, and new. Not added: the id is taken, or the content is known. */
  lemma {:induction false} UnseenByKey(key: Macro -> string, incoming: seq<Macro>, ids: set<Js>, keys: set<string>)
    ensures
      var found := Unseen(key, incoming, ids, keys);
      && (forall m | m in found :: m in incoming && key(m) !in keys && !IdTaken(m, ids))
      && (forall i, j | 0 <= i < j < |found| :: key(found[i]) != key(found[j]))
      && (forall m | m in incoming :: IdTaken(m, ids) || key(m) in keys || AmongKeys(key, m, found))
    decreases |incoming|
  {
    if incoming != [] {
      assert incoming == [incoming[0]] + incoming[1..];
      if IdTaken(incoming[0], ids) || key(incoming[0]) in keys {
        UnseenByKey(key, incoming[1..], ids, keys);
      } else {
        var keys' := keys + {key(incoming[0])};
        var rest := Unseen(key, incoming[1..], ids, keys');
        UnseenByKey(key, incoming[1..], ids, keys');
        forall j | 0 <= j < |rest| ensures key(rest[j]) != key(incoming[0]) {
          assert rest[j] in rest;
        }
        forall m | m in incoming ensures IdTaken(m, ids) || key(m) in keys || AmongKeys(key, m, [incoming[0]] + rest) {
          AmongMore(key, m, incoming[0], rest);
        }
      }
    }
  }

  /** What is added is in the order of the file, and of the records of one content the first that the id does not skip. */
  lemma {:induction false} UnseenInOrder(key: Macro -> string, incoming: seq<Macro>, ids: set<Js>, keys: set<string>)
    ensures Sublist(Unseen(key, incoming, ids, keys), incoming)
    decreases |incoming|
  {
    if incoming != [] {
      var first, rest := incoming[0], incoming[1..];
      if IdTaken(first, ids) || key(first) in keys {
        UnseenInOrder(key, rest, ids, keys);
        UnseenByKey(key, rest, ids, keys);
        SkippedFirst(key, first, Unseen(key, rest, ids, keys), ids, keys);
      } else {
        UnseenInOrder(key, rest, ids, keys + {key(first)});
        var found := Unseen(key, rest, ids, keys + {key(first)});
        assert ([first] + found)[1..] == found;
      }
    }
  }

  lemma SkippedFirst(key: Macro -> string, first: Macro, found: seq<Macro>, ids: set<Js>, keys: set<string>)
    requires IdTaken(first, ids) || key(first) in keys
    requires forall m | m in found :: key(m) !in keys && !IdTaken(m, ids)
    ensures found != [] ==> found[0] != first
  {
    if found != [] {
      assert found[0] in found;
    }
  }

  /** The record at this place is the first of its content that no id skips. */
  ghost predicate FirstOfContent(key: Macro -> string, incoming: seq<Macro>, ids: set<Js>, i: nat) {
    && i < |incoming| && !IdTaken(incoming[i], ids)
    && forall j | 0 <= j < i :: key(incoming[j]) == key(incoming[i]) ==> IdTaken(incoming[j], ids)
  }

  lemma {:induction false} FirstsAreAdded(key: Macro -> string, incoming: seq<Macro>, ids: set<Js>, keys: set<string>, i: nat)
    requires FirstOfContent(key, incoming, ids, i) && key(incoming[i]) !in keys
    ensures incoming[i] in Unseen(key, incoming, ids, keys)
    decreases |incoming|
  {
    if i > 0 {
      var rest := incoming[1..];
      assert rest[i - 1] == incoming[i];
      assert forall j | 0 <= j < i - 1 :: rest[j] == incoming[j + 1];
      FirstsAreAdded(key, rest, ids,
                     if IdTaken(incoming[0], ids) || key(incoming[0]) in keys then keys else keys + {key(incoming[0])}, i - 1);
    }
  }

  ghost predicate Among(host: Host, m: Macro, macros: seq<Macro>) {
    exists j :: 0 <= j < |macros| && SameMacro(host, m, macros[j])
  }

  /** No macro of the list has an infinite number, or an interval that overflows. */
  ghost predicate Precise(macros: seq<Macro>) {
    forall m | m in macros :: FiniteFields(m) && !Overflows(m)
  }

  lemma AmongByContent(host: Host, m: Macro, macros: seq<Macro>)
    requires Prints(host.show) && Precise(macros) && FiniteFields(m) && !Overflows(m)
    ensures Among(host, m, macros) <==> AmongKeys(ByContent(host), m, macros)
  {
    KeyUnambiguous(host, m);
    forall j | 0 <= j < |macros|
      ensures SameMacro(host, m, macros[j]) <==> ByContent(host)(macros[j]) == ByContent(host)(m)
    {
      assert macros[j] in macros;
    }
  }

  /**
   The loops drop no distinct macro and keep no two equal ones, as far as no interval overflows:
   what is added differs in its terms from everything there and from everything else added, and
   what is not added has its id taken or its equal there or among the added.
   */
  lemma DedupKeepsExactlyDistinct(host: Host, existing: seq<Macro>, incoming: seq<Macro>, ids: set<Js>)
    requires Prints(host.show) && Precise(existing) && Precise(incoming)
    ensures
      var added := Unseen(ByContent(host), incoming, ids, KeysOf(ByContent(host), existing));
      && (forall m | m in added :: m in incoming && !Among(host, m, existing) && !IdTaken(m, ids))
      && (forall i, j | 0 <= i < j < |added| :: !SameMacro(host, added[i], added[j]))
      && (forall m | m in incoming :: IdTaken(m, ids) || Among(host, m, existing) || Among(host, m, added))
  {
    var key := ByContent(host);
    var keys := KeysOf(key, existing);
    var added := Unseen(key, incoming, ids, keys);
    UnseenByKey(key, incoming, ids, keys);
    forall m | m in incoming ensures Among(host, m, existing) <==> key(m) in keys {
      AmongByContent(host, m, existing);
      KnownByKey(key, m, existing);
    }
    forall m | m in incoming ensures Among(host, m, added) <==> AmongKeys(key, m, added) {
      AmongByContent(host, m, added);
    }
    forall i, j | 0 <= i < j < |added| ensures !SameMacro(host, added[i], added[j]) {
      assert added[i] in incoming && added[j] in incoming;
      KeyUnambiguous(host, added[i]);
      assert key(added[i]) != key(added[j]);
    }
  }

  lemma UnseenOne(key: Macro -> string, m: Macro, keys: set<string>)
    ensures Unseen(key, [m], {}, keys) == if key(m) in keys then [] else [m]
  {
    assert [m][1..] == [];
    assert [m] + [] == [m];
  }

  /**
   A macro is treated rightly by the loop - dropped where it is known, added where it is not,
   whatever sound list it comes to - exactly when its interval does not overflow.
   */
  lemma DedupRightExactlyWithoutOverflow(host: Host, m: Macro)
    requires Prints(host.show) && FiniteFields(m)
    ensures
      (forall existing | Precise(existing) ::
         Unseen(ByContent(host), [m], {}, KeysOf(ByContent(host), existing)) == if Among(host, m, existing) then [] else [m])
      <==> !Overflows(m)
  {
    var key := ByContent(host);
    if Overflows(m) {
      OverflowIsDropped(host, m);
      BareIsFinite(m);
      var existing := [m - {Interval}];
      assert Precise(existing);
      assert Unseen(key, [m], {}, KeysOf(key, existing)) == [] && !Among(host, m, existing);
    } else {
      forall existing | Precise(existing)
        ensures Unseen(key, [m], {}, KeysOf(key, existing)) == if Among(host, m, existing) then [] else [m]
      {
        AmongByContent(host, m, existing);
        KnownByKey(key, m, existing);
        UnseenOne(key, m, KeysOf(key, existing));
      }
    }
  }

  /** A macro whose interval overflows is dropped beside the one without an interval, though it is another macro. */
  lemma OverflowIsDropped(host: Host, m: Macro)
    requires FiniteFields(m) && Overflows(m)
    ensures !Among(host, m, [m - {Interval}])
    ensures Unseen(ByContent(host), [m], {}, KeysOf(ByContent(host), [m - {Interval}])) == []
  {
    var bare := m - {Interval};
    BareIsFinite(m);
    TermsShown(host, m);
    TermsShown(host, bare);
    PutShown(host.show, Arr(Terms(host, m)), "");
    PutShown(host.show, Arr(Terms(host, bare)), "");
    assert KeyOf(host, m) == KeyOf(host, bare);
    assert ByContent(host)([bare][0]) in KeysOf(ByContent(host), [bare]);
    UnseenOne(ByContent(host), m, KeysOf(ByContent(host), [bare]));
  }

  function EveryPow2(n: nat): Macro {
    map[Pattern := Str("x"), Interval := Num(Finite(Pow2(n)))]
  }

  lemma HugeIntervalOverflows(n: nat)
    requires n >= 2090
    ensures FiniteFields(EveryPow2(n)) && Overflows(EveryPow2(n))
  {
    ThousandfoldOverflow(n);
    var m := EveryPow2(n);
    assert Get(m, Interval) == Some(Num(Finite(Pow2(n)))) && Get(m, Pattern) == Some(Str("x"));
    assert CompiledInterval(Get(m, Interval)) == Some(Finite(Pow2(n)));
  }

  /** Such an input: a trigger every 2^1016 seconds or more. */
  lemma HugeIntervalIsDropped(host: Host, n: nat)
    requires n >= 2090
    ensures var m := EveryPow2(n);
            && !SameMacro(host, m, m - {Interval})
            && Unseen(ByContent(host), [m], {}, KeysOf(ByContent(host), [m - {Interval}])) == []
  {
    HugeIntervalOverflows(n);
    OverflowIsDropped(host, EveryPow2(n));
    TermsShown(host, EveryPow2(n));
  }

  lemma KnownByKey(key: Macro -> string, m: Macro, macros: seq<Macro>)
    ensures AmongKeys(key, m, macros) <==> key(m) in KeysOf(key, macros)
  {
    if AmongKeys(key, m, macros) {
      var j :| 0 <= j < |macros| && key(macros[j]) == key(m);
      assert key(macros[j]) in KeysOf(key, macros);
    }
  }

  // ---- the same file again ------------------------------------------------------------

  /** How a list comes back from the store: ids may have been reassigned, contents have not. */
  ghost predicate SameContents(key: Macro -> string, saved: seq<Macro>, given: seq<Macro>) {
    |saved| == |given| && forall i | 0 <= i < |given| :: key(saved[i]) == key(given[i])
  }

  lemma SameContentsSameKeys(key: Macro -> string, saved: seq<Macro>, given: seq<Macro>)
    requires SameContents(key, saved, given)
    ensures KeysOf(key, saved) == KeysOf(key, given)
  {
    forall i | 0 <= i < |given| ensures key(given[i]) in KeysOf(key, saved) {
      assert key(saved[i]) == key(given[i]);
    }
  }

  lemma {:induction false} NothingUnseen(key: Macro -> string, incoming: seq<Macro>, ids: set<Js>, keys: set<string>)
    requires forall m | m in incoming :: IdTaken(m, ids) || key(m) in keys
    ensures Unseen(key, incoming, ids, keys) == []
    decreases |incoming|
  {
    if incoming != [] {
      assert incoming == [incoming[0]] + incoming[1..];
      NothingUnseen(key, incoming[1..], ids, keys);
    }
  }

  /** A content key does not look at the id. */
  ghost predicate BlindToIds(key: Macro -> string) {
    forall m, id :: key(Identified(m, id)) == key(m)
  }

  lemma ContentIsBlindToIds(host: Host)
    ensures BlindToIds(ByContent(host))
  {
    forall m: Macro, id: string ensures KeyOf(host, Identified(m, id)) == KeyOf(host, m) {
      assert Identified(m, id) - {Identity, Group, Credentials, Route} == m - {Identity, Group, Credentials, Route};
      KeyIgnoresIdentity(host, Identified(m, id), m);
    }
  }

  lemma MergedKeys(key: Macro -> string, existing: seq<Macro>, added: seq<Macro>, mint: nat -> string)
    requires BlindToIds(key)
    ensures KeysOf(key, existing + IdentifiedAll(added, mint)) == KeysOf(key, existing) + KeysOf(key, added)
  {
    var all := existing + IdentifiedAll(added, mint);
    forall i | 0 <= i < |added| ensures key(added[i]) in KeysOf(key, all) {
      assert key(all[|existing| + i]) == key(added[i]);
    }
    forall i | 0 <= i < |existing| ensures key(existing[i]) in KeysOf(key, all) {
      assert key(all[i]) == key(existing[i]);
    }
  }

  /**
   Between two merges a list that keeps the contents it was given, whatever ids it gives them, and
   the ids it already had, makes the second add nothing. The store itself need not keep contents.
   */
  lemma MergeMacrosAgainAddsNothing(host: Host, existing: seq<Macro>, incoming: seq<Macro>, saved: seq<Macro>,
                                    mint: nat -> string, mint': nat -> string)
    requires SameContents(ByContent(host), saved, Merged(ByContent(host), existing, incoming, mint))
    requires IdsOf(existing) <= IdsOf(saved)
    ensures Merged(ByContent(host), saved, incoming, mint') == saved
  {
    var key := ByContent(host);
    var added := Unseen(key, incoming, IdsOf(existing), KeysOf(key, existing));
    ContentIsBlindToIds(host);
    UnseenByKey(key, incoming, IdsOf(existing), KeysOf(key, existing));
    SameContentsSameKeys(key, saved, Merged(key, existing, incoming, mint));
    MergedKeys(key, existing, added, mint);
    forall m | m in incoming ensures IdTaken(m, IdsOf(saved)) || key(m) in KeysOf(key, saved) {
      KnownByKey(key, m, added);
    }
    NothingUnseen(key, incoming, IdsOf(saved), KeysOf(key, saved));
  }

  // ---- macro folders ------------------------------------------------------------------

  /** `[...new Set([...a, ...b])]`. */
  function Union(a: seq<string>, b: seq<string>): seq<string>
    decreases |b|
  {
    if b == [] then a else Union(if b[0] in a then a else a + [b[0]], b[1..])
  }

  lemma {:induction false} UnionHas(a: seq<string>, b: seq<string>)
    ensures forall x :: x in Union(a, b) <==> x in a || x in b
    ensures a <= Union(a, b)
    decreases |b|
  {
    if b != [] {
      assert b == [b[0]] + b[1..];
      UnionHas(if b[0] in a then a else a + [b[0]], b[1..]);
    }
  }

  lemma {:induction false} UnionOfKnown(a: seq<string>, b: seq<string>)
    requires forall x | x in b :: x in a
    ensures Union(a, b) == a
    decreases |b|
  {
    if b != [] {
      assert b == [b[0]] + b[1..];
      UnionOfKnown(a, b[1..]);
    }
  }

  /** Merging the folder list of a file twice adds no folder the second time. */
  lemma FoldersMergeOnce(existing: seq<string>, incoming: seq<string>)
    ensures Union(Union(existing, incoming), incoming) == Union(existing, incoming)
  {
    UnionHas(existing, incoming);
    UnionOfKnown(Union(existing, incoming), incoming);
  }
}
