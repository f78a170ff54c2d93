/**
 What the macro store does to a list it is given: records it cannot use are dropped, every
 record gets an id of its own, and old spellings are rewritten. A restored file, merged again,
 must find itself in the result.
 */
module MacroStorage {
  import opened Json
  import opened MacroKey
  import opened Macros
  import opened MacroSanitize
  import opened Records
  import opened Text

  // ---- one record ---------------------------------------------------------------------

  /** `isUsableMacro`. */
  predicate Usable(m: Macro) {
    Name in m && m[Name].Str? && Body in m && m[Body].Str?
  }

  /** The binding a legacy slot stands for. */
  function SlotBinding(host: Host, m: Macro): string
    requires Slot in m
  {
    "alt+" + host.template(m[Slot])
  }

  /** `withMigratedSlot`. */
  function MigratedSlot(host: Host, m: Macro): Macro {
    if Slot !in m || Truthy(Get(m, Keybinding)) then m
    else m[Keybinding := Str(SlotBinding(host, m))] - {Slot}
  }

  function WithoutKeys(members: seq<Member>, keys: set<string>): seq<Member> {
    if members == [] then []
    else (if members[0].key in keys then [] else [members[0]]) + WithoutKeys(members[1..], keys)
  }

  /** A masked variable keeps no default and no remember. */
  function RedactedEntry(v: Js): Js {
    if v.Obj? && Property(v, "secret") == Some(Bool(true)) then Obj(WithoutKeys(v.members, {"default", "remember"})) else v
  }

  function RedactedEntries(vs: seq<Js>): seq<Js> {
    seq(|vs|, i requires 0 <= i < |vs| => RedactedEntry(vs[i]))
  }

  /** `withRedactedVariables`. */
  function Redacted(m: Macro): Macro {
    if Variables !in m then m
    else if !m[Variables].Arr? then m - {Variables}
    else m[Variables := Arr(RedactedEntries(m[Variables].items))]
  }

  /** `dropNonPathGroup`. */
  function GroupGuarded(m: Macro): Macro {
    if Group in m && !(m[Group].Str? && Trim(m[Group].text) != "") then m - {Group} else m
  }

  function Stored(host: Host, m: Macro): Macro {
    GroupGuarded(Redacted(MigratedSlot(host, m)))
  }

  // ---- the list -----------------------------------------------------------------------

  function UsableOnes(macros: seq<Macro>): seq<Macro> {
    if macros == [] then [] else (if Usable(macros[0]) then [macros[0]] else []) + UsableOnes(macros[1..])
  }

  predicate HasId(m: Macro) {
    Identity in m && m[Identity].Str? && m[Identity].text != ""
  }

  function OwnOr(m: Macro, claimed: set<string>, minted: string): string {
    if HasId(m) && m[Identity].text !in claimed then m[Identity].text else minted
  }

  /** `assignMacroIds`: an id is kept unless an earlier record has it; the `k`th record may get `mint(k)`. */
  function AssignedIds(macros: seq<Macro>, mint: nat -> string, claimed: set<string>, k: nat): seq<Macro>
    decreases |macros|
  {
    if macros == [] then []
    else
      var id := OwnOr(macros[0], claimed, mint(k));
      [macros[0][Identity := Str(id)]] + AssignedIds(macros[1..], mint, claimed + {id}, k + 1)
  }

  function StoredAll(host: Host, macros: seq<Macro>): seq<Macro> {
    seq(|macros|, i requires 0 <= i < |macros| => Stored(host, macros[i]))
  }

  /** `MacroStore.save`: what the store holds afterwards. */
  function Saved(host: Host, macros: seq<Macro>, mint: nat -> string): seq<Macro> {
    StoredAll(host, AssignedIds(UsableOnes(macros), mint, {}, 0))
  }

  function Stripped(macros: seq<Macro>): seq<Macro> {
    seq(|macros|, i requires 0 <= i < |macros| => macros[i] - {Identity})
  }

  /** `MacroStore.replaceAll`: no id of the file is an id here. */
  function Replaced(host: Host, macros: seq<Macro>, mint: nat -> string): seq<Macro> {
    Saved(host, Stripped(macros), mint)
  }

  // ---- the key of a stored record -----------------------------------------------------

  /** The binding is spelled as the store spells it. */
  predicate Spelled(binding: string) {
    NormalizeBinding(Some(Str(binding))) == Some(binding)
  }

  /** The slot stands for a binding the store spells as it is. */
  predicate SlotSettled(host: Host, m: Macro) {
    Slot in m && Keybinding !in m ==> Spelled(SlotBinding(host, m))
  }

  lemma {:induction false} TrimKeepsFirst(s: string)
    requires s != "" && !IsSpace(s[0])
    ensures TrimRight(s) != ""
    decreases |s|
  {
    if IsSpace(s[|s| - 1]) {
      TrimKeepsFirst(s[..|s| - 1]);
    }
  }

  /** What begins visibly is a binding of some spelling. */
  lemma VisibleBinds(s: string)
    requires s != "" && !IsSpace(s[0])
    ensures NormalizeBinding(Some(Str(s))).Some?
  {
    TrimKeepsFirst(s);
  }

  /** A key binding, if there is one, is a binding. */
  predicate BindingClean(m: Macro) {
    Keybinding in m ==> m[Keybinding].Str? && ValidBinding(m[Keybinding].text)
  }

  /** The effective binding of a stored record is spelled as the store spells it. */
  lemma StoredBinding(host: Host, m: Macro)
    requires BindingClean(m)
    ensures
      var before, after := AssignedBinding(host, m), AssignedBinding(host, Stored(host, m));
      && (after.Some? ==> Spelled(after.value))
      && (after == before <==> SlotSettled(host, m))
      && (!SlotSettled(host, m) ==> before.Some? && !Spelled(before.value))
  {
    StoredBindingFields(host, m);
    if Keybinding in m {
      ValidBindingBinds(m[Keybinding].text);
      NormalizedStays(Get(m, Keybinding));
      assert MigratedSlot(host, m) == m;
    } else {
      MigratedBinding(host, m);
    }
    assert AssignedBinding(host, Stored(host, m)) == AssignedBinding(host, MigratedSlot(host, m));
  }

  /** The later rewritings leave the binding to the first. */
  lemma StoredBindingFields(host: Host, m: Macro)
    ensures AlikeAt(Stored(host, m), MigratedSlot(host, m), Keybinding) && AlikeAt(Stored(host, m), MigratedSlot(host, m), Slot)
  {
  }

  lemma MigratedBinding(host: Host, m: Macro)
    requires Keybinding !in m
    ensures
      var before, after := AssignedBinding(host, m), AssignedBinding(host, MigratedSlot(host, m));
      if Slot in m then
        && before == Some(SlotBinding(host, m)) && after.Some? && Spelled(after.value)
        && (after == before <==> Spelled(SlotBinding(host, m)))
      else before == after == None
  {
    if Slot in m {
      var binding := SlotBinding(host, m);
      assert binding[0] == 'a';
      VisibleBinds(binding);
      NormalizedStays(Some(Str(binding)));
    }
  }

  lemma ValidBindingBinds(s: string)
    requires ValidBinding(s)
    ensures s != "" && NormalizeBinding(Some(Str(s))).Some?
  {
    var b := Lower(s);
    assert 'A' <= s[0] <= 'Z' || b[0] == s[0];
    VisibleBinds(s);
  }

  lemma {:induction false} FindWithout(members: seq<Member>, keys: set<string>, key: string)
    requires key !in keys
    ensures Find(WithoutKeys(members, keys), key) == Find(members, key)
    decreases |members|
  {
    if members != [] {
      FindWithout(members[1..], keys, key);
      assert ([members[0]] + WithoutKeys(members[1..], keys))[1..] == WithoutKeys(members[1..], keys);
      assert [] + WithoutKeys(members[1..], keys) == WithoutKeys(members[1..], keys);
    }
  }

  lemma RedactedTerm(v: Js)
    ensures VariableTerm(RedactedEntry(v)) == VariableTerm(v)
  {
    if v.Obj? && Property(v, "secret") == Some(Bool(true)) {
      var keys := {"default", "remember"};
      assert |"secret"| == 6 && |"name"| == 4 && |"label"| == 5 && |"default"| == 7 && |"remember"| == 8;
      FindWithout(v.members, keys, "name");
      FindWithout(v.members, keys, "label");
      FindWithout(v.members, keys, "secret");
    }
  }

  lemma RedactedTerms(m: Macro)
    ensures VariableTerms(Redacted(m)) == VariableTerms(m)
  {
    if Variables in m && m[Variables].Arr? {
      var items := m[Variables].items;
      forall i | 0 <= i < |items| ensures VariableTerm(RedactedEntries(items)[i]) == VariableTerm(items[i]) {
        RedactedTerm(items[i]);
      }
    }
  }

  /** The fields storing can rewrite. */
  const REWRITTEN: set<Field> := {Keybinding, Slot, Variables, Group}

  lemma StoredField(host: Host, m: Macro, f: Field)
    requires f !in REWRITTEN
    ensures AlikeAt(Stored(host, m), m, f)
  {
    var moved := MigratedSlot(host, m);
    assert AlikeAt(moved, m, f);
    assert AlikeAt(Redacted(moved), moved, f);
  }

  lemma StoredVariables(host: Host, m: Macro)
    ensures VariableTerms(Stored(host, m)) == VariableTerms(m)
  {
    var moved := MigratedSlot(host, m);
    assert AlikeAt(moved, m, Variables);
    RedactedTerms(moved);
    assert AlikeAt(Stored(host, m), Redacted(moved), Variables);
  }

  /** Storing a record leaves all its terms alone, but for the spelling of its binding. */
  lemma StoredTerms(host: Host, m: Macro)
    ensures HeadTerms(Stored(host, m)) == HeadTerms(m) && TriggerTerms(Stored(host, m)) == TriggerTerms(m)
    ensures VariableTerms(Stored(host, m)) == VariableTerms(m) && RunTarget(Stored(host, m)) == RunTarget(m)
  {
    var s := Stored(host, m);
    forall f: Field | f !in REWRITTEN ensures AlikeAt(s, m, f) {
      StoredField(host, m, f);
    }
    StoredVariables(host, m);
    TriggerAlike(s, m);
    assert AlikeAt(s, m, Name) && AlikeAt(s, m, Secret) && AlikeAt(s, m, Body) && AlikeAt(s, m, RunIn);
  }

  /** A stored record has the key it came with when its slot is settled. */
  lemma SettledKeepsKey(host: Host, m: Macro)
    requires BindingClean(m) && SlotSettled(host, m)
    ensures KeyOf(host, Stored(host, m)) == KeyOf(host, m)
  {
    StoredTerms(host, m);
    StoredBinding(host, m);
  }

  function BindingText(host: Host, m: Macro): string {
    if AssignedBinding(host, m).Some? then AssignedBinding(host, m).value else ""
  }

  lemma BindingTerm(host: Host, m: Macro)
    ensures |Terms(host, m)| == 12 && Terms(host, m)[9] == Str(BindingText(host, m))
  {
    assert |HeadTerms(m)| == 3 && |TriggerTerms(m)| == 6 && |TailTerms(host, m)| == 3;
    assert Terms(host, m)[9] == TailTerms(host, m)[0];
  }

  lemma SameKeySameBinding(host: Host, a: Macro, b: Macro)
    requires Prints(host.show) && KeyOf(host, a) == KeyOf(host, b)
    ensures BindingText(host, a) == BindingText(host, b)
  {
    KeyShowsTerms(host, a, b);
    BindingTerm(host, a);
    BindingTerm(host, b);
    ShownEach(Terms(host, a));
    ShownEach(Terms(host, b));
  }

  /** Where it is not, no stored record has the key it came with. */
  lemma UnsettledHasNoKey(host: Host, m: Macro, n: Macro)
    requires Prints(host.show) && BindingClean(m) && BindingClean(n) && !SlotSettled(host, m)
    ensures KeyOf(host, m) != KeyOf(host, Stored(host, n))
  {
    StoredBinding(host, m);
    StoredBinding(host, n);
    if KeyOf(host, m) == KeyOf(host, Stored(host, n)) {
      SameKeySameBinding(host, m, Stored(host, n));
    }
  }

  // ---- lists --------------------------------------------------------------------------

  lemma {:induction false} UsableJoin(a: seq<Macro>, b: seq<Macro>)
    ensures UsableOnes(a + b) == UsableOnes(a) + UsableOnes(b)
    decreases |a|
  {
    if a == [] {
      assert a + b == b;
    } else {
      var head := if Usable(a[0]) then [a[0]] else [];
      assert (a + b)[0] == a[0] && (a + b)[1..] == a[1..] + b;
      UsableJoin(a[1..], b);
      assert UsableOnes(a + b) == head + (UsableOnes(a[1..]) + UsableOnes(b));
      assert UsableOnes(a) == head + UsableOnes(a[1..]);
    }
  }

  lemma {:induction false} UsableAre(macros: seq<Macro>)
    ensures forall m :: m in UsableOnes(macros) <==> m in macros && Usable(m)
    ensures (forall m | m in macros :: Usable(m)) ==> UsableOnes(macros) == macros
    ensures (forall m | m in macros :: !Usable(m)) ==> UsableOnes(macros) == []
    decreases |macros|
  {
    if macros != [] {
      assert macros == [macros[0]] + macros[1..];
      UsableAre(macros[1..]);
    }
  }

  /** The usable records are kept in their order, as often as they are there. */
  lemma {:induction false} UsableInOrder(macros: seq<Macro>)
    ensures Sublist(UsableOnes(macros), macros)
    ensures forall m :: multiset(UsableOnes(macros))[m] == if Usable(m) then multiset(macros)[m] else 0
    decreases |macros|
  {
    if macros != [] {
      var first, rest := macros[0], UsableOnes(macros[1..]);
      UsableInOrder(macros[1..]);
      assert macros == [first] + macros[1..] && multiset(macros) == multiset{first} + multiset(macros[1..]);
      if Usable(first) {
        assert UsableOnes(macros) == [first] + rest && ([first] + rest)[1..] == rest;
        assert multiset([first] + rest) == multiset{first} + multiset(rest);
      } else {
        assert UsableOnes(macros) == rest;
        LeftOut(first, macros[1..], rest);
      }
    }
  }

  lemma LeftOut(first: Macro, macros: seq<Macro>, kept: seq<Macro>)
    requires Sublist(kept, macros) && multiset(kept)[first] == 0
    ensures Sublist(kept, [first] + macros)
  {
    assert ([first] + macros)[1..] == macros;
    assert kept != [] ==> kept[0] in multiset(kept);
  }

  /** Ids that are good, new and all different. */
  ghost predicate Supplies(mint: nat -> string) {
    (forall i: nat :: mint(i) != "") && (forall i: nat, j: nat :: mint(i) == mint(j) ==> i == j)
  }

  lemma {:induction false} StrippedGetNewIds(macros: seq<Macro>, mint: nat -> string, claimed: set<string>, k: nat)
    requires Supplies(mint) && forall m | m in macros :: Identity !in m
    ensures |AssignedIds(macros, mint, claimed, k)| == |macros|
    ensures forall i | 0 <= i < |macros| :: AssignedIds(macros, mint, claimed, k)[i] == macros[i][Identity := Str(mint(k + i))]
    decreases |macros|
  {
    if macros != [] {
      var rest := AssignedIds(macros[1..], mint, claimed + {mint(k)}, k + 1);
      StrippedGetNewIds(macros[1..], mint, claimed + {mint(k)}, k + 1);
      assert macros[0] in macros;
      var all := [macros[0][Identity := Str(mint(k))]] + rest;
      forall i | 0 < i < |macros| ensures all[i] == macros[i][Identity := Str(mint(k + i))] {
        assert all[i] == rest[i - 1] && macros[1..][i - 1] == macros[i];
      }
    }
  }

  function IdOf(m: Macro): string {
    if HasId(m) then m[Identity].text else ""
  }

  /** Every record has an id, and no two have one. */
  ghost predicate OwnIds(macros: seq<Macro>) {
    && (forall m | m in macros :: HasId(m))
    && (forall i, j | 0 <= i < j < |macros| :: Get(macros[i], Identity) != Get(macros[j], Identity))
  }

  /** Past the first record, its id is claimed and all others are not. */
  lemma LaterUnclaimed(macros: seq<Macro>, claimed: set<string>)
    requires macros != [] && OwnIds(macros) && forall m | m in macros :: IdOf(m) !in claimed
    ensures OwnIds(macros[1..]) && forall m | m in macros[1..] :: IdOf(m) !in claimed + {IdOf(macros[0])}
    ensures macros[0] in macros && macros[0][Identity := Str(IdOf(macros[0]))] == macros[0]
  {
    assert macros[0] in macros;
    forall m | m in macros[1..] ensures IdOf(m) !in claimed + {IdOf(macros[0])} {
      var i :| 0 <= i < |macros[1..]| && macros[1..][i] == m;
      assert macros[i + 1] == m && HasId(m) && Get(m, Identity) != Get(macros[0], Identity);
    }
  }

  lemma {:induction false} OwnIdsStay(macros: seq<Macro>, mint: nat -> string, claimed: set<string>, k: nat)
    requires OwnIds(macros) && forall m | m in macros :: IdOf(m) !in claimed
    ensures AssignedIds(macros, mint, claimed, k) == macros
    decreases |macros|
  {
    if macros != [] {
      LaterUnclaimed(macros, claimed);
      OwnIdsStay(macros[1..], mint, claimed + {IdOf(macros[0])}, k + 1);
    }
  }

  lemma StoredSettles(host: Host, m: Macro)
    ensures Stored(host, Stored(host, m)) == Stored(host, m)
  {
    var s := Stored(host, m);
    var moved := MigratedSlot(host, m);
    assert Get(s, Keybinding) == Get(moved, Keybinding) && Get(s, Slot) == Get(moved, Slot);
    assert MigratedSlot(host, s) == s;
    RedactedSettles(moved);
    assert AlikeAt(s, Redacted(moved), Variables);
    RedactedWhereAlike(s, Redacted(moved));
  }

  lemma RedactedWhereAlike(s: Macro, r: Macro)
    requires AlikeAt(s, r, Variables) && Redacted(r) == r
    ensures Redacted(s) == s
  {
    if Variables in s {
      assert r[Variables] == s[Variables];
      if s[Variables].Arr? {
        assert Redacted(r)[Variables] == r[Variables];
      }
    }
  }

  lemma {:induction false} WithoutKeysTwice(members: seq<Member>, keys: set<string>)
    ensures WithoutKeys(WithoutKeys(members, keys), keys) == WithoutKeys(members, keys)
    decreases |members|
  {
    if members != [] {
      WithoutKeysTwice(members[1..], keys);
      var rest := WithoutKeys(members[1..], keys);
      if members[0].key in keys {
        assert WithoutKeys(members, keys) == rest;
      } else {
        assert WithoutKeys(members, keys)[1..] == rest;
      }
    }
  }

  lemma RedactedSettles(m: Macro)
    ensures Redacted(Redacted(m)) == Redacted(m)
  {
    if Variables in m && m[Variables].Arr? {
      var items := m[Variables].items;
      forall i | 0 <= i < |items| ensures RedactedEntry(RedactedEntry(items[i])) == RedactedEntry(items[i]) {
        if items[i].Obj? {
          var keys := {"default", "remember"};
          assert |"secret"| == 6 && |"default"| == 7 && |"remember"| == 8;
          FindWithout(items[i].members, keys, "secret");
          WithoutKeysTwice(items[i].members, keys);
        }
      }
      assert RedactedEntries(RedactedEntries(items)) == RedactedEntries(items);
    }
  }

  // ---- the same file again ------------------------------------------------------------

  lemma StrippedHaveNoId(incoming: seq<Macro>)
    ensures forall m | m in UsableOnes(Stripped(incoming)) :: Identity !in m
  {
    UsableAre(Stripped(incoming));
    forall m | m in Stripped(incoming) ensures Identity !in m {
      var i :| 0 <= i < |Stripped(incoming)| && Stripped(incoming)[i] == m;
    }
  }

  /** What the store holds after a replace, record by record. */
  lemma ReplacedAre(host: Host, incoming: seq<Macro>, mint: nat -> string)
    requires Supplies(mint)
    ensures
      var usable, there := UsableOnes(Stripped(incoming)), Replaced(host, incoming, mint);
      && |there| == |usable|
      && forall i | 0 <= i < |there| :: there[i] == Stored(host, usable[i][Identity := Str(mint(i))])
  {
    StrippedHaveNoId(incoming);
    StrippedGetNewIds(UsableOnes(Stripped(incoming)), mint, {}, 0);
  }

  lemma {:induction false} StrippedUsable(incoming: seq<Macro>)
    ensures UsableOnes(Stripped(incoming)) == Stripped(UsableOnes(incoming))
    decreases |incoming|
  {
    if incoming != [] {
      assert Stripped(incoming)[1..] == Stripped(incoming[1..]);
      StrippedUsable(incoming[1..]);
      assert Usable(incoming[0] - {Identity}) <==> Usable(incoming[0]);
      assert Stripped([incoming[0]] + UsableOnes(incoming[1..])) == [incoming[0] - {Identity}] + Stripped(UsableOnes(incoming[1..]));
    }
  }

  /** A record under another id. */
  function Rekeyed(m: Macro, id: string): Macro {
    (m - {Identity})[Identity := Str(id)]
  }

  lemma RekeyedKey(host: Host, m: Macro, id: string)
    ensures KeyOf(host, Rekeyed(m, id)) == KeyOf(host, m)
    ensures BindingClean(Rekeyed(m, id)) <==> BindingClean(m)
    ensures SlotSettled(host, Rekeyed(m, id)) <==> SlotSettled(host, m)
    ensures Usable(Rekeyed(m, id)) <==> Usable(m)
  {
    var ignored := {Identity, Group, Credentials, Route};
    assert Rekeyed(m, id) - ignored == m - ignored;
    KeyIgnoresIdentity(host, Rekeyed(m, id), m);
    assert SlotSettled(host, Rekeyed(m, id)) <==> SlotSettled(host, m) by {
      if Slot in m {
        assert SlotBinding(host, Rekeyed(m, id)) == SlotBinding(host, m);
      }
    }
  }

  /** The restored list: the usable records of the file in order, each stored under a new id. */
  lemma ReplacedIs(host: Host, incoming: seq<Macro>, mint: nat -> string)
    requires Supplies(mint)
    ensures
      var usable, there := UsableOnes(incoming), Replaced(host, incoming, mint);
      && |there| == |usable|
      && forall i | 0 <= i < |there| :: there[i] == Stored(host, Rekeyed(usable[i], mint(i)))
  {
    ReplacedAre(host, incoming, mint);
    StrippedUsable(incoming);
  }

  lemma RestoredRecord(host: Host, m: Macro, id: string)
    requires Usable(m) && BindingClean(m)
    ensures var s := Stored(host, Rekeyed(m, id));
            Usable(s) && Get(s, Identity) == Some(Str(id)) && Stored(host, s) == s
  {
    var r := Rekeyed(m, id);
    RekeyedKey(host, m, id);
    StoredField(host, r, Name);
    StoredField(host, r, Body);
    StoredField(host, r, Identity);
    StoredSettles(host, r);
    assert AlikeAt(Stored(host, r), r, Name) && AlikeAt(Stored(host, r), r, Body);
  }

  lemma ReplacedIsAtRest(host: Host, incoming: seq<Macro>, mint: nat -> string, mint': nat -> string)
    requires Supplies(mint) && forall m | m in incoming :: BindingClean(m)
    ensures Saved(host, Replaced(host, incoming, mint), mint') == Replaced(host, incoming, mint)
    ensures forall m | m in Replaced(host, incoming, mint) :: Usable(m)
  {
    var usable, there := UsableOnes(incoming), Replaced(host, incoming, mint);
    ReplacedIs(host, incoming, mint);
    UsableAre(incoming);
    forall i | 0 <= i < |there|
      ensures Usable(there[i]) && Get(there[i], Identity) == Some(Str(mint(i))) && Stored(host, there[i]) == there[i]
    {
      assert usable[i] in usable;
      RestoredRecord(host, usable[i], mint(i));
    }
    MintedListStays(host, there, mint, mint');
  }

  /** Usable records with minted ids that storing leaves alone are saved as they are. */
  lemma MintedListStays(host: Host, there: seq<Macro>, mint: nat -> string, mint': nat -> string)
    requires Supplies(mint)
    requires forall i | 0 <= i < |there| ::
      Usable(there[i]) && Get(there[i], Identity) == Some(Str(mint(i))) && Stored(host, there[i]) == there[i]
    ensures Saved(host, there, mint') == there
  {
    UsableAre(there);
    assert OwnIds(there);
    OwnIdsStay(there, mint', {}, 0);
    assert StoredAll(host, there) == there;
  }

  /** A usable record with a settled slot is known by its key after the restore. */
  lemma RestoredIsKnown(host: Host, incoming: seq<Macro>, mint: nat -> string, m: Macro)
    requires Supplies(mint) && m in incoming && Usable(m) && BindingClean(m) && SlotSettled(host, m)
    ensures ByContent(host)(m) in KeysOf(ByContent(host), Replaced(host, incoming, mint))
  {
    var usable, there := UsableOnes(incoming), Replaced(host, incoming, mint);
    UsableAre(incoming);
    ReplacedIs(host, incoming, mint);
    var i :| 0 <= i < |usable| && usable[i] == m;
    RekeyedKey(host, m, mint(i));
    SettledKeepsKey(host, Rekeyed(m, mint(i)));
    assert ByContent(host)(there[i]) == ByContent(host)(m);
  }

  lemma IdentifiedUsable(macros: seq<Macro>, mint: nat -> string)
    ensures forall i | 0 <= i < |macros| :: Usable(IdentifiedAll(macros, mint)[i]) <==> Usable(macros[i])
  {
    forall i | 0 <= i < |macros| ensures Usable(IdentifiedAll(macros, mint)[i]) <==> Usable(macros[i]) {
      var m := Identified(macros[i], mint(i));
      assert AlikeAt(m, macros[i], Name) && AlikeAt(m, macros[i], Body);
    }
  }

  /** No usable record has a slot the store respells. */
  ghost predicate AllSettled(host: Host, macros: seq<Macro>) {
    forall m | m in macros && Usable(m) :: SlotSettled(host, m)
  }

  /** What saving a merge leaves is the restored list, when nothing usable is added to it. */
  lemma NothingUsableAdded(host: Host, there: seq<Macro>, found: seq<Macro>, mint: nat -> string, mint': nat -> string)
    requires (forall m | m in there :: Usable(m)) && (forall m | m in found :: !Usable(m))
    ensures Saved(host, there + IdentifiedAll(found, mint), mint') == Saved(host, there, mint')
  {
    var added := IdentifiedAll(found, mint);
    IdentifiedUsable(found, mint);
    UsableJoin(there, added);
    UsableAre(there);
    UsableAre(added);
    assert UsableOnes(there + added) == UsableOnes(there);
  }

  /**
   After a file has been restored in replace mode, which gave every record a new id, merging
   that file and saving leaves the store as it was, when no slot is one the restore respells.
   */
  lemma MergeAfterReplaceAddsNothing(host: Host, incoming: seq<Macro>, mint: nat -> string, minted: nat -> string, mint': nat -> string)
    requires Supplies(mint) && forall m | m in incoming :: NormalMacro(host, m)
    requires AllSettled(host, incoming)
    ensures var there := Replaced(host, incoming, mint);
            Saved(host, Merged(ByContent(host), there, incoming, minted), mint') == there
  {
    var key, there := ByContent(host), Replaced(host, incoming, mint);
    var found := Unseen(key, incoming, IdsOf(there), KeysOf(key, there));
    UnseenByKey(key, incoming, IdsOf(there), KeysOf(key, there));
    forall m | m in found ensures !Usable(m) {
      if Usable(m) {
        RestoredIsKnown(host, incoming, mint, m);
      }
    }
    ReplacedIsAtRest(host, incoming, mint, mint');
    NothingUsableAdded(host, there, found, minted, mint');
  }

  lemma {:induction false} AssignedIdsLength(macros: seq<Macro>, mint: nat -> string, claimed: set<string>, k: nat)
    ensures |AssignedIds(macros, mint, claimed, k)| == |macros|
    decreases |macros|
  {
    if macros != [] {
      var id := OwnOr(macros[0], claimed, mint(k));
      AssignedIdsLength(macros[1..], mint, claimed + {id}, k + 1);
    }
  }

  /** Ids that occur in no record of the file. */
  ghost predicate NewTo(mint: nat -> string, incoming: seq<Macro>) {
    forall m, i: nat | m in incoming :: Get(m, Identity) != Some(Str(mint(i)))
  }

  lemma NotRestoredAs(host: Host, m: Macro, n: Macro, id: string)
    requires Prints(host.show) && BindingClean(m) && BindingClean(n) && !SlotSettled(host, m)
    ensures ByContent(host)(Stored(host, Rekeyed(n, id))) != ByContent(host)(m)
    ensures Get(Stored(host, Rekeyed(n, id)), Identity) == Some(Str(id))
  {
    RekeyedKey(host, n, id);
    UnsettledHasNoKey(host, m, Rekeyed(n, id));
    StoredField(host, Rekeyed(n, id), Identity);
  }

  /** A usable record whose slot the restore respells is unknown to the restored list. */
  lemma RespelledIsUnknown(host: Host, incoming: seq<Macro>, mint: nat -> string, m: Macro)
    requires Prints(host.show) && Supplies(mint) && NewTo(mint, incoming)
    requires (forall n | n in incoming :: BindingClean(n)) && m in incoming && !SlotSettled(host, m)
    ensures var there := Replaced(host, incoming, mint);
            ByContent(host)(m) !in KeysOf(ByContent(host), there) && !IdTaken(m, MacroKey.IdsOf(there))
  {
    var usable, there := UsableOnes(incoming), Replaced(host, incoming, mint);
    UsableAre(incoming);
    ReplacedIs(host, incoming, mint);
    forall i | 0 <= i < |there|
      ensures ByContent(host)(there[i]) != ByContent(host)(m) && Get(there[i], Identity) == Some(Str(mint(i)))
    {
      assert usable[i] in usable;
      NotRestoredAs(host, m, usable[i], mint(i));
    }
    IdsAreMinted(there, mint, m);
  }

  lemma IdsAreMinted(there: seq<Macro>, mint: nat -> string, m: Macro)
    requires forall i | 0 <= i < |there| :: Get(there[i], Identity) == Some(Str(mint(i)))
    requires forall i: nat :: Get(m, Identity) != Some(Str(mint(i)))
    ensures !IdTaken(m, MacroKey.IdsOf(there))
  {
  }

  /** What is usable and unknown makes the saved list longer. */
  lemma UsableAddedShows(host: Host, there: seq<Macro>, found: seq<Macro>, mint: nat -> string, mint': nat -> string)
    requires (forall m | m in there :: Usable(m)) && (forall m | m in found :: Usable(m)) && found != []
    ensures |Saved(host, there + IdentifiedAll(found, mint), mint')| > |there|
  {
    var added := IdentifiedAll(found, mint);
    IdentifiedUsable(found, mint);
    UsableJoin(there, added);
    UsableAre(there);
    forall m | m in added ensures Usable(m) {
      var i :| 0 <= i < |added| && added[i] == m;
      assert found[i] in found;
    }
    UsableAre(added);
    AssignedIdsLength(there + added, mint', {}, 0);
  }

  /**
   For a file of usable records that is the exact condition: merging it after it has been
   restored leaves the store as it was just when no slot is one the restore respells.
   */
  lemma MergeAfterReplaceExactly(host: Host, incoming: seq<Macro>, mint: nat -> string, minted: nat -> string, mint': nat -> string)
    requires Prints(host.show) && Supplies(mint) && NewTo(mint, incoming)
    requires forall m | m in incoming :: NormalMacro(host, m) && Usable(m)
    ensures var there := Replaced(host, incoming, mint);
            Saved(host, Merged(ByContent(host), there, incoming, minted), mint') == there <==> AllSettled(host, incoming)
  {
    var key, there := ByContent(host), Replaced(host, incoming, mint);
    if AllSettled(host, incoming) {
      MergeAfterReplaceAddsNothing(host, incoming, mint, minted, mint');
    } else {
      var m :| m in incoming && Usable(m) && !SlotSettled(host, m);
      var found := Unseen(key, incoming, MacroKey.IdsOf(there), KeysOf(key, there));
      RespelledIsUnknown(host, incoming, mint, m);
      UnseenByKey(key, incoming, MacroKey.IdsOf(there), KeysOf(key, there));
      assert AmongKeys(key, m, found);
      ReplacedIsAtRest(host, incoming, mint, mint');
      UsableAddedShows(host, there, found, minted, mint');
    }
  }

  const SLOT_A: Macro := map[Name := Str("login"), Body := Str("x"), Slot := Str("A")]

  /** A record of id, name, text and slot alone is in normal form. */
  lemma BareIsNormal(host: Host, m: Macro)
    requires forall f | f in m :: f == Identity || f == Name || f == Body || f == Slot
    ensures NormalMacro(host, m) && Keybinding !in m
  {
    assert NormalTrigger(host, m);
  }

  lemma SlotAIsSound(host: Host)
    ensures NormalMacro(host, SLOT_A) && Usable(SLOT_A)
  {
    BareIsNormal(host, SLOT_A);
  }

  lemma SlotARespelled(host: Host)
    requires host.template(Str("A")) == "A"
    ensures !SlotSettled(host, SLOT_A)
  {
    assert Keybinding !in SLOT_A && SLOT_A[Slot] == Str("A");
    assert SlotBinding(host, SLOT_A) == "alt+A";
    CapitalIsRespelled("alt+A", 4);
  }

  lemma CapitalIsRespelled(binding: string, i: nat)
    requires Trimmed(binding) && i < |binding| && 'A' <= binding[i] <= 'Z'
    ensures !Spelled(binding)
  {
    TrimmedStays(binding);
    assert Lower(binding)[i] != binding[i];
  }

  /** Such a record: its slot is the text "A", which the restore respells as the binding alt+a. */
  lemma RespelledSlotComesAgain(host: Host, mint: nat -> string, minted: nat -> string, mint': nat -> string)
    requires Prints(host.show) && Supplies(mint) && host.template(Str("A")) == "A"
    ensures var there := Replaced(host, [SLOT_A], mint);
            Saved(host, Merged(ByContent(host), there, [SLOT_A], minted), mint') != there
  {
    SlotAIsSound(host);
    SlotARespelled(host);
    assert SLOT_A in [SLOT_A];
    assert NewTo(mint, [SLOT_A]);
    MergeAfterReplaceExactly(host, [SLOT_A], mint, minted, mint');
  }

  // ---- what the store rewrites --------------------------------------------------------

  /** An entry that masks its variable is there without its default and remember; any other is as it was. */
  ghost predicate RedactedAs(before: Js, after: Js) {
    if before.Obj? && Property(before, "secret") == Some(Bool(true))
    then
      && after.Obj? && (forall key :: Property(after, key) == if key == "default" || key == "remember" then None else Property(before, key))
    else after == before
  }

  lemma {:induction false} WithoutKeysFinds(members: seq<Member>, keys: set<string>, key: string)
    ensures Find(WithoutKeys(members, keys), key) == if key in keys then None else Find(members, key)
    decreases |members|
  {
    if key !in keys {
      FindWithout(members, keys, key);
    } else if members != [] {
      WithoutKeysFinds(members[1..], keys, key);
      assert ([members[0]] + WithoutKeys(members[1..], keys))[1..] == WithoutKeys(members[1..], keys);
      assert [] + WithoutKeys(members[1..], keys) == WithoutKeys(members[1..], keys);
    }
  }

  lemma RedactedExactly(v: Js)
    ensures RedactedAs(v, RedactedEntry(v))
  {
    if v.Obj? && Property(v, "secret") == Some(Bool(true)) {
      forall key ensures Property(RedactedEntry(v), key) == if key == "default" || key == "remember" then None else Property(v, key) {
        WithoutKeysFinds(v.members, {"default", "remember"}, key);
      }
    }
  }

  /** The store rewrites a slot into the binding it stands for, where there is no binding, and nothing else about them. */
  lemma StoredShortcut(host: Host, m: Macro)
    ensures
      var s := Stored(host, m);
      if Slot in m && !Truthy(Get(m, Keybinding))
      then Slot !in s && Get(s, Keybinding) == Some(Str("alt+" + host.template(m[Slot])))
      else AlikeAt(s, m, Slot) && AlikeAt(s, m, Keybinding)
  {
    StoredBindingFields(host, m);
  }

  /** It drops variables that are no list and redacts those that are, and drops a folder that is no text. */
  lemma StoredRest(host: Host, m: Macro, f: Field)
    ensures f !in {Keybinding, Slot, Variables, Group} ==> AlikeAt(Stored(host, m), m, f)
    ensures Get(Stored(host, m), Group)
         == if Group in m && m[Group].Str? && Trim(m[Group].text) != "" then Some(m[Group]) else None
  {
    if f !in REWRITTEN {
      StoredField(host, m, f);
    }
    StoredGroup(host, m);
  }

  lemma StoredGroup(host: Host, m: Macro)
    ensures Get(Stored(host, m), Group)
         == if Group in m && m[Group].Str? && Trim(m[Group].text) != "" then Some(m[Group]) else None
  {
    var moved := MigratedSlot(host, m);
    assert AlikeAt(moved, m, Group);
    assert AlikeAt(Redacted(moved), moved, Group);
  }

  lemma StoredDeclaration(host: Host, m: Macro)
    ensures
      var s := Stored(host, m);
      if Variables in m && m[Variables].Arr?
      then
        && Variables in s && s[Variables].Arr? && |s[Variables].items| == |m[Variables].items|
        && forall i | 0 <= i < |m[Variables].items| :: RedactedAs(m[Variables].items[i], s[Variables].items[i])
      else Variables !in s
  {
    var moved := MigratedSlot(host, m);
    assert AlikeAt(moved, m, Variables);
    assert AlikeAt(Stored(host, m), Redacted(moved), Variables);
    if Variables in m && m[Variables].Arr? {
      forall i | 0 <= i < |m[Variables].items| ensures RedactedAs(m[Variables].items[i], RedactedEntry(m[Variables].items[i])) {
        RedactedExactly(m[Variables].items[i]);
      }
    }
  }
}
