/**
 What the macro store is after a save: every record usable, under an id of its own and spelled
 as the store spells it. Saving such a list, alone or with more records behind it.
 */
module MacroRest {
  import opened Json
  import opened MacroKey
  import opened Macros
  import opened MacroStorage
  import opened Records

  /** What a save leaves: usable records, each with an id of its own, spelled as the store spells them. */
  ghost predicate AtRest(host: Host, macros: seq<Macro>) {
    OwnIds(macros) && forall m | m in macros :: Usable(m) && Stored(host, m) == m
  }

  /** New ids, none of them in these records. */
  ghost predicate Fresh(mint: nat -> string, macros: seq<Macro>) {
    Supplies(mint) && NewTo(mint, macros)
  }

  ghost predicate Apart(a: nat -> string, b: nat -> string) {
    forall i: nat, j: nat :: a(i) != b(j)
  }

  lemma RestIsKept(host: Host, macros: seq<Macro>, mint: nat -> string)
    requires AtRest(host, macros)
    ensures Saved(host, macros, mint) == macros
  {
    UsableAre(macros);
    OwnIdsStay(macros, mint, {}, 0);
    assert StoredAll(host, macros) == macros;
  }

  /** The record under its own id or under this new one. */
  predicate GivenFrom(given: Macro, m: Macro, id: string) {
    given == m[Identity := Str(id)] || (HasId(m) && given == m)
  }

  predicate HoldsId(macros: seq<Macro>, id: string) {
    exists i :: 0 <= i < |macros| && Get(macros[i], Identity) == Some(Str(id))
  }

  /** Each record keeps its id or gets the minted one. */
  lemma {:induction false} AssignedAre(macros: seq<Macro>, mint: nat -> string, claimed: set<string>, k: nat)
    ensures |AssignedIds(macros, mint, claimed, k)| == |macros|
    ensures forall i | 0 <= i < |macros| :: GivenFrom(AssignedIds(macros, mint, claimed, k)[i], macros[i], mint(k + i))
    decreases |macros|
  {
    if macros != [] {
      var id := OwnOr(macros[0], claimed, mint(k));
      var rest := AssignedIds(macros[1..], mint, claimed + {id}, k + 1);
      AssignedAre(macros[1..], mint, claimed + {id}, k + 1);
      assert GivenFrom(macros[0][Identity := Str(id)], macros[0], mint(k));
      forall i | 0 < i < |macros| ensures GivenFrom(([macros[0][Identity := Str(id)]] + rest)[i], macros[i], mint(k + i)) {
        assert GivenFrom(rest[i - 1], macros[1..][i - 1], mint(k + 1 + (i - 1)));
      }
    }
  }

  lemma HeldMore(first: Macro, rest: seq<Macro>, id: string)
    ensures HoldsId([first] + rest, id) <==> Get(first, Identity) == Some(Str(id)) || HoldsId(rest, id)
  {
    var all := [first] + rest;
    if HoldsId(rest, id) {
      var i :| 0 <= i < |rest| && Get(rest[i], Identity) == Some(Str(id));
      assert all[i + 1] == rest[i];
    }
    if HoldsId(all, id) && Get(first, Identity) != Some(Str(id)) {
      var i :| 0 <= i < |all| && Get(all[i], Identity) == Some(Str(id));
      assert all[i] == rest[i - 1];
    }
    assert all[0] == first;
  }

  /** An id that was there is there afterwards. */
  lemma {:induction false} NoIdLost(macros: seq<Macro>, mint: nat -> string, claimed: set<string>, k: nat, id: string)
    requires HoldsId(macros, id) && id != "" && id !in claimed
    ensures HoldsId(AssignedIds(macros, mint, claimed, k), id)
    decreases |macros|
  {
    var given := OwnOr(macros[0], claimed, mint(k));
    assert macros == [macros[0]] + macros[1..];
    HeldMore(macros[0], macros[1..], id);
    HeldMore(macros[0][Identity := Str(given)], AssignedIds(macros[1..], mint, claimed + {given}, k + 1), id);
    if given != id {
      NoIdLost(macros[1..], mint, claimed + {given}, k + 1, id);
    }
  }

  /** No two records end with one id. */
  lemma {:induction false} AssignedAreOwn(macros: seq<Macro>, mint: nat -> string, claimed: set<string>, k: nat)
    requires Fresh(mint, macros) && forall i: nat | i >= k :: mint(i) !in claimed
    ensures OwnIds(AssignedIds(macros, mint, claimed, k))
    ensures forall m | m in AssignedIds(macros, mint, claimed, k) :: IdOf(m) !in claimed
    decreases |macros|
  {
    if macros != [] {
      var id := OwnOr(macros[0], claimed, mint(k));
      var first, rest := macros[0][Identity := Str(id)], AssignedIds(macros[1..], mint, claimed + {id}, k + 1);
      assert HasId(first) && IdOf(first) == id && id !in claimed;
      forall i: nat | i > k ensures mint(i) != id {
        assert macros[0] in macros && Get(macros[0], Identity) != Some(Str(mint(i)));
      }
      AssignedAreOwn(macros[1..], mint, claimed + {id}, k + 1);
      forall j | 0 <= j < |rest| ensures Get(rest[j], Identity) != Get(first, Identity) {
        assert rest[j] in rest;
      }
    }
  }

  /** Storing does not look at the id. */
  lemma StoredUnderId(host: Host, m: Macro, id: Js)
    ensures Stored(host, m[Identity := id]) == Stored(host, m)[Identity := id]
  {
    var n := m[Identity := id];
    assert MigratedSlot(host, n) == MigratedSlot(host, m)[Identity := id];
    var moved := MigratedSlot(host, m);
    assert Redacted(moved[Identity := id]) == Redacted(moved)[Identity := id];
    var red := Redacted(moved);
    assert GroupGuarded(red[Identity := id]) == GroupGuarded(red)[Identity := id];
  }

  lemma StoredKeyUnderId(host: Host, m: Macro, id: Js)
    ensures KeyOf(host, Stored(host, m[Identity := id])) == KeyOf(host, Stored(host, m))
  {
    StoredUnderId(host, m, id);
    var s := Stored(host, m);
    assert s[Identity := id] - {Identity, Group, Credentials, Route} == s - {Identity, Group, Credentials, Route};
    KeyIgnoresIdentity(host, s[Identity := id], s);
  }

  lemma StoredIsUsable(host: Host, m: Macro)
    ensures Usable(Stored(host, m)) <==> Usable(m)
    ensures Get(Stored(host, m), Identity) == Get(m, Identity)
  {
    StoredField(host, m, Name);
    StoredField(host, m, Body);
    StoredField(host, m, Identity);
    assert AlikeAt(Stored(host, m), m, Name) && AlikeAt(Stored(host, m), m, Body);
  }

  /** Storing a list leaves its ids as they are, and a second time changes nothing. */
  lemma StoredAllAtRest(host: Host, given: seq<Macro>)
    requires OwnIds(given) && forall m | m in given :: Usable(m)
    ensures AtRest(host, StoredAll(host, given))
  {
    var there := StoredAll(host, given);
    forall i | 0 <= i < |there|
      ensures Usable(there[i]) && Stored(host, there[i]) == there[i]
      ensures Get(there[i], Identity) == Get(given[i], Identity) && HasId(given[i])
    {
      assert given[i] in given;
      StoredIsUsable(host, given[i]);
      StoredSettles(host, given[i]);
    }
  }

  lemma GivenAreUsable(macros: seq<Macro>, mint: nat -> string)
    ensures forall m | m in AssignedIds(UsableOnes(macros), mint, {}, 0) :: Usable(m)
  {
    var usable := UsableOnes(macros);
    UsableAre(macros);
    AssignedAre(usable, mint, {}, 0);
    forall m | m in AssignedIds(usable, mint, {}, 0) ensures Usable(m) {
      var i :| 0 <= i < |usable| && AssignedIds(usable, mint, {}, 0)[i] == m;
      assert usable[i] in usable && GivenFrom(m, usable[i], mint(i));
    }
  }

  /** Whatever list is saved, what the store holds then is at rest. */
  lemma SavedIsAtRest(host: Host, macros: seq<Macro>, mint: nat -> string)
    requires Fresh(mint, macros)
    ensures AtRest(host, Saved(host, macros, mint))
  {
    UsableAre(macros);
    AssignedAreOwn(UsableOnes(macros), mint, {}, 0);
    GivenAreUsable(macros, mint);
    StoredAllAtRest(host, AssignedIds(UsableOnes(macros), mint, {}, 0));
  }

  lemma AssignedFirst(m: Macro, rest: seq<Macro>, mint: nat -> string, claimed: set<string>, k: nat)
    ensures
      var id := OwnOr(m, claimed, mint(k));
      AssignedIds([m] + rest, mint, claimed, k) == [m[Identity := Str(id)]] + AssignedIds(rest, mint, claimed + {id}, k + 1)
  {
    assert ([m] + rest)[1..] == rest;
  }

  lemma {:induction false} AssignedJoin(a: seq<Macro>, b: seq<Macro>, mint: nat -> string, claimed: set<string>, k: nat)
    requires OwnIds(a) && forall m | m in a :: IdOf(m) !in claimed
    ensures AssignedIds(a + b, mint, claimed, k) == a + AssignedIds(b, mint, claimed + IdTexts(a), k + |a|)
    decreases |a|
  {
    if a == [] {
      assert a + b == b && claimed + IdTexts(a) == claimed;
    } else {
      var claimed' := claimed + {IdOf(a[0])};
      LaterUnclaimed(a, claimed);
      AssignedJoin(a[1..], b, mint, claimed', k + 1);
      assert claimed + IdTexts(a) == claimed' + IdTexts(a[1..]) by {
        FirstText(a);
      }
      assert AssignedIds(a + b, mint, claimed, k) == [a[0]] + AssignedIds(a[1..] + b, mint, claimed', k + 1) by {
        assert a + b == [a[0]] + (a[1..] + b);
        AssignedFirst(a[0], a[1..] + b, mint, claimed, k);
      }
    }
  }

  lemma FirstText(macros: seq<Macro>)
    requires macros != []
    ensures IdTexts(macros) == {IdOf(macros[0])} + IdTexts(macros[1..])
  {
    assert macros == [macros[0]] + macros[1..];
  }

  function IdTexts(macros: seq<Macro>): set<string> {
    set m | m in macros :: IdOf(m)
  }

  /** The record itself, or the record under one of these ids. */
  ghost predicate NamedAs(named: Macro, m: Macro, minted: nat -> string) {
    named == m || exists i: nat :: named == m[Identity := Str(minted(i))]
  }

  function Later(minted: nat -> string): nat -> string {
    (n: nat) => minted(n + 1)
  }

  lemma IdentifiedFirst(macros: seq<Macro>, minted: nat -> string)
    requires macros != []
    ensures IdentifiedAll(macros, minted) == [Identified(macros[0], minted(0))] + IdentifiedAll(macros[1..], Later(minted))
  {
  }

  /** The usable ones of what is saved: the arrivals, one by one. */
  lemma {:induction false} NamedAre(macros: seq<Macro>, minted: nat -> string)
    ensures |UsableOnes(IdentifiedAll(macros, minted))| == |UsableOnes(macros)|
    ensures forall i | 0 <= i < |UsableOnes(macros)| ::
      NamedAs(UsableOnes(IdentifiedAll(macros, minted))[i], UsableOnes(macros)[i], minted)
    decreases |macros|
  {
    if macros != [] {
      var first, later := Identified(macros[0], minted(0)), Later(minted);
      IdentifiedFirst(macros, minted);
      NamedAre(macros[1..], later);
      assert NamedAs(first, macros[0], minted);
      assert Usable(first) <==> Usable(macros[0]);
      var rest, named := UsableOnes(macros[1..]), UsableOnes(IdentifiedAll(macros[1..], later));
      forall i | 0 <= i < |rest| ensures NamedAs(named[i], rest[i], minted) {
        assert NamedAs(named[i], rest[i], later);
      }
      assert IdentifiedAll(macros, minted)[1..] == IdentifiedAll(macros[1..], later);
    }
  }

  lemma SavedJoin(host: Host, there: seq<Macro>, more: seq<Macro>, mint: nat -> string)
    requires AtRest(host, there)
    ensures Saved(host, there + more, mint)
            == there + StoredAll(host, AssignedIds(UsableOnes(more), mint, IdTexts(there), |there|))
  {
    assert UsableOnes(there + more) == there + UsableOnes(more) by {
      UsableAre(there);
      UsableJoin(there, more);
    }
    AssignedJoin(there, UsableOnes(more), mint, {}, 0);
    assert {} + IdTexts(there) == IdTexts(there);
    StoredAllJoin(host, there, AssignedIds(UsableOnes(more), mint, IdTexts(there), |there|));
  }

  lemma StoredAllJoin(host: Host, there: seq<Macro>, more: seq<Macro>)
    requires forall m | m in there :: Stored(host, m) == m
    ensures StoredAll(host, there + more) == there + StoredAll(host, more)
  {
  }

  lemma SameKeyButId(host: Host, m: Macro, n: Macro, minted: nat -> string)
    requires NamedAs(n, m, minted)
    ensures KeyOf(host, Stored(host, n)) == KeyOf(host, Stored(host, m))
  {
    if n != m {
      var i: nat :| n == m[Identity := Str(minted(i))];
      StoredKeyUnderId(host, m, Str(minted(i)));
    }
  }

  lemma AssignedNamed(macros: seq<Macro>, mint: nat -> string, claimed: set<string>, k: nat)
    ensures |AssignedIds(macros, mint, claimed, k)| == |macros|
    ensures forall i | 0 <= i < |macros| :: NamedAs(AssignedIds(macros, mint, claimed, k)[i], macros[i], mint)
  {
    AssignedAre(macros, mint, claimed, k);
    forall i | 0 <= i < |macros| ensures NamedAs(AssignedIds(macros, mint, claimed, k)[i], macros[i], mint) {
      assert GivenFrom(AssignedIds(macros, mint, claimed, k)[i], macros[i], mint(k + i));
    }
  }

  lemma HeldJoin(a: seq<Macro>, b: seq<Macro>, id: string)
    ensures HoldsId(a + b, id) <==> HoldsId(a, id) || HoldsId(b, id)
  {
    if HoldsId(a, id) {
      var i :| 0 <= i < |a| && Get(a[i], Identity) == Some(Str(id));
      assert (a + b)[i] == a[i];
    }
    if HoldsId(b, id) {
      var i :| 0 <= i < |b| && Get(b[i], Identity) == Some(Str(id));
      assert (a + b)[|a| + i] == b[i];
    }
    if HoldsId(a + b, id) {
      var i :| 0 <= i < |a + b| && Get((a + b)[i], Identity) == Some(Str(id));
      assert i < |a| ==> (a + b)[i] == a[i];
      assert i >= |a| ==> (a + b)[i] == b[i - |a|];
    }
  }

  lemma HeldStored(host: Host, macros: seq<Macro>, id: string)
    ensures HoldsId(StoredAll(host, macros), id) <==> HoldsId(macros, id)
  {
    forall i | 0 <= i < |macros| ensures Get(StoredAll(host, macros)[i], Identity) == Get(macros[i], Identity) {
      StoredIsUsable(host, macros[i]);
    }
    if HoldsId(macros, id) {
      var i :| 0 <= i < |macros| && Get(macros[i], Identity) == Some(Str(id));
      assert Get(StoredAll(host, macros)[i], Identity) == Some(Str(id));
    }
  }

  /** The id of an arrival is held by the store afterwards, by this record or by an earlier one. */
  lemma {:induction false} NamedHold(macros: seq<Macro>, minted: nat -> string, id: string)
    requires HoldsId(UsableOnes(macros), id)
    ensures HoldsId(UsableOnes(IdentifiedAll(macros, minted)), id)
    decreases |macros|
  {
    IdentifiedFirst(macros, minted);
    var first, rest := Identified(macros[0], minted(0)), IdentifiedAll(macros[1..], Later(minted));
    assert IdentifiedAll(macros, minted)[1..] == rest;
    assert Usable(first) <==> Usable(macros[0]);
    HeldMore(macros[0], UsableOnes(macros[1..]), id);
    HeldMore(first, UsableOnes(rest), id);
    assert UsableOnes(IdentifiedAll(macros, minted)) == (if Usable(first) then [first] + UsableOnes(rest) else UsableOnes(rest));
    if Usable(macros[0]) && Get(macros[0], Identity) == Some(Str(id)) {
      assert first == macros[0];
    } else {
      assert UsableOnes(macros) == (if Usable(macros[0]) then [macros[0]] + UsableOnes(macros[1..]) else UsableOnes(macros[1..]));
      NamedHold(macros[1..], Later(minted), id);
    }
  }

  lemma TextsAreHeld(macros: seq<Macro>, id: string)
    requires id in IdTexts(macros) && id != ""
    ensures HoldsId(macros, id)
  {
    var m :| m in macros && IdOf(m) == id;
    var i :| 0 <= i < |macros| && macros[i] == m;
    assert Get(macros[i], Identity) == Some(Str(id));
  }

  /** The record has an id that is held there. */
  predicate IdHeld(there: seq<Macro>, m: Macro) {
    HasId(m) && HoldsId(there, m[Identity].text)
  }

  lemma TakenIsHeld(there: seq<Macro>, m: Macro)
    requires forall n | n in there :: HasId(n)
    ensures IdTaken(m, MacroKey.IdsOf(there)) <==> IdHeld(there, m)
  {
    if IdTaken(m, MacroKey.IdsOf(there)) {
      var i :| 0 <= i < |there| && Truthy(Get(there[i], Identity)) && there[i][Identity] == m[Identity];
      assert there[i] in there;
      assert Get(there[i], Identity) == Some(Str(m[Identity].text));
    }
    if IdHeld(there, m) {
      var i :| 0 <= i < |there| && Get(there[i], Identity) == Some(Str(m[Identity].text));
      assert Truthy(Get(there[i], Identity)) && there[i][Identity] in MacroKey.IdsOf(there);
    }
  }

  lemma StoredKeyIn(host: Host, macros: seq<Macro>, m: Macro)
    requires m in macros
    ensures KeyOf(host, Stored(host, m)) in KeysOf(ByContent(host), StoredAll(host, macros))
  {
    var i :| 0 <= i < |macros| && macros[i] == m;
    assert ByContent(host)(StoredAll(host, macros)[i]) == KeyOf(host, Stored(host, m));
  }
}
