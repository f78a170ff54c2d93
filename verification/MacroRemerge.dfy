/**
 One file merged twice. The store drops records it cannot use, gives ids and respells bindings,
 so the second merge compares the file with what the store made of it.
 */
module MacroRemerge {
  import opened Json
  import opened MacroKey
  import opened Macros
  import opened MacroRest
  import opened MacroSanitize
  import opened MacroStorage
  import opened Records

  // ---- what the first merge leaves ----------------------------------------------------

  /** What the first merge appends. */
  function Added(host: Host, existing: seq<Macro>, incoming: seq<Macro>): seq<Macro> {
    Unseen(ByContent(host), incoming, MacroKey.IdsOf(existing), KeysOf(ByContent(host), existing))
  }

  /** The records of the file that a merge brings into the store. */
  function Arrivals(host: Host, existing: seq<Macro>, incoming: seq<Macro>): seq<Macro> {
    UsableOnes(Added(host, existing, incoming))
  }

  /** What the store holds after the merge. */
  function MergedAndSaved(host: Host, existing: seq<Macro>, incoming: seq<Macro>, minted: nat -> string, mint: nat -> string): seq<Macro> {
    Saved(host, Merged(ByContent(host), existing, incoming, minted), mint)
  }

  /** The arrivals as they come to the store: each under its own id or a minted one. */
  function Named(host: Host, existing: seq<Macro>, incoming: seq<Macro>, minted: nat -> string): seq<Macro> {
    UsableOnes(IdentifiedAll(Added(host, existing, incoming), minted))
  }

  /** And as they are stored, before they are respelled. */
  function Given(host: Host, existing: seq<Macro>, incoming: seq<Macro>, minted: nat -> string, mint: nat -> string): seq<Macro> {
    AssignedIds(Named(host, existing, incoming, minted), mint, IdTexts(existing), |existing|)
  }

  lemma MergedIs(host: Host, existing: seq<Macro>, incoming: seq<Macro>, minted: nat -> string, mint: nat -> string)
    requires AtRest(host, existing)
    ensures MergedAndSaved(host, existing, incoming, minted, mint)
            == existing + StoredAll(host, Given(host, existing, incoming, minted, mint))
  {
    SavedJoin(host, existing, IdentifiedAll(Added(host, existing, incoming), minted), mint);
  }

  /** The records of the store as far as keys and the ids of the file can tell. */
  function Brought(host: Host, existing: seq<Macro>, incoming: seq<Macro>): seq<Macro> {
    existing + StoredAll(host, Arrivals(host, existing, incoming))
  }

  /** Each arrival, as it is stored: under its own id, one the merge minted, or one the store did. */
  lemma GivenAre(host: Host, existing: seq<Macro>, incoming: seq<Macro>, minted: nat -> string, mint: nat -> string)
    ensures
      var named, given := Named(host, existing, incoming, minted), Given(host, existing, incoming, minted, mint);
      && |given| == |named| == |Arrivals(host, existing, incoming)|
      && forall i | 0 <= i < |named| :: NamedAs(named[i], Arrivals(host, existing, incoming)[i], minted) && NamedAs(given[i], named[i], mint)
  {
    NamedAre(Added(host, existing, incoming), minted);
    AssignedNamed(Named(host, existing, incoming, minted), mint, IdTexts(existing), |existing|);
  }

  /** Whatever ids they are given, the arrivals have the contents they came with. */
  lemma BroughtKeys(host: Host, existing: seq<Macro>, incoming: seq<Macro>, minted: nat -> string, mint: nat -> string)
    requires AtRest(host, existing)
    ensures KeysOf(ByContent(host), MergedAndSaved(host, existing, incoming, minted, mint))
            == KeysOf(ByContent(host), Brought(host, existing, incoming))
  {
    var there, brought := MergedAndSaved(host, existing, incoming, minted, mint), Brought(host, existing, incoming);
    var arrivals, given := Arrivals(host, existing, incoming), Given(host, existing, incoming, minted, mint);
    MergedIs(host, existing, incoming, minted, mint);
    GivenAre(host, existing, incoming, minted, mint);
    assert |there| == |brought|;
    forall i | 0 <= i < |arrivals|
      ensures KeyOf(host, Stored(host, given[i])) == KeyOf(host, Stored(host, arrivals[i]))
    {
      var named := Named(host, existing, incoming, minted)[i];
      SameKeyButId(host, arrivals[i], named, minted);
      SameKeyButId(host, named, given[i], mint);
    }
    KeysAlike(ByContent(host), there, brought);
  }

  lemma KeysAlike(key: Macro -> string, a: seq<Macro>, b: seq<Macro>)
    requires |a| == |b| && forall i | 0 <= i < |a| :: key(a[i]) == key(b[i])
    ensures KeysOf(key, a) == KeysOf(key, b)
  {
    SameContentsSameKeys(key, a, b);
  }

  /** An id that is none of the minted ones is held by the stored arrivals when it was held by an arrival. */
  lemma GivenIds(host: Host, existing: seq<Macro>, incoming: seq<Macro>, minted: nat -> string, mint: nat -> string, id: string)
    requires forall i: nat :: minted(i) != id && mint(i) != id
    ensures HoldsId(Given(host, existing, incoming, minted, mint), id) ==> HoldsId(Arrivals(host, existing, incoming), id)
  {
    var arrivals, named, given :=
      Arrivals(host, existing, incoming), Named(host, existing, incoming, minted), Given(host, existing, incoming, minted, mint);
    GivenAre(host, existing, incoming, minted, mint);
    if HoldsId(given, id) {
      var i :| 0 <= i < |given| && Get(given[i], Identity) == Some(Str(id));
      assert NamedAs(given[i], named[i], mint) && NamedAs(named[i], arrivals[i], minted);
      assert Get(arrivals[i], Identity) == Some(Str(id));
    }
  }

  /** Which ids of the file the store holds after the merge: those it held, and those of the arrivals. */
  lemma BroughtIds(host: Host, existing: seq<Macro>, incoming: seq<Macro>, minted: nat -> string, mint: nat -> string, id: string)
    requires AtRest(host, existing) && id != "" && forall i: nat :: minted(i) != id && mint(i) != id
    ensures HoldsId(MergedAndSaved(host, existing, incoming, minted, mint), id) <==> HoldsId(Brought(host, existing, incoming), id)
  {
    var arrivals, given := Arrivals(host, existing, incoming), Given(host, existing, incoming, minted, mint);
    MergedIs(host, existing, incoming, minted, mint);
    HeldJoin(existing, StoredAll(host, given), id);
    HeldJoin(existing, StoredAll(host, arrivals), id);
    HeldStored(host, given, id);
    HeldStored(host, arrivals, id);
    GivenIds(host, existing, incoming, minted, mint, id);
    if HoldsId(arrivals, id) && !HoldsId(existing, id) {
      NamedHold(Added(host, existing, incoming), minted, id);
      if id in IdTexts(existing) {
        TextsAreHeld(existing, id);
      }
      NoIdLost(Named(host, existing, incoming, minted), mint, IdTexts(existing), |existing|, id);
    }
  }

  /**
   A saved merge leaves what was there as it was and in its order, and behind it, in the order of
   the file, each usable record that was new, as the store spells it and under some id.
   */
  lemma MergeKeepsTheStore(host: Host, existing: seq<Macro>, incoming: seq<Macro>, minted: nat -> string, mint: nat -> string)
    requires AtRest(host, existing)
    ensures
      var there, arrivals := MergedAndSaved(host, existing, incoming, minted, mint), Arrivals(host, existing, incoming);
      && existing <= there && |there| == |existing| + |arrivals|
      && forall i | 0 <= i < |arrivals| :: there[|existing| + i] - {Identity} == Stored(host, arrivals[i]) - {Identity}
  {
    var arrivals, named, given :=
      Arrivals(host, existing, incoming), Named(host, existing, incoming, minted), Given(host, existing, incoming, minted, mint);
    MergedIs(host, existing, incoming, minted, mint);
    GivenAre(host, existing, incoming, minted, mint);
    forall i | 0 <= i < |arrivals| ensures Stored(host, given[i]) - {Identity} == Stored(host, arrivals[i]) - {Identity} {
      AlikeButId(host, arrivals[i], named[i], minted);
      AlikeButId(host, named[i], given[i], mint);
    }
  }

  lemma AlikeButId(host: Host, m: Macro, n: Macro, minted: nat -> string)
    requires NamedAs(n, m, minted)
    ensures Stored(host, n) - {Identity} == Stored(host, m) - {Identity}
  {
    if n != m {
      var i: nat :| n == m[Identity := Str(minted(i))];
      StoredUnderId(host, m, Str(minted(i)));
    }
  }

  // ---- the second merge ---------------------------------------------------------------

  predicate ContentHeld(host: Host, there: seq<Macro>, m: Macro) {
    KeyOf(host, m) in KeysOf(ByContent(host), there)
  }

  /** The ids minted by the merge and by the save are new, and apart from one another. */
  ghost predicate GoodMints(minted: nat -> string, mint: nat -> string, existing: seq<Macro>, incoming: seq<Macro>) {
    NewTo(minted, incoming) && Fresh(mint, existing) && NewTo(mint, incoming) && Apart(mint, minted)
  }

  lemma AddedAreNewTo(host: Host, existing: seq<Macro>, incoming: seq<Macro>, minted: nat -> string, mint: nat -> string)
    requires GoodMints(minted, mint, existing, incoming)
    ensures Fresh(mint, existing + IdentifiedAll(Added(host, existing, incoming), minted))
  {
    var added := Added(host, existing, incoming);
    UnseenByKey(ByContent(host), incoming, MacroKey.IdsOf(existing), KeysOf(ByContent(host), existing));
    forall m, i: nat | m in existing + IdentifiedAll(added, minted) ensures Get(m, Identity) != Some(Str(mint(i))) {
      if m !in existing {
        var j :| 0 <= j < |added| && IdentifiedAll(added, minted)[j] == m;
        assert added[j] in added && added[j] in incoming;
        assert mint(i) != minted(j);
        assert m == added[j] || Get(m, Identity) == Some(Str(minted(j)));
      }
    }
  }

  lemma MergedAtRest(host: Host, existing: seq<Macro>, incoming: seq<Macro>, minted: nat -> string, mint: nat -> string)
    requires GoodMints(minted, mint, existing, incoming)
    ensures AtRest(host, MergedAndSaved(host, existing, incoming, minted, mint))
  {
    AddedAreNewTo(host, existing, incoming, minted, mint);
    SavedIsAtRest(host, existing + IdentifiedAll(Added(host, existing, incoming), minted), mint);
  }

  /** What the second merge knows of a record of the file. */
  lemma KnownThen(host: Host, existing: seq<Macro>, incoming: seq<Macro>, minted: nat -> string, mint: nat -> string, m: Macro)
    requires AtRest(host, existing) && GoodMints(minted, mint, existing, incoming) && m in incoming
    ensures var there := MergedAndSaved(host, existing, incoming, minted, mint);
      && (IdTaken(m, MacroKey.IdsOf(there)) <==> IdHeld(Brought(host, existing, incoming), m))
      && (KeyOf(host, m) in KeysOf(ByContent(host), there) <==> ContentHeld(host, Brought(host, existing, incoming), m))
  {
    var there := MergedAndSaved(host, existing, incoming, minted, mint);
    MergedAtRest(host, existing, incoming, minted, mint);
    TakenIsHeld(there, m);
    BroughtKeys(host, existing, incoming, minted, mint);
    if HasId(m) {
      var id := m[Identity].text;
      forall i: nat ensures minted(i) != id && mint(i) != id {
        assert Get(m, Identity) != Some(Str(minted(i))) && Get(m, Identity) != Some(Str(mint(i)));
      }
      BroughtIds(host, existing, incoming, minted, mint, id);
    }
  }

  /** An earlier record with this content, which is not usable, comes again in this one's place. */
  ghost predicate Hidden(key: Macro -> string, incoming: seq<Macro>, ids: set<Js>, i: nat)
    requires i < |incoming|
  {
    exists j :: 0 <= j < i && key(incoming[j]) == key(incoming[i]) && !Usable(incoming[j]) && !IdTaken(incoming[j], ids)
  }

  ghost predicate SkippedOrHidden(key: Macro -> string, incoming: seq<Macro>, ids: set<Js>, keys: set<string>, i: nat)
    requires i < |incoming|
  {
    IdTaken(incoming[i], ids) || key(incoming[i]) in keys || Hidden(key, incoming, ids, i)
  }

  lemma HiddenLater(key: Macro -> string, first: Macro, rest: seq<Macro>, ids: set<Js>, i: nat)
    requires i < |rest|
    ensures Hidden(key, [first] + rest, ids, i + 1)
            <==> Hidden(key, rest, ids, i) || (key(first) == key(rest[i]) && !Usable(first) && !IdTaken(first, ids))
  {
    var all := [first] + rest;
    if Hidden(key, rest, ids, i) {
      var j :| 0 <= j < i && key(rest[j]) == key(rest[i]) && !Usable(rest[j]) && !IdTaken(rest[j], ids);
      assert all[j + 1] == rest[j];
    }
    if Hidden(key, all, ids, i + 1) {
      var j :| 0 <= j < i + 1 && key(all[j]) == key(all[i + 1]) && !Usable(all[j]) && !IdTaken(all[j], ids);
      assert j > 0 ==> all[j] == rest[j - 1];
    }
    assert all[0] == first;
  }

  /** The loop adds nothing usable exactly when every usable record is known or hidden. */
  lemma {:induction false} NothingUsableUnseen(key: Macro -> string, incoming: seq<Macro>, ids: set<Js>, keys: set<string>)
    ensures UsableOnes(Unseen(key, incoming, ids, keys)) == []
            <==> forall i: nat | i < |incoming| && Usable(incoming[i]) :: SkippedOrHidden(key, incoming, ids, keys, i)
    decreases |incoming|
  {
    if incoming != [] {
      var first, rest := incoming[0], incoming[1..];
      assert incoming == [first] + rest;
      var skipped := IdTaken(first, ids) || key(first) in keys;
      var keys' := if skipped then keys else keys + {key(first)};
      NothingUsableUnseen(key, rest, ids, keys');
      forall i: nat | i < |rest| && (skipped || !Usable(first))
        ensures SkippedOrHidden(key, rest, ids, keys', i) <==> SkippedOrHidden(key, incoming, ids, keys, i + 1)
      {
        HiddenLater(key, first, rest, ids, i);
      }
      LaterOnes(key, first, rest, ids, keys);
      if !skipped {
        UsableFirst(first, Unseen(key, rest, ids, keys'));
      }
    }
  }

  lemma UsableFirst(first: Macro, rest: seq<Macro>)
    ensures UsableOnes([first] + rest) == if Usable(first) then [first] + UsableOnes(rest) else UsableOnes(rest)
  {
    assert ([first] + rest)[1..] == rest;
  }

  lemma LaterOnes(key: Macro -> string, first: Macro, rest: seq<Macro>, ids: set<Js>, keys: set<string>)
    ensures
      (forall i: nat | i < |[first] + rest| && Usable(([first] + rest)[i]) :: SkippedOrHidden(key, [first] + rest, ids, keys, i))
      <==> (Usable(first) ==> IdTaken(first, ids) || key(first) in keys)
           && forall i: nat | i < |rest| && Usable(rest[i]) :: SkippedOrHidden(key, [first] + rest, ids, keys, i + 1)
  {
    var all := [first] + rest;
    assert all[0] == first;
    forall i: nat | 0 < i < |all| ensures all[i] == rest[i - 1] {
    }
    if (Usable(first) ==> IdTaken(first, ids) || key(first) in keys)
       && (forall i: nat | i < |rest| && Usable(rest[i]) :: SkippedOrHidden(key, all, ids, keys, i + 1))
    {
      forall i: nat | i < |all| && Usable(all[i]) ensures SkippedOrHidden(key, all, ids, keys, i) {
        if i > 0 {
          assert Usable(rest[i - 1]);
          assert SkippedOrHidden(key, all, ids, keys, i - 1 + 1);
        }
      }
    }
    if forall i: nat | i < |all| && Usable(all[i]) :: SkippedOrHidden(key, all, ids, keys, i) {
      assert Usable(all[0]) ==> SkippedOrHidden(key, all, ids, keys, 0);
      forall i: nat | i < |rest| && Usable(rest[i]) ensures SkippedOrHidden(key, all, ids, keys, i + 1) {
        assert all[i + 1] == rest[i];
      }
    }
  }

  // ---- when the second merge leaves the store as it is --------------------------------

  /** A save shows what is usable in what it is given. */
  lemma MergedCount(host: Host, there: seq<Macro>, incoming: seq<Macro>, minted: nat -> string, mint: nat -> string)
    requires AtRest(host, there)
    ensures |MergedAndSaved(host, there, incoming, minted, mint)| == |there| + |Arrivals(host, there, incoming)|
    ensures Arrivals(host, there, incoming) == [] ==> MergedAndSaved(host, there, incoming, minted, mint) == there
  {
    MergedIs(host, there, incoming, minted, mint);
    GivenAre(host, there, incoming, minted, mint);
  }

  ghost predicate HiddenBefore(host: Host, brought: seq<Macro>, incoming: seq<Macro>, i: nat)
    requires i < |incoming|
  {
    exists j :: 0 <= j < i
      && KeyOf(host, incoming[j]) == KeyOf(host, incoming[i]) && !Usable(incoming[j]) && !IdHeld(brought, incoming[j])
  }

  /** A usable record of the file is known: by its id, by its content, or it is hidden once more. */
  ghost predicate KnownAgain(host: Host, brought: seq<Macro>, incoming: seq<Macro>, i: nat)
    requires i < |incoming|
  {
    IdHeld(brought, incoming[i]) || ContentHeld(host, brought, incoming[i]) || HiddenBefore(host, brought, incoming, i)
  }

  lemma KnownByThen(host: Host, existing: seq<Macro>, incoming: seq<Macro>, minted: nat -> string, mint: nat -> string, i: nat)
    requires AtRest(host, existing) && GoodMints(minted, mint, existing, incoming) && i < |incoming|
    ensures var there := MergedAndSaved(host, existing, incoming, minted, mint);
            SkippedOrHidden(ByContent(host), incoming, MacroKey.IdsOf(there), KeysOf(ByContent(host), there), i)
            <==> KnownAgain(host, Brought(host, existing, incoming), incoming, i)
  {
    var there, brought := MergedAndSaved(host, existing, incoming, minted, mint), Brought(host, existing, incoming);
    forall j | 0 <= j < |incoming|
      ensures IdTaken(incoming[j], MacroKey.IdsOf(there)) <==> IdHeld(brought, incoming[j])
      ensures KeyOf(host, incoming[j]) in KeysOf(ByContent(host), there) <==> ContentHeld(host, brought, incoming[j])
    {
      KnownThen(host, existing, incoming, minted, mint, incoming[j]);
    }
    HiddenAlike(host, brought, incoming, MacroKey.IdsOf(there), i);
  }

  lemma HiddenAlike(host: Host, brought: seq<Macro>, incoming: seq<Macro>, ids: set<Js>, i: nat)
    requires i < |incoming|
    requires forall j | 0 <= j < |incoming| :: IdTaken(incoming[j], ids) <==> IdHeld(brought, incoming[j])
    ensures Hidden(ByContent(host), incoming, ids, i) <==> HiddenBefore(host, brought, incoming, i)
  {
    var key := ByContent(host);
    if Hidden(key, incoming, ids, i) {
      var j :| 0 <= j < i && key(incoming[j]) == key(incoming[i]) && !Usable(incoming[j]) && !IdTaken(incoming[j], ids);
      assert KeyOf(host, incoming[j]) == KeyOf(host, incoming[i]) && !IdHeld(brought, incoming[j]);
    }
    if HiddenBefore(host, brought, incoming, i) {
      var j :| 0 <= j < i
        && KeyOf(host, incoming[j]) == KeyOf(host, incoming[i]) && !Usable(incoming[j]) && !IdHeld(brought, incoming[j]);
      assert key(incoming[j]) == key(incoming[i]) && !IdTaken(incoming[j], ids);
    }
  }

  /**
   Merging a file a second time leaves the store as it was exactly when every usable record of
   the file is known by then: its id is held, its content is, or an unusable record before it,
   with its content and no id that is held, takes its place in the loop once more.
   */
  lemma RemergeExactly(host: Host, existing: seq<Macro>, incoming: seq<Macro>,
                       minted: nat -> string, mint: nat -> string, minted': nat -> string, mint': nat -> string)
    requires AtRest(host, existing) && GoodMints(minted, mint, existing, incoming)
    ensures var there := MergedAndSaved(host, existing, incoming, minted, mint);
            MergedAndSaved(host, there, incoming, minted', mint') == there
            <==> forall i: nat | i < |incoming| && Usable(incoming[i]) :: KnownAgain(host, Brought(host, existing, incoming), incoming, i)
  {
    var there := MergedAndSaved(host, existing, incoming, minted, mint);
    MergedAtRest(host, existing, incoming, minted, mint);
    MergedCount(host, there, incoming, minted', mint');
    NothingUsableUnseen(ByContent(host), incoming, MacroKey.IdsOf(there), KeysOf(ByContent(host), there));
    forall i: nat | i < |incoming|
      ensures SkippedOrHidden(ByContent(host), incoming, MacroKey.IdsOf(there), KeysOf(ByContent(host), there), i)
              <==> KnownAgain(host, Brought(host, existing, incoming), incoming, i)
    {
      KnownByThen(host, existing, incoming, minted, mint, i);
    }
  }

  // ---- files of usable records --------------------------------------------------------

  lemma BroughtKey(host: Host, existing: seq<Macro>, incoming: seq<Macro>, key: string)
    ensures key in KeysOf(ByContent(host), Brought(host, existing, incoming))
            <==> key in KeysOf(ByContent(host), existing) || key in KeysOf(ByContent(host), StoredAll(host, Arrivals(host, existing, incoming)))
  {
    var arrived := StoredAll(host, Arrivals(host, existing, incoming));
    var brought := existing + arrived;
    forall i | 0 <= i < |existing| ensures KeyOf(host, existing[i]) in KeysOf(ByContent(host), brought) {
      assert ByContent(host)(brought[i]) == KeyOf(host, existing[i]);
    }
    forall i | 0 <= i < |arrived| ensures KeyOf(host, arrived[i]) in KeysOf(ByContent(host), brought) {
      assert ByContent(host)(brought[|existing| + i]) == KeyOf(host, arrived[i]);
    }
  }

  /** A record whose own first copy was settled is known afterwards. */
  lemma SettledIsKnown(host: Host, existing: seq<Macro>, incoming: seq<Macro>, m: Macro)
    requires AtRest(host, existing) && m in incoming
    requires forall n | n in incoming && KeyOf(host, n) == KeyOf(host, m) :: Usable(n) && BindingClean(n) && SlotSettled(host, n)
    ensures var brought := Brought(host, existing, incoming); IdHeld(brought, m) || ContentHeld(host, brought, m)
  {
    var key, added := ByContent(host), Added(host, existing, incoming);
    var ids, keys := MacroKey.IdsOf(existing), KeysOf(key, existing);
    UnseenByKey(key, incoming, ids, keys);
    BroughtKey(host, existing, incoming, KeyOf(host, m));
    if IdTaken(m, ids) {
      TakenIsHeld(existing, m);
      HeldJoin(existing, StoredAll(host, Arrivals(host, existing, incoming)), m[Identity].text);
    } else if key(m) !in keys {
      assert AmongKeys(key, m, added);
      var j :| 0 <= j < |added| && key(added[j]) == key(m);
      var n := added[j];
      assert n in added && n in incoming && KeyOf(host, n) == KeyOf(host, m);
      UsableAre(added);
      SettledKeepsKey(host, n);
      StoredKeyIn(host, Arrivals(host, existing, incoming), n);
    }
  }

  /** A file of usable records whose slots are all settled adds nothing the second time. */
  lemma RemergeAddsNothing(host: Host, existing: seq<Macro>, incoming: seq<Macro>,
                           minted: nat -> string, mint: nat -> string, minted': nat -> string, mint': nat -> string)
    requires AtRest(host, existing) && GoodMints(minted, mint, existing, incoming)
    requires (forall m | m in incoming :: NormalMacro(host, m) && Usable(m)) && AllSettled(host, incoming)
    ensures var there := MergedAndSaved(host, existing, incoming, minted, mint);
            MergedAndSaved(host, there, incoming, minted', mint') == there
  {
    RemergeExactly(host, existing, incoming, minted, mint, minted', mint');
    forall i: nat | i < |incoming| ensures KnownAgain(host, Brought(host, existing, incoming), incoming, i) {
      SettledIsKnown(host, existing, incoming, incoming[i]);
    }
  }

  /** One content is one spelling: records with one key are settled together. */
  lemma SettledTogether(host: Host, a: Macro, b: Macro)
    requires Prints(host.show) && BindingClean(a) && BindingClean(b) && KeyOf(host, a) == KeyOf(host, b)
    ensures SlotSettled(host, a) <==> SlotSettled(host, b)
  {
    SameKeySameBinding(host, a, b);
    SettledByText(host, a);
    SettledByText(host, b);
  }

  lemma SettledByText(host: Host, m: Macro)
    requires BindingClean(m)
    ensures SlotSettled(host, m) <==> BindingText(host, m) == "" || Spelled(BindingText(host, m))
  {
    StoredBinding(host, m);
    if Keybinding in m {
      ValidBindingBinds(m[Keybinding].text);
    } else {
      MigratedBinding(host, m);
    }
  }

  /** An unsettled record is held by its content only if the store held that from before. */
  lemma UnsettledByContent(host: Host, existing: seq<Macro>, incoming: seq<Macro>, m: Macro)
    requires Prints(host.show) && BindingClean(m) && !SlotSettled(host, m)
    requires forall n | n in incoming :: BindingClean(n)
    ensures ContentHeld(host, Brought(host, existing, incoming), m) <==> ContentHeld(host, existing, m)
  {
    var added, arrivals := Added(host, existing, incoming), Arrivals(host, existing, incoming);
    UnseenByKey(ByContent(host), incoming, MacroKey.IdsOf(existing), KeysOf(ByContent(host), existing));
    UsableAre(added);
    BroughtKey(host, existing, incoming, KeyOf(host, m));
    forall i | 0 <= i < |arrivals| ensures KeyOf(host, StoredAll(host, arrivals)[i]) != KeyOf(host, m) {
      assert arrivals[i] in arrivals && arrivals[i] in added;
      UnsettledHasNoKey(host, m, arrivals[i]);
    }
  }

  lemma UsableRecordKnown(host: Host, existing: seq<Macro>, incoming: seq<Macro>, i: nat)
    requires Prints(host.show) && AtRest(host, existing) && i < |incoming|
    requires forall m | m in incoming :: NormalMacro(host, m) && Usable(m)
    ensures var brought, m := Brought(host, existing, incoming), incoming[i];
            KnownAgain(host, brought, incoming, i) <==> SlotSettled(host, m) || IdHeld(brought, m) || ContentHeld(host, existing, m)
  {
    var m := incoming[i];
    assert m in incoming && NormalMacro(host, m);
    if SlotSettled(host, m) {
      forall n | n in incoming && KeyOf(host, n) == KeyOf(host, m) ensures SlotSettled(host, n) {
        assert NormalMacro(host, n);
        SettledTogether(host, n, m);
      }
      SettledIsKnown(host, existing, incoming, m);
    } else {
      UnsettledByContent(host, existing, incoming, m);
    }
  }

  /**
   For a file of usable records that is: every record has a settled slot, or a content the
   store held before, or an id that the store held or that a record the first merge adds has.
   */
  lemma UsableRemergeExactly(host: Host, existing: seq<Macro>, incoming: seq<Macro>,
                             minted: nat -> string, mint: nat -> string, minted': nat -> string, mint': nat -> string)
    requires Prints(host.show) && AtRest(host, existing) && GoodMints(minted, mint, existing, incoming)
    requires forall m | m in incoming :: NormalMacro(host, m) && Usable(m)
    ensures var there := MergedAndSaved(host, existing, incoming, minted, mint);
            MergedAndSaved(host, there, incoming, minted', mint') == there
            <==> forall m | m in incoming && !SlotSettled(host, m) ::
                   IdHeld(existing, m) || IdHeld(Added(host, existing, incoming), m) || ContentHeld(host, existing, m)
  {
    RemergeExactly(host, existing, incoming, minted, mint, minted', mint');
    forall i: nat | i < |incoming|
      ensures KnownAgain(host, Brought(host, existing, incoming), incoming, i)
              <==> SlotSettled(host, incoming[i]) || IdHeld(existing, incoming[i]) || IdHeld(Added(host, existing, incoming), incoming[i])
                   || ContentHeld(host, existing, incoming[i])
    {
      UsableRecordKnown(host, existing, incoming, i);
      BroughtHolds(host, existing, incoming, incoming[i]);
    }
  }

  /** In a file of usable records everything added arrives. */
  lemma BroughtHolds(host: Host, existing: seq<Macro>, incoming: seq<Macro>, m: Macro)
    requires forall n | n in incoming :: Usable(n)
    ensures IdHeld(Brought(host, existing, incoming), m) <==> IdHeld(existing, m) || IdHeld(Added(host, existing, incoming), m)
  {
    var added := Added(host, existing, incoming);
    UnseenByKey(ByContent(host), incoming, MacroKey.IdsOf(existing), KeysOf(ByContent(host), existing));
    UsableAre(added);
    assert Arrivals(host, existing, incoming) == added;
    if HasId(m) {
      HeldJoin(existing, StoredAll(host, added), m[Identity].text);
      HeldStored(host, added, m[Identity].text);
    }
  }

  // ---- inputs that come again ---------------------------------------------------------

  lemma UnseenFirst(key: Macro -> string, m: Macro, rest: seq<Macro>, ids: set<Js>, keys: set<string>)
    ensures Unseen(key, [m] + rest, ids, keys)
            == if IdTaken(m, ids) || key(m) in keys then Unseen(key, rest, ids, keys)
               else [m] + Unseen(key, rest, ids, keys + {key(m)})
  {
    assert ([m] + rest)[1..] == rest;
  }

  lemma NothingStored(host: Host)
    ensures AtRest(host, []) && MacroKey.IdsOf([]) == {} && KeysOf(ByContent(host), []) == {}
  {
  }

  lemma {:induction false} UnseenShorter(key: Macro -> string, incoming: seq<Macro>, ids: set<Js>, keys: set<string>)
    ensures |UsableOnes(Unseen(key, incoming, ids, keys))| <= |Unseen(key, incoming, ids, keys)| <= |incoming|
    decreases |incoming|
  {
    if incoming != [] {
      var first := incoming[0];
      if IdTaken(first, ids) || key(first) in keys {
        UnseenShorter(key, incoming[1..], ids, keys);
      } else {
        UnseenShorter(key, incoming[1..], ids, keys + {key(first)});
        UsableFirst(first, Unseen(key, incoming[1..], ids, keys + {key(first)}));
      }
    }
  }

  /** What a merge that changes the store makes of it, when one record at most can be new to it. */
  lemma OneMore(host: Host, there: seq<Macro>, incoming: seq<Macro>, minted: nat -> string, mint: nat -> string)
    requires AtRest(host, there) && |Arrivals(host, there, incoming)| <= 1
    requires MergedAndSaved(host, there, incoming, minted, mint) != there
    ensures |MergedAndSaved(host, there, incoming, minted, mint)| == |there| + 1
  {
    MergedCount(host, there, incoming, minted, mint);
  }

  /** A macro with the slot "A" and no id, merged twice into an empty store, is there twice. */
  lemma UnsettledSlotMergesTwice(host: Host, minted: nat -> string, mint: nat -> string, minted': nat -> string, mint': nat -> string)
    requires Prints(host.show) && host.template(Str("A")) == "A" && GoodMints(minted, mint, [], [SLOT_A])
    ensures var there := MergedAndSaved(host, [], [SLOT_A], minted, mint);
            |there| == 1 && |MergedAndSaved(host, there, [SLOT_A], minted', mint')| == 2
  {
    var file := [SLOT_A];
    NothingStored(host);
    SlotAIsSound(host);
    SlotARespelled(host);
    UnseenOne(ByContent(host), SLOT_A, {});
    assert Added(host, [], file) == file && !HasId(SLOT_A);
    UsableAre(file);
    MergedCount(host, [], file, minted, mint);
    MergedAtRest(host, [], file, minted, mint);
    var there := MergedAndSaved(host, [], file, minted, mint);
    assert SLOT_A in file && !IdHeld([], SLOT_A) && !IdHeld(file, SLOT_A) && !ContentHeld(host, [], SLOT_A);
    UsableRemergeExactly(host, [], file, minted, mint, minted', mint');
    UnseenShorter(ByContent(host), file, MacroKey.IdsOf(there), KeysOf(ByContent(host), there));
    OneMore(host, there, file, minted', mint');
  }

  function SlotAUnder(id: string): Macro {
    SLOT_A[Identity := Str(id)]
  }

  lemma SlotAUnderId(host: Host, id: string)
    ensures NormalMacro(host, SlotAUnder(id)) && Usable(SlotAUnder(id))
    ensures KeyOf(host, SlotAUnder(id)) == KeyOf(host, SLOT_A)
    ensures SlotSettled(host, SlotAUnder(id)) <==> SlotSettled(host, SLOT_A)
  {
    SlotAIsSound(host);
    BareIsNormal(host, SlotAUnder(id));
    assert SlotAUnder(id) == Rekeyed(SLOT_A, id);
    RekeyedKey(host, SLOT_A, id);
  }

  lemma OneTwinIsAdded(host: Host, p: Macro, q: Macro)
    requires KeyOf(host, p) == KeyOf(host, q) && Usable(p)
    ensures Added(host, [], [p, q]) == [p] == Arrivals(host, [], [p, q])
  {
    var key := ByContent(host);
    NothingStored(host);
    assert [p, q] == [p] + ([q] + []) && {} + {key(p)} == {key(p)};
    UnseenFirst(key, p, [q] + [], {}, {});
    UnseenFirst(key, q, [], {}, {key(p)});
    assert Added(host, [], [p, q]) == [p] + [] == [p];
    UsableAre([p]);
  }

  lemma OneAtMost(host: Host, there: seq<Macro>, p: Macro, q: Macro)
    requires IdTaken(p, MacroKey.IdsOf(there))
    ensures |Arrivals(host, there, [p, q])| <= 1
  {
    assert [p, q] == [p] + [q];
    UnseenFirst(ByContent(host), p, [q], MacroKey.IdsOf(there), KeysOf(ByContent(host), there));
    UnseenShorter(ByContent(host), [q], MacroKey.IdsOf(there), KeysOf(ByContent(host), there));
  }

  lemma TwinIsUnknown(host: Host, minted: nat -> string, mint: nat -> string, minted': nat -> string, mint': nat -> string)
    requires Prints(host.show) && host.template(Str("A")) == "A" && GoodMints(minted, mint, [], [SlotAUnder("p"), SlotAUnder("q")])
    ensures var file := [SlotAUnder("p"), SlotAUnder("q")];
            var there := MergedAndSaved(host, [], file, minted, mint);
            MergedAndSaved(host, there, file, minted', mint') != there
  {
    var p, q := SlotAUnder("p"), SlotAUnder("q");
    NothingStored(host);
    SlotAUnderId(host, "p");
    SlotAUnderId(host, "q");
    SlotARespelled(host);
    OneTwinIsAdded(host, p, q);
    assert q in [p, q] && "p"[0] != "q"[0];
    assert !IdHeld([], q) && !IdHeld([p], q) && !ContentHeld(host, [], q);
    UsableRemergeExactly(host, [], [p, q], minted, mint, minted', mint');
  }

  /** Twice the same content under two ids: the first merge adds one of them, the second the other. */
  lemma TwinComesLater(host: Host, minted: nat -> string, mint: nat -> string, minted': nat -> string, mint': nat -> string)
    requires Prints(host.show) && host.template(Str("A")) == "A" && GoodMints(minted, mint, [], [SlotAUnder("p"), SlotAUnder("q")])
    ensures var file := [SlotAUnder("p"), SlotAUnder("q")];
            var there := MergedAndSaved(host, [], file, minted, mint);
            |there| == 1 && |MergedAndSaved(host, there, file, minted', mint')| == 2
  {
    var p, q := SlotAUnder("p"), SlotAUnder("q");
    var file := [p, q];
    var there := MergedAndSaved(host, [], file, minted, mint);
    NothingStored(host);
    SlotAUnderId(host, "p");
    SlotAUnderId(host, "q");
    OneTwinIsAdded(host, p, q);
    MergedCount(host, [], file, minted, mint);
    MergedAtRest(host, [], file, minted, mint);
    FirstIsTaken(host, file, minted, mint, p);
    OneAtMost(host, there, p, q);
    TwinIsUnknown(host, minted, mint, minted', mint');
    OneMore(host, there, file, minted', mint');
  }

  /** The id of an arrival is taken the next time. */
  lemma FirstIsTaken(host: Host, file: seq<Macro>, minted: nat -> string, mint: nat -> string, m: Macro)
    requires GoodMints(minted, mint, [], file) && m in file && m in Arrivals(host, [], file) && HasId(m)
    ensures IdTaken(m, MacroKey.IdsOf(MergedAndSaved(host, [], file, minted, mint)))
  {
    NothingStored(host);
    var arrivals := Arrivals(host, [], file);
    var i :| 0 <= i < |arrivals| && arrivals[i] == m;
    assert Get(arrivals[i], Identity) == Some(Str(m[Identity].text));
    HeldStored(host, arrivals, m[Identity].text);
    assert Brought(host, [], file) == StoredAll(host, arrivals);
    KnownThen(host, [], file, minted, mint, m);
  }

  const NAMELESS: Macro := map[Identity := Str("p"), Body := Str("x")]
  const NAMED: Macro := map[Identity := Str("p"), Name := Str("other"), Body := Str("y")]
  const BLANK: Macro := map[Name := Str(""), Body := Str("x")]

  lemma PlainIsSound(host: Host, m: Macro)
    requires forall f | f in m :: f == Identity || f == Name || f == Body
    ensures NormalMacro(host, m) && SlotSettled(host, m) && BindingClean(m)
    ensures Terms(host, m) == HeadTerms(m) + INERT + [Str(""), Null, Str("session")]
  {
    BareIsNormal(host, m);
  }

  lemma ThreeAreSound(host: Host)
    ensures (forall m | m in [NAMELESS, NAMED, BLANK] :: NormalMacro(host, m)) && AllSettled(host, [NAMELESS, NAMED, BLANK])
  {
    assert NormalMacro(host, NAMELESS) && SlotSettled(host, NAMELESS) by {
      PlainIsSound(host, NAMELESS);
    }
    assert NormalMacro(host, NAMED) && SlotSettled(host, NAMED) by {
      PlainIsSound(host, NAMED);
    }
    assert NormalMacro(host, BLANK) && SlotSettled(host, BLANK) by {
      PlainIsSound(host, BLANK);
    }
  }

  lemma BodiesDiffer(host: Host)
    ensures ShownAll(Terms(host, NAMED)) != ShownAll(Terms(host, BLANK))
  {
    ShownEach(Terms(host, NAMED));
    ShownEach(Terms(host, BLANK));
    assert Terms(host, NAMED)[2] == Str("y") && Terms(host, BLANK)[2] == Str("x") && "y"[0] != "x"[0];
    assert |Terms(host, NAMED)| > 2 && |Terms(host, BLANK)| > 2;
  }

  lemma NamedHasOwnKey(host: Host)
    requires Prints(host.show)
    ensures KeyOf(host, NAMED) != KeyOf(host, BLANK)
  {
    BodiesDiffer(host);
    KeyShowsTerms(host, NAMED, BLANK);
  }

  lemma BlankLooksNameless(host: Host)
    ensures KeyOf(host, NAMELESS) == KeyOf(host, BLANK)
  {
    PlainIsSound(host, NAMELESS);
    PlainIsSound(host, BLANK);
    assert HeadTerms(NAMELESS) == HeadTerms(BLANK);
    assert Terms(host, NAMELESS) == Terms(host, BLANK);
  }

  lemma PlainKeys(host: Host)
    ensures KeyOf(host, NAMELESS) == KeyOf(host, BLANK)
    ensures Prints(host.show) ==> KeyOf(host, NAMED) != KeyOf(host, BLANK)
  {
    BlankLooksNameless(host);
    if Prints(host.show) {
      NamedHasOwnKey(host);
    }
  }

  /** The first merge of the three appends two: the third is known by then. */
  lemma TwoAreAdded(key: Macro -> string, a: Macro, b: Macro, c: Macro)
    requires key(a) == key(c) && key(b) != key(c)
    ensures Unseen(key, [a] + ([b] + ([c] + [])), {}, {}) == [a] + [b]
  {
    UnseenFirst(key, a, [b] + ([c] + []), {}, {});
    UnseenFirst(key, b, [c] + [], {}, {} + {key(a)});
    UnseenFirst(key, c, [], {}, {} + {key(a)} + {key(b)});
    assert Unseen(key, [], {}, {} + {key(a)} + {key(b)}) == [];
  }

  /** Of the two the store drops the first. */
  lemma OnlySecondArrives(host: Host, a: Macro, b: Macro, c: Macro)
    requires KeyOf(host, a) == KeyOf(host, c) && KeyOf(host, b) != KeyOf(host, c) && !Usable(a) && Usable(b)
    ensures Arrivals(host, [], [a, b, c]) == [b]
  {
    NothingStored(host);
    TwoAreAdded(ByContent(host), a, b, c);
    assert [a, b, c] == [a] + ([b] + ([c] + []));
    UsableFirst(a, [b]);
    assert UsableOnes([b]) == [b] by {
      UsableFirst(b, []);
      assert [b] + [] == [b];
    }
  }

  lemma OnlyNamedArrives(host: Host)
    requires Prints(host.show)
    ensures Arrivals(host, [], [NAMELESS, NAMED, BLANK]) == [NAMED]
  {
    PlainKeys(host);
    OnlySecondArrives(host, NAMELESS, NAMED, BLANK);
  }

  /** The second: two are skipped by their id, the third is new. */
  lemma OnlyBlankIsNew(host: Host, there: seq<Macro>)
    requires IdTaken(NAMELESS, MacroKey.IdsOf(there)) && IdTaken(NAMED, MacroKey.IdsOf(there))
    requires KeyOf(host, BLANK) !in KeysOf(ByContent(host), there)
    ensures Arrivals(host, there, [NAMELESS, NAMED, BLANK]) == [BLANK]
  {
    var key, ids, keys := ByContent(host), MacroKey.IdsOf(there), KeysOf(ByContent(host), there);
    assert [NAMELESS, NAMED, BLANK] == [NAMELESS] + ([NAMED] + ([BLANK] + []));
    UnseenFirst(key, NAMELESS, [NAMED] + ([BLANK] + []), ids, keys);
    UnseenFirst(key, NAMED, [BLANK] + [], ids, keys);
    UnseenFirst(key, BLANK, [], ids, keys);
    UsableFirst(BLANK, []);
  }

  /** What the store makes of one arrival, as far as another record can tell. */
  lemma OneIsStored(host: Host, m: Macro, n: Macro)
    requires HasId(m) && BindingClean(m) && SlotSettled(host, m) && KeyOf(host, m) != KeyOf(host, n)
    ensures HoldsId([Stored(host, m)], m[Identity].text) && !ContentHeld(host, [Stored(host, m)], n)
  {
    StoredIsUsable(host, m);
    assert Get([Stored(host, m)][0], Identity) == Some(Str(m[Identity].text));
    SettledKeepsKey(host, m);
  }

  lemma BroughtIsNamed(host: Host)
    requires Prints(host.show)
    ensures var brought := Brought(host, [], [NAMELESS, NAMED, BLANK]);
      && brought == [Stored(host, NAMED)] && HoldsId(brought, "p") && !ContentHeld(host, brought, BLANK)
  {
    OnlyNamedArrives(host);
    PlainIsSound(host, NAMED);
    PlainKeys(host);
    OneIsStored(host, NAMED, BLANK);
    assert Brought(host, [], [NAMELESS, NAMED, BLANK]) == [Stored(host, NAMED)];
  }

  lemma NamedIsStored(host: Host, minted: nat -> string, mint: nat -> string)
    requires Prints(host.show) && GoodMints(minted, mint, [], [NAMELESS, NAMED, BLANK])
    ensures var there := MergedAndSaved(host, [], [NAMELESS, NAMED, BLANK], minted, mint);
      && IdTaken(NAMELESS, MacroKey.IdsOf(there)) && IdTaken(NAMED, MacroKey.IdsOf(there))
      && KeyOf(host, BLANK) !in KeysOf(ByContent(host), there)
  {
    var file := [NAMELESS, NAMED, BLANK];
    NothingStored(host);
    BroughtIsNamed(host);
    KnownThen(host, [], file, minted, mint, file[0]);
    KnownThen(host, [], file, minted, mint, file[1]);
    KnownThen(host, [], file, minted, mint, file[2]);
  }

  /**
   A record without a name can cost a usable one its place: the first merge drops the usable one
   as known by its content, the store drops the other, and the second merge, which skips that
   one by its id, adds the usable one.
   */
  lemma UnusableTwinComesLater(host: Host, minted: nat -> string, mint: nat -> string, minted': nat -> string, mint': nat -> string)
    requires Prints(host.show) && GoodMints(minted, mint, [], [NAMELESS, NAMED, BLANK])
    ensures var file := [NAMELESS, NAMED, BLANK];
            var there := MergedAndSaved(host, [], file, minted, mint);
            && (forall m | m in file :: NormalMacro(host, m)) && AllSettled(host, file)
            && |there| == 1 && |MergedAndSaved(host, there, file, minted', mint')| == 2
  {
    var file := [NAMELESS, NAMED, BLANK];
    var there := MergedAndSaved(host, [], file, minted, mint);
    ThreeAreSound(host);
    NothingStored(host);
    OnlyNamedArrives(host);
    MergedCount(host, [], file, minted, mint);
    MergedAtRest(host, [], file, minted, mint);
    NamedIsStored(host, minted, mint);
    OnlyBlankIsNew(host, there);
    MergedCount(host, there, file, minted', mint');
  }
}
