/**
 The order of the macro list and the ownership of its shortcuts: moves swap two neighbours of
 one folder wherever they lie in the list, and a shortcut has one owner.
 */
module MacroOrder {
  import opened Json
  import opened Macros
  import opened MacroFolders
  import opened Records
  import opened Text

  type Place = Option<string>

  // ---- moves --------------------------------------------------------------------------

  /** `findPreviousInGroup`; -1 when there is none. */
  function Previous(places: seq<Place>, index: nat, place: Place): (r: int)
    requires index <= |places|
    ensures -1 <= r < index
  {
    if index == 0 then -1
    else if places[index - 1] == place then index - 1
    else Previous(places, index - 1, place)
  }

  /** The first after, at or from this position, or -1. */
  function Next(places: seq<Place>, index: nat, place: Place): (r: int)
    requires index <= |places|
    ensures r == -1 || index <= r < |places|
    decreases |places| - index
  {
    if index == |places| then -1
    else if places[index] == place then index
    else Next(places, index + 1, place)
  }

  function Places(macros: seq<Macro>): seq<Place> {
    seq(|macros|, i requires 0 <= i < |macros| => FolderOf(macros[i]))
  }

  function Swapped<T>(s: seq<T>, i: nat, j: nat): seq<T>
    requires i < |s| && j < |s|
  {
    s[i := s[j]][j := s[i]]
  }

  /** The position this one trades places with, or -1. */
  function UpPartner(places: seq<Place>, index: nat): (r: int)
    requires index < |places|
    ensures -1 <= r < index
  {
    Previous(places, index, places[index])
  }

  function DownPartner(places: seq<Place>, index: nat): (r: int)
    requires index < |places|
    ensures r == -1 || index < r < |places|
  {
    Next(places, index + 1, places[index])
  }

  function MovedUp<T>(s: seq<T>, places: seq<Place>, index: nat): seq<T>
    requires index < |s| == |places|
  {
    var p := UpPartner(places, index);
    if p == -1 then s else Swapped(s, p, index)
  }

  function MovedDown<T>(s: seq<T>, places: seq<Place>, index: nat): seq<T>
    requires index < |s| == |places|
  {
    var n := DownPartner(places, index);
    if n == -1 then s else Swapped(s, index, n)
  }

  /** `findPreviousInGroup`. */
  method FindPreviousInGroup(a: array<Macro>, index: nat, place: Place) returns (i: int)
    requires index < a.Length
    ensures i == Previous(Places(a[..]), index, place)
  {
    ghost var places := Places(a[..]);
    i := index - 1;
    while i >= 0 && FolderOf(a[i]) != place
      invariant -1 <= i < index
      invariant Previous(places, index, place) == Previous(places, i + 1, place)
    {
      assert places[i] == FolderOf(a[i]);
      i := i - 1;
    }
    assert i >= 0 ==> places[i] == FolderOf(a[i]);
  }

  /** `findNextInGroup`. */
  method FindNextInGroup(a: array<Macro>, index: nat, place: Place) returns (i: int)
    requires index < a.Length
    ensures i == Next(Places(a[..]), index + 1, place)
  {
    ghost var places := Places(a[..]);
    i := index + 1;
    while i < a.Length && FolderOf(a[i]) != place
      invariant index < i <= a.Length
      invariant Next(places, index + 1, place) == Next(places, i, place)
    {
      assert places[i] == FolderOf(a[i]);
      i := i + 1;
    }
    if i == a.Length {
      i := -1;
    } else {
      assert places[i] == FolderOf(a[i]);
    }
  }

  method MoveUp(a: array<Macro>, index: nat) returns (moved: bool)
    requires index < a.Length
    modifies a
    ensures a[..] == MovedUp(old(a[..]), Places(old(a[..])), index)
    ensures moved == (UpPartner(Places(old(a[..])), index) != -1)
  {
    var i := FindPreviousInGroup(a, index, FolderOf(a[index]));
    moved := i != -1;
    if moved {
      a[i], a[index] := a[index], a[i];
    }
  }

  method MoveDown(a: array<Macro>, index: nat) returns (moved: bool)
    requires index < a.Length
    modifies a
    ensures a[..] == MovedDown(old(a[..]), Places(old(a[..])), index)
    ensures moved == (DownPartner(Places(old(a[..])), index) != -1)
  {
    var i := FindNextInGroup(a, index, FolderOf(a[index]));
    moved := i != -1;
    if moved {
      a[index], a[i] := a[i], a[index];
    }
  }

  // ---- what a move does to the folders ------------------------------------------------

  /** The macros of one folder, in their order. */
  function InFolder<T>(macros: seq<T>, places: seq<Place>, place: Place): seq<T>
    requires |places| == |macros|
  {
    if macros == [] then []
    else (if places[0] == place then [macros[0]] else []) + InFolder(macros[1..], places[1..], place)
  }

  lemma {:induction false} InFolderSplits<T>(a: seq<T>, pa: seq<Place>, b: seq<T>, pb: seq<Place>, place: Place)
    requires |pa| == |a| && |pb| == |b|
    ensures InFolder(a + b, pa + pb, place) == InFolder(a, pa, place) + InFolder(b, pb, place)
    decreases |a|
  {
    if a == [] {
      assert a + b == b && pa + pb == pb;
    } else {
      InFolderSplits(a[1..], pa[1..], b, pb, place);
      assert (a + b)[1..] == a[1..] + b;
      assert (pa + pb)[1..] == pa[1..] + pb;
      var first := if pa[0] == place then [a[0]] else [];
      Associates(first, InFolder(a[1..], pa[1..], place), InFolder(b, pb, place));
    }
  }

  lemma Associates<T>(x: seq<T>, y: seq<T>, z: seq<T>)
    ensures x + (y + z) == x + y + z
  {
  }

  lemma {:induction false} NoneInFolder<T>(a: seq<T>, pa: seq<Place>, place: Place)
    requires |pa| == |a| && forall i | 0 <= i < |pa| :: pa[i] != place
    ensures InFolder(a, pa, place) == []
    decreases |a|
  {
    if a != [] {
      NoneInFolder(a[1..], pa[1..], place);
    }
  }

  lemma InFolderParts<T>(a: seq<T>, pa: seq<Place>, x: T, px: Place, b: seq<T>, pb: seq<Place>, place: Place)
    requires |pa| == |a| && |pb| == |b|
    ensures InFolder(a + [x] + b, pa + [px] + pb, place)
         == InFolder(a, pa, place) + (if px == place then [x] else []) + InFolder(b, pb, place)
  {
    InFolderSplits(a + [x], pa + [px], b, pb, place);
    InFolderSplits(a, pa, [x], [px], place);
    assert [x][1..] == [] && [px][1..] == [];
  }

  lemma {:induction false} PreviousIsNearest(places: seq<Place>, index: nat, place: Place)
    requires index <= |places|
    ensures var p := Previous(places, index, place);
      && (p >= 0 ==> places[p] == place)
      && forall k | p < k < index :: places[k] != place
    decreases index
  {
    if index > 0 && places[index - 1] != place {
      PreviousIsNearest(places, index - 1, place);
    }
  }

  lemma {:induction false} NextIsNearest(places: seq<Place>, index: nat, place: Place)
    requires index <= |places|
    ensures var n := Next(places, index, place);
      && (n >= 0 ==> places[n] == place)
      && forall k | index <= k < (if n == -1 then |places| else n) :: places[k] != place
    decreases |places| - index
  {
    if index < |places| && places[index] != place {
      NextIsNearest(places, index + 1, place);
    }
  }

  /** Two macros of one folder with none of it between them. */
  predicate Neighbours(places: seq<Place>, i: nat, j: nat) {
    i < j < |places| && places[i] == places[j] && forall k | i < k < j :: places[k] != places[i]
  }

  lemma UpPartnerIsNeighbour(places: seq<Place>, index: nat)
    requires index < |places| && UpPartner(places, index) != -1
    ensures Neighbours(places, UpPartner(places, index), index)
  {
    PreviousIsNearest(places, index, places[index]);
  }

  lemma DownPartnerIsNeighbour(places: seq<Place>, index: nat)
    requires index < |places| && DownPartner(places, index) != -1
    ensures Neighbours(places, index, DownPartner(places, index))
  {
    NextIsNearest(places, index + 1, places[index]);
  }

  lemma PartnerIsUnique(places: seq<Place>, i: nat, j: nat)
    requires Neighbours(places, i, j)
    ensures DownPartner(places, i) == j && UpPartner(places, j) == i
  {
    NextIsNearest(places, i + 1, places[i]);
    PreviousIsNearest(places, j, places[j]);
  }

  /** A swap of two neighbours leaves every position in its folder. */
  lemma SwapKeepsPlaces(macros: seq<Macro>, i: nat, j: nat)
    requires Neighbours(Places(macros), i, j)
    ensures Places(Swapped(macros, i, j)) == Places(macros)
  {
  }

  /** How many of a folder come before this position. */
  function Rank<T>(s: seq<T>, places: seq<Place>, i: nat, place: Place): nat
    requires i <= |s| == |places|
  {
    |InFolder(s[..i], places[..i], place)|
  }

  /**
   Swapping two neighbours permutes the list, trades two adjacent members of their folder and
   leaves the order of every other folder alone.
   */
  lemma SwapTransposesOneFolder<T>(s: seq<T>, places: seq<Place>, i: nat, j: nat, place: Place)
    requires |s| == |places| && Neighbours(places, i, j)
    ensures
      var after := Swapped(s, i, j);
      var before', after' := InFolder(s, places, place), InFolder(after, places, place);
      && multiset(after) == multiset(s)
      && (place != places[i] ==> after' == before')
      && (place == places[i] ==>
            var r := Rank(s, places, i, place);
            r + 1 < |before'| && before'[r] == s[i] && before'[r + 1] == s[j] && after' == Swapped(before', r, r + 1))
  {
    SwapPermutes(s, i, j);
    if place == places[i] {
      OwnFolderTransposed(s, places, i, j);
    } else {
      InFolderAround(s, places, i, j, place);
      SwapLeavesRest(s, i, j);
      InFolderAround(Swapped(s, i, j), places, i, j, place);
    }
  }

  lemma SwapLeavesRest<T>(s: seq<T>, i: nat, j: nat)
    requires i < j < |s|
    ensures var after := Swapped(s, i, j);
      && after[..i] == s[..i] && after[i + 1..j] == s[i + 1..j] && after[j + 1..] == s[j + 1..]
      && after[i] == s[j] && after[j] == s[i]
  {
  }

  lemma TransposeMiddle<T>(x: seq<T>, a: T, b: T, z: seq<T>)
    ensures Swapped(x + [a, b] + z, |x|, |x| + 1) == x + [b, a] + z
    ensures (x + [a, b] + z)[|x|] == a && (x + [a, b] + z)[|x| + 1] == b
  {
  }

  lemma OwnFolderTransposed<T>(s: seq<T>, places: seq<Place>, i: nat, j: nat)
    requires |s| == |places| && Neighbours(places, i, j)
    ensures
      var mine, r := InFolder(s, places, places[i]), Rank(s, places, i, places[i]);
      && r + 1 < |mine| && mine[r] == s[i] && mine[r + 1] == s[j]
      && InFolder(Swapped(s, i, j), places, places[i]) == Swapped(mine, r, r + 1)
  {
    var place := places[i];
    var x, z := InFolder(s[..i], places[..i], place), InFolder(s[j + 1..], places[j + 1..], place);
    NoneInFolder(s[i + 1..j], places[i + 1..j], place);
    InFolderAround(s, places, i, j, place);
    SwapLeavesRest(s, i, j);
    InFolderAround(Swapped(s, i, j), places, i, j, place);
    assert x + [s[i]] + ([] + [s[j]] + z) == x + [s[i], s[j]] + z;
    assert x + [s[j]] + ([] + [s[i]] + z) == x + [s[j], s[i]] + z;
    TransposeMiddle(x, s[i], s[j], z);
  }

  lemma InFolderAround<T>(s: seq<T>, places: seq<Place>, i: nat, j: nat, place: Place)
    requires |s| == |places| && i < j < |s|
    ensures InFolder(s, places, place)
         == InFolder(s[..i], places[..i], place) + (if places[i] == place then [s[i]] else [])
            + (InFolder(s[i + 1..j], places[i + 1..j], place) + (if places[j] == place then [s[j]] else [])
               + InFolder(s[j + 1..], places[j + 1..], place))
  {
    var tail, tail' := s[i + 1..j] + [s[j]] + s[j + 1..], places[i + 1..j] + [places[j]] + places[j + 1..];
    assert s == s[..i] + [s[i]] + tail && places == places[..i] + [places[i]] + tail';
    InFolderParts(s[..i], places[..i], s[i], places[i], tail, tail', place);
    InFolderParts(s[i + 1..j], places[i + 1..j], s[j], places[j], s[j + 1..], places[j + 1..], place);
  }

  /** The list is permuted, two adjacent members of one folder trade places, every other folder keeps its order. */
  ghost predicate OneFolderTransposed<T>(s: seq<T>, after: seq<T>, places: seq<Place>, i: nat, j: nat)
    requires |after| == |s| == |places|
  {
    && Neighbours(places, i, j) && multiset(after) == multiset(s)
    && (forall place | place != places[i] :: InFolder(after, places, place) == InFolder(s, places, place))
    && var mine, r := InFolder(s, places, places[i]), Rank(s, places, i, places[i]);
       r + 1 < |mine| && mine[r] == s[i] && mine[r + 1] == s[j]
       && InFolder(after, places, places[i]) == Swapped(mine, r, r + 1)
  }

  lemma SwapIsTransposition<T>(s: seq<T>, places: seq<Place>, i: nat, j: nat)
    requires |s| == |places| && Neighbours(places, i, j)
    ensures OneFolderTransposed(s, Swapped(s, i, j), places, i, j)
  {
    forall place | place != places[i] ensures InFolder(Swapped(s, i, j), places, place) == InFolder(s, places, place) {
      SwapTransposesOneFolder(s, places, i, j, place);
    }
    SwapTransposesOneFolder(s, places, i, j, places[i]);
  }

  /** A move up or down, when there is anything to trade places with. */
  lemma MoveIsAdjacentTransposition(macros: seq<Macro>, index: nat)
    requires index < |macros|
    ensures
      var places := Places(macros);
      && Places(MovedUp(macros, places, index)) == places && Places(MovedDown(macros, places, index)) == places
      && (UpPartner(places, index) != -1 ==>
            OneFolderTransposed(macros, MovedUp(macros, places, index), places, UpPartner(places, index), index))
      && (DownPartner(places, index) != -1 ==>
            OneFolderTransposed(macros, MovedDown(macros, places, index), places, index, DownPartner(places, index)))
  {
    var places := Places(macros);
    var p, n := UpPartner(places, index), DownPartner(places, index);
    if p != -1 {
      UpPartnerIsNeighbour(places, index);
      SwapKeepsPlaces(macros, p, index);
      SwapIsTransposition(macros, places, p, index);
    }
    if n != -1 {
      DownPartnerIsNeighbour(places, index);
      SwapKeepsPlaces(macros, index, n);
      SwapIsTransposition(macros, places, index, n);
    }
  }

  lemma SwapTwice<T>(s: seq<T>, i: nat, j: nat)
    requires i < |s| && j < |s|
    ensures Swapped(Swapped(s, i, j), i, j) == s
  {
  }

  lemma UpThenDown<T>(s: seq<T>, places: seq<Place>, index: nat)
    requires index < |s| == |places| && UpPartner(places, index) != -1
    ensures MovedDown(MovedUp(s, places, index), places, UpPartner(places, index)) == s
  {
    UpPartnerIsNeighbour(places, index);
    PartnerIsUnique(places, UpPartner(places, index), index);
    SwapTwice(s, UpPartner(places, index), index);
  }

  lemma DownThenUp<T>(s: seq<T>, places: seq<Place>, index: nat)
    requires index < |s| == |places| && DownPartner(places, index) != -1
    ensures MovedUp(MovedDown(s, places, index), places, DownPartner(places, index)) == s
  {
    DownPartnerIsNeighbour(places, index);
    PartnerIsUnique(places, index, DownPartner(places, index));
    SwapTwice(s, index, DownPartner(places, index));
  }

  /** A move up is undone by moving the same macro down again, and the other way round. */
  lemma MovesUndoEachOther(macros: seq<Macro>, index: nat)
    requires index < |macros|
    ensures
      var places := Places(macros);
      var up, down := MovedUp(macros, places, index), MovedDown(macros, places, index);
      && (UpPartner(places, index) != -1 ==> MovedDown(up, Places(up), UpPartner(places, index)) == macros)
      && (DownPartner(places, index) != -1 ==> MovedUp(down, Places(down), DownPartner(places, index)) == macros)
  {
    var places := Places(macros);
    MoveIsAdjacentTransposition(macros, index);
    if UpPartner(places, index) != -1 {
      UpThenDown(macros, places, index);
    }
    if DownPartner(places, index) != -1 {
      DownThenUp(macros, places, index);
    }
  }

  // ---- shortcuts ----------------------------------------------------------------------

  /** `assignBinding` on one macro that is not the target: it loses the binding if it has it. */
  function Disowned(host: Host, m: Macro, binding: string): Macro {
    if AssignedBinding(host, m) == Some(binding) then m - {Keybinding, Slot} else m
  }

  /** `assignBinding`; an empty binding clears the target. */
  function Assigned(host: Host, macros: seq<Macro>, target: nat, binding: Option<Js>): seq<Macro>
    requires target < |macros|
  {
    var normalized := NormalizeBinding(binding);
    if normalized.None? then macros[target := macros[target] - {Keybinding, Slot}]
    else
      seq(|macros|, i requires 0 <= i < |macros| =>
        if i == target then (macros[i] - {Slot})[Keybinding := Str(normalized.value)]
        else Disowned(host, macros[i], normalized.value))
  }

  method AssignBinding(host: Host, a: array<Macro>, target: nat, binding: Option<Js>)
    requires target < a.Length
    modifies a
    ensures a[..] == Assigned(host, old(a[..]), target, binding)
  {
    var normalized := NormalizeBinding(binding);
    if normalized.None? {
      a[target] := a[target] - {Keybinding, Slot};
      return;
    }
    var k := 0;
    while k < a.Length
      invariant 0 <= k <= a.Length
      invariant forall i | 0 <= i < a.Length ::
        a[i] == if i < k then Disowned(host, old(a[..])[i], normalized.value) else old(a[..])[i]
    {
      if AssignedBinding(host, a[k]) == normalized {
        a[k] := a[k] - {Keybinding, Slot};
      }
      k := k + 1;
    }
    a[target] := a[target][Keybinding := Str(normalized.value)];
    a[target] := a[target] - {Slot};
    assert a[target] == (old(a[..])[target] - {Slot})[Keybinding := Str(normalized.value)];
  }

  /** `findBindingOwnerIndex`; -1 when nobody else owns it. */
  method FindBindingOwner(host: Host, macros: seq<Macro>, binding: Option<Js>, exclude: Option<nat>) returns (owner: int)
    ensures owner == -1 <==>
              NormalizeBinding(binding).None? ||
              forall i: nat | i < |macros| && Some(i) != exclude :: AssignedBinding(host, macros[i]) != NormalizeBinding(binding)
    ensures owner != -1 ==>
              && 0 <= owner < |macros| && Some(owner) != exclude
              && AssignedBinding(host, macros[owner]) == NormalizeBinding(binding)
              && forall i: nat | i < owner && Some(i) != exclude :: AssignedBinding(host, macros[i]) != NormalizeBinding(binding)
  {
    var normalized := NormalizeBinding(binding);
    if normalized.None? {
      return -1;
    }
    var k := 0;
    while k < |macros|
      invariant 0 <= k <= |macros|
      invariant forall i: nat | i < k && Some(i) != exclude :: AssignedBinding(host, macros[i]) != normalized
    {
      if Some(k) != exclude && AssignedBinding(host, macros[k]) == normalized {
        return k;
      }
      k := k + 1;
    }
    owner := -1;
  }

  function Bindings(host: Host, macros: seq<Macro>): seq<Option<string>> {
    seq(|macros|, i requires 0 <= i < |macros| => AssignedBinding(host, macros[i]))
  }

  /** No two macros are run by one shortcut. */
  ghost predicate OneOwner(bindings: seq<Option<string>>) {
    forall i, j | 0 <= i < j < |bindings| && bindings[i].Some? :: bindings[i] != bindings[j]
  }

  /**
   After an assignment the target has exactly the binding asked for, and every other macro has
   what it had or, if it owned that binding, nothing.
   */
  lemma AssignmentTakesOver(host: Host, macros: seq<Macro>, target: nat, binding: Option<Js>)
    requires target < |macros|
    ensures
      var before, after := Bindings(host, macros), Bindings(host, Assigned(host, macros, target, binding));
      var wanted := NormalizeBinding(binding);
      && |after| == |before| && after[target] == wanted
      && forall i | 0 <= i < |before| && i != target ::
           after[i] == if wanted.Some? && before[i] == wanted then None else before[i]
    ensures
      var result := Assigned(host, macros, target, binding);
      && |result| == |macros|
      && (forall i | 0 <= i < |macros| :: result[i] - {Keybinding, Slot} == macros[i] - {Keybinding, Slot})
      && forall i | 0 <= i < |macros| && i != target
           && (NormalizeBinding(binding).None? || AssignedBinding(host, macros[i]) != NormalizeBinding(binding)) ::
           result[i] == macros[i]
  {
    var result := Assigned(host, macros, target, binding);
    if NormalizeBinding(binding).Some? {
      NormalizedStays(binding);
      assert Get(result[target], Keybinding) == Some(Str(NormalizeBinding(binding).value));
      forall i | 0 <= i < |macros| && i != target
        ensures AssignedBinding(host, result[i]) ==
                  if AssignedBinding(host, macros[i]) == NormalizeBinding(binding) then None else AssignedBinding(host, macros[i])
      {
        Bare(host, macros[i]);
      }
    } else {
      Bare(host, macros[target]);
    }
  }

  lemma Bare(host: Host, m: Macro)
    ensures AssignedBinding(host, m - {Keybinding, Slot}) == None
  {
  }

  // ---- whole runs ---------------------------------------------------------------------

  datatype Op = Up(index: nat) | Down(index: nat) | Assign(index: nat, binding: Option<Js>)

  function After(host: Host, macros: seq<Macro>, op: Op): seq<Macro> {
    if op.index >= |macros| then macros
    else match op
      case Up(i) => MovedUp(macros, Places(macros), i)
      case Down(i) => MovedDown(macros, Places(macros), i)
      case Assign(i, binding) => Assigned(host, macros, i, binding)
  }

  function Run(host: Host, macros: seq<Macro>, ops: seq<Op>): seq<Macro>
    decreases |ops|
  {
    if ops == [] then macros else Run(host, After(host, macros, ops[0]), ops[1..])
  }

  lemma SwapKeepsOwners(host: Host, macros: seq<Macro>, i: nat, j: nat)
    requires i < |macros| && j < |macros| && OneOwner(Bindings(host, macros))
    ensures OneOwner(Bindings(host, Swapped(macros, i, j)))
  {
    var before := Bindings(host, macros);
    assert Bindings(host, Swapped(macros, i, j)) == Swapped(before, i, j);
  }

  lemma AssignKeepsOwners(host: Host, macros: seq<Macro>, target: nat, binding: Option<Js>)
    requires target < |macros| && OneOwner(Bindings(host, macros))
    ensures OneOwner(Bindings(host, Assigned(host, macros, target, binding)))
  {
    AssignmentTakesOver(host, macros, target, binding);
  }

  /** In any run of moves and assignments every shortcut keeps at most one owner. */
  lemma {:induction false} RunsKeepOneOwner(host: Host, macros: seq<Macro>, ops: seq<Op>)
    requires OneOwner(Bindings(host, macros))
    ensures OneOwner(Bindings(host, Run(host, macros, ops))) && |Run(host, macros, ops)| == |macros|
    decreases |ops|
  {
    if ops != [] {
      if ops[0].index < |macros| {
        match ops[0]
        case Up(i) =>
          if UpPartner(Places(macros), i) != -1 {
            SwapKeepsOwners(host, macros, UpPartner(Places(macros), i), i);
          }
        case Down(i) =>
          if DownPartner(Places(macros), i) != -1 {
            SwapKeepsOwners(host, macros, i, DownPartner(Places(macros), i));
          }
        case Assign(i, binding) => AssignKeepsOwners(host, macros, i, binding);
      }
      RunsKeepOneOwner(host, After(host, macros, ops[0]), ops[1..]);
    }
  }

  /** Everything about a macro but its shortcut. */
  function WithoutShortcut(m: Macro): Macro {
    m - {Keybinding, Slot}
  }

  function Contents(macros: seq<Macro>): seq<Macro> {
    seq(|macros|, i requires 0 <= i < |macros| => WithoutShortcut(macros[i]))
  }

  /** A run only ever reorders the macros: apart from shortcuts, none is changed, lost or added. */
  lemma {:induction false} RunsPermuteContents(host: Host, macros: seq<Macro>, ops: seq<Op>)
    ensures multiset(Contents(Run(host, macros, ops))) == multiset(Contents(macros))
    decreases |ops|
  {
    if ops != [] {
      StepPermutesContents(host, macros, ops[0]);
      RunsPermuteContents(host, After(host, macros, ops[0]), ops[1..]);
    }
  }

  lemma StepPermutesContents(host: Host, macros: seq<Macro>, op: Op)
    ensures multiset(Contents(After(host, macros, op))) == multiset(Contents(macros))
  {
    var after := After(host, macros, op);
    if op.index < |macros| {
      match op
      case Up(i) =>
        if UpPartner(Places(macros), i) != -1 {
          assert Contents(after) == Swapped(Contents(macros), UpPartner(Places(macros), i), i);
          SwapPermutes(Contents(macros), UpPartner(Places(macros), i), i);
        }
      case Down(i) =>
        if DownPartner(Places(macros), i) != -1 {
          assert Contents(after) == Swapped(Contents(macros), i, DownPartner(Places(macros), i));
          SwapPermutes(Contents(macros), i, DownPartner(Places(macros), i));
        }
      case Assign(i, binding) =>
        forall k | 0 <= k < |macros| ensures WithoutShortcut(after[k]) == WithoutShortcut(macros[k]) {
        }
        assert Contents(after) == Contents(macros);
    }
  }

  lemma SwapPermutes<T>(s: seq<T>, i: nat, j: nat)
    requires i < |s| && j < |s|
    ensures multiset(Swapped(s, i, j)) == multiset(s)
  {
  }

  // ---- which move is made -------------------------------------------------------------

  /** The nearest macro of the same folder before this one. */
  ghost predicate NearestBefore(macros: seq<Macro>, i: nat, index: nat) {
    && i < index < |macros| && FolderOf(macros[i]) == FolderOf(macros[index])
    && forall k | i < k < index :: FolderOf(macros[k]) != FolderOf(macros[index])
  }

  lemma NearestAreNeighbours(macros: seq<Macro>, i: nat, index: nat)
    requires index < |macros|
    ensures NearestBefore(macros, i, index) <==> Neighbours(Places(macros), i, index)
  {
    assert forall k | 0 <= k < |macros| :: Places(macros)[k] == FolderOf(macros[k]);
    if Neighbours(Places(macros), i, index) {
      forall k | i < k < index ensures FolderOf(macros[k]) != FolderOf(macros[index]) {
        assert Places(macros)[k] != Places(macros)[i];
      }
    }
  }

  /** Moving up trades places with the nearest macro before it in its folder, and does nothing when there is none. */
  lemma MovesUpExactly(macros: seq<Macro>, index: nat)
    requires index < |macros|
    ensures
      var after := MovedUp(macros, Places(macros), index);
      if i: nat :| NearestBefore(macros, i, index) then after == macros[i := macros[index]][index := macros[i]]
      else after == macros && forall i | 0 <= i < index :: FolderOf(macros[i]) != FolderOf(macros[index])
  {
    var places := Places(macros);
    if i: nat :| NearestBefore(macros, i, index) {
      NearestAreNeighbours(macros, i, index);
      PartnerIsUnique(places, i, index);
    } else {
      NoneAbove(macros, index);
    }
  }

  lemma NoneAbove(macros: seq<Macro>, index: nat)
    requires index < |macros| && forall i: nat :: !NearestBefore(macros, i, index)
    ensures UpPartner(Places(macros), index) == -1
    ensures forall i | 0 <= i < index :: FolderOf(macros[i]) != FolderOf(macros[index])
  {
    var places := Places(macros);
    PreviousIsNearest(places, index, places[index]);
    var p := UpPartner(places, index);
    if p >= 0 {
      UpPartnerIsNeighbour(places, index);
      NearestAreNeighbours(macros, p, index);
    }
    forall i | 0 <= i < index ensures FolderOf(macros[i]) != FolderOf(macros[index]) {
      assert places[i] != places[index];
    }
  }

  /** Moving down trades places with the nearest one after it. */
  lemma MovesDownExactly(macros: seq<Macro>, index: nat)
    requires index < |macros|
    ensures
      var after := MovedDown(macros, Places(macros), index);
      if j: nat :| NearestBefore(macros, index, j) then after == macros[index := macros[j]][j := macros[index]]
      else after == macros && forall j | index < j < |macros| :: FolderOf(macros[j]) != FolderOf(macros[index])
  {
    var places := Places(macros);
    if j: nat :| NearestBefore(macros, index, j) {
      NearestAreNeighbours(macros, index, j);
      PartnerIsUnique(places, index, j);
    } else {
      NoneBelow(macros, index);
    }
  }

  lemma NoneBelow(macros: seq<Macro>, index: nat)
    requires index < |macros| && forall j: nat :: !NearestBefore(macros, index, j)
    ensures DownPartner(Places(macros), index) == -1
    ensures forall j | index < j < |macros| :: FolderOf(macros[j]) != FolderOf(macros[index])
  {
    var places := Places(macros);
    NextIsNearest(places, index + 1, places[index]);
    var n := DownPartner(places, index);
    if n >= 0 {
      DownPartnerIsNeighbour(places, index);
      NearestAreNeighbours(macros, index, n);
    }
    forall j | index < j < |macros| ensures FolderOf(macros[j]) != FolderOf(macros[index]) {
      assert places[j] != places[index];
    }
  }
}
