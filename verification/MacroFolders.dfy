/**
 Renaming and removing macro folders: the explicit folder list and the macros' own folder
 fields are rewritten together, by whole names.
 */
module MacroFolders {
  import opened FolderPaths
  import opened Json
  import opened Macros
  import opened Records
  import opened Segments
  import opened Text

  /** The folder every reader sees a macro in. */
  function FolderOf(m: Macro): Option<string> {
    if Group in m && m[Group].Str? then SanitizeGroup(m[Group].text) else None
  }

  predicate Under(m: Macro, path: string) {
    FolderOf(m).Some? && IsDescendantOrSelf(FolderOf(m).value, path)
  }

  // ---- what the operations compute ----------------------------------------------------

  /** `renamedDescendantPath`. */
  function RenamedPath(p: string, oldPath: string, newPath: string): string
    requires IsDescendantOrSelf(p, oldPath)
  {
    newPath + p[|oldPath|..]
  }

  function RenamedMacro(m: Macro, oldPath: string, newPath: string): Macro {
    if Under(m, oldPath) then m[Group := Str(RenamedPath(FolderOf(m).value, oldPath, newPath))] else m
  }

  function RenamedMacros(macros: seq<Macro>, oldPath: string, newPath: string): seq<Macro> {
    seq(|macros|, i requires 0 <= i < |macros| => RenamedMacro(macros[i], oldPath, newPath))
  }

  function RenamedFolder(f: string, oldPath: string, newPath: string): string {
    if IsDescendantOrSelf(f, oldPath) then RenamedPath(f, oldPath, newPath) else f
  }

  function RenamedFolders(folders: set<string>, oldPath: string, newPath: string): set<string> {
    (set f | f in folders :: RenamedFolder(f, oldPath, newPath)) + (set a | a in AncestorPaths(newPath))
  }

  /** No resulting path would be one the readers drop. */
  predicate RenameFits(folders: set<string>, macros: seq<Macro>, oldPath: string, newPath: string) {
    && (forall f | f in folders && IsDescendantOrSelf(f, oldPath) :: NormalizeFolderPath(RenamedPath(f, oldPath, newPath)).Some?)
    && (forall i | 0 <= i < |macros| && Under(macros[i], oldPath) ::
          NormalizeFolderPath(RenamedPath(FolderOf(macros[i]).value, oldPath, newPath)).Some?)
  }

  /** Where the contents of a removed folder go: the parent, with what came after kept. */
  function RemovedPath(p: string, path: string): Option<string>
    requires IsDescendantOrSelf(p, path)
  {
    var suffix := p[|path|..];
    if ParentPath(path).Some? then Some(ParentPath(path).value + suffix)
    else if suffix == "" then None else Some(suffix[1..])
  }

  function RemovedMacro(m: Macro, path: string): Macro {
    if !Under(m, path) then m
    else
      var p := RemovedPath(FolderOf(m).value, path);
      if p.Some? then m[Group := Str(p.value)] else m - {Group}
  }

  function RemovedMacros(macros: seq<Macro>, path: string): seq<Macro> {
    seq(|macros|, i requires 0 <= i < |macros| => RemovedMacro(macros[i], path))
  }

  function RemovedFolders(folders: set<string>, path: string): set<string> {
    set f, x | f in folders && x in RemovedFolder(f, path) :: x
  }

  function EnsuredFolders(folders: set<string>, path: string): set<string> {
    folders + (set a | a in AncestorPaths(path))
  }

  // ---- the store ----------------------------------------------------------------------

  /** How a rename ends; a rejected save is passed on to the caller. */
  datatype Renaming = Renamed | Refused | SaveFailed

  /** How a removal ends. */
  datatype Removal = Removed | Declined | RemovalFailed

  /** What other commands have left in the store. */
  datatype Contents = Contents(folders: set<string>, macros: seq<Macro>)

  /** The macros once the folders are saved: rewritten if any lies inside and their own save is accepted. */
  function MacrosAfter(macros: seq<Macro>, oldPath: string, newPath: string, saved: bool): seq<Macro> {
    if saved || !AnyUnder(macros, oldPath) then RenamedMacros(macros, oldPath, newPath) else macros
  }

  class MacroStore {
    var folders: set<string>
    var macros: seq<Macro>

    constructor (folders: set<string>, macros: seq<Macro>)
      ensures this.folders == folders && this.macros == macros
    {
      this.folders, this.macros := folders, macros;
    }

    method EnsureMacroFolderExists(path: string)
      modifies this`folders
      ensures folders == EnsuredFolders(old(folders), path)
    {
      folders := WithAncestors(folders, path);
    }

    method CheckRename(oldPath: string, newPath: string) returns (fits: bool)
      ensures fits == RenameFits(folders, macros, oldPath, newPath)
    {
      var todo := folders;
      while todo != {}
        invariant todo <= folders
        invariant forall f | f in folders - todo && IsDescendantOrSelf(f, oldPath) ::
          NormalizeFolderPath(RenamedPath(f, oldPath, newPath)).Some?
        decreases |todo|
      {
        var f :| f in todo;
        if IsDescendantOrSelf(f, oldPath) && NormalizeFolderPath(RenamedPath(f, oldPath, newPath)).None? {
          return false;
        }
        todo := todo - {f};
      }
      var k := 0;
      while k < |macros|
        invariant 0 <= k <= |macros|
        invariant forall i | 0 <= i < k && Under(macros[i], oldPath) ::
          NormalizeFolderPath(RenamedPath(FolderOf(macros[i]).value, oldPath, newPath)).Some?
      {
        if Under(macros[k], oldPath) && NormalizeFolderPath(RenamedPath(FolderOf(macros[k]).value, oldPath, newPath)).None? {
          return false;
        }
        k := k + 1;
      }
      fits := true;
    }

    /**
     `renameMacroFolder`: two saves, either of which may reject. While the folders are being
     saved another command may save macros; the macros rewritten are those there afterwards.
     */
    method RenameMacroFolder(oldPath: string, newPath: string, foldersSaved: bool, meanwhile: Option<seq<Macro>>, macrosSaved: bool)
      returns (outcome: Renaming)
      modifies this
      ensures
        var fits := RenameFits(old(folders), old(macros), oldPath, newPath);
        var latest := if fits && meanwhile.Some? then meanwhile.value else old(macros);
        && folders == (if fits && foldersSaved then RenamedFolders(old(folders), oldPath, newPath) else old(folders))
        && macros == (if fits && foldersSaved then MacrosAfter(latest, oldPath, newPath, macrosSaved) else latest)
        && outcome == (if !fits then Refused
                       else if foldersSaved && (macrosSaved || !AnyUnder(latest, oldPath)) then Renamed else SaveFailed)
    {
      var fits := CheckRename(oldPath, newPath);
      if !fits {
        return Refused;
      }
      var nextExplicit := RenameFolderList(folders, oldPath, newPath);
      nextExplicit := WithAncestors(nextExplicit, newPath);
      if meanwhile.Some? {
        macros := meanwhile.value;
      }
      if !foldersSaved {
        return SaveFailed;
      }
      folders := nextExplicit;
      var updated, changed := RenameMacroList(macros, oldPath, newPath);
      if changed {
        if !macrosSaved {
          return SaveFailed;
        }
        macros := updated;
      } else {
        NothingToRename(macros, oldPath, newPath);
      }
      outcome := Renamed;
    }

    /**
     `removeMacroFolder`: a question where macros lie inside, then two saves, either of which may
     reject. While the question is open other commands may save anything, and while the macros are
     being saved they may save folders; what is rewritten is what is there then, never what the
     question was asked about.
     */
    method RemoveMacroFolder(path: string, confirmed: bool, asked: Option<Contents>, macrosSaved: bool,
                             meanwhile: Option<set<string>>, foldersSaved: bool)
      returns (outcome: Removal)
      modifies this
      ensures
        var asks := AnyUnder(old(macros), path);
        var latest := if asks && asked.Some? then asked.value else Contents(old(folders), old(macros));
        var declined := asks && !confirmed;
        var saves := !declined && AnyUnder(latest.macros, path);
        var listed := if saves && meanwhile.Some? then meanwhile.value else latest.folders;
        var lifted := !declined && (saves ==> macrosSaved);
        && macros == (if lifted then RemovedMacros(latest.macros, path) else latest.macros)
        && folders == (if lifted && foldersSaved then RemovedFolders(listed, path) else listed)
        && outcome == (if declined then Declined else if lifted && foldersSaved then Removed else RemovalFailed)
    {
      if AnyUnder(macros, path) {
        if asked.Some? {
          folders, macros := asked.value.folders, asked.value.macros;
        }
        if !confirmed {
          return Declined;
        }
      }
      var updated, changed := RemoveMacroList(macros, path);
      if changed {
        if meanwhile.Some? {
          folders := meanwhile.value;
        }
        if !macrosSaved {
          return RemovalFailed;
        }
        macros := updated;
      } else {
        NothingToRemove(macros, path);
      }
      var nextExplicit := RemoveFolderList(folders, path);
      if !foldersSaved {
        return RemovalFailed;
      }
      folders := nextExplicit;
      outcome := Removed;
    }
  }

  predicate AnyUnder(macros: seq<Macro>, path: string) {
    exists i :: 0 <= i < |macros| && Under(macros[i], path)
  }

  method RenameFolderList(folders: set<string>, oldPath: string, newPath: string) returns (next: set<string>)
    ensures next == set f | f in folders :: RenamedFolder(f, oldPath, newPath)
  {
    next := {};
    var todo := folders;
    while todo != {}
      invariant todo <= folders
      invariant next == set f | f in folders - todo :: RenamedFolder(f, oldPath, newPath)
      decreases |todo|
    {
      var f :| f in todo;
      next := next + {RenamedFolder(f, oldPath, newPath)};
      todo := todo - {f};
    }
    assert folders - todo == folders;
  }

  method WithAncestors(folders: set<string>, path: string) returns (next: set<string>)
    ensures next == EnsuredFolders(folders, path)
  {
    var ancestors := AncestorPaths(path);
    next := folders;
    var k := 0;
    while k < |ancestors|
      invariant 0 <= k <= |ancestors|
      invariant next == folders + set a | a in ancestors[..k]
    {
      assert ancestors[..k + 1] == ancestors[..k] + [ancestors[k]];
      next := next + {ancestors[k]};
      k := k + 1;
    }
    assert ancestors[..k] == ancestors;
  }

  method RenameMacroList(macros: seq<Macro>, oldPath: string, newPath: string) returns (updated: seq<Macro>, changed: bool)
    ensures updated == RenamedMacros(macros, oldPath, newPath) && changed == AnyUnder(macros, oldPath)
  {
    updated, changed := [], false;
    var k := 0;
    while k < |macros|
      invariant 0 <= k <= |macros| && updated == RenamedMacros(macros, oldPath, newPath)[..k]
      invariant changed <==> exists i :: 0 <= i < k && Under(macros[i], oldPath)
    {
      updated := updated + [RenamedMacro(macros[k], oldPath, newPath)];
      changed := changed || Under(macros[k], oldPath);
      k := k + 1;
    }
  }

  lemma NothingToRename(macros: seq<Macro>, oldPath: string, newPath: string)
    requires !AnyUnder(macros, oldPath)
    ensures RenamedMacros(macros, oldPath, newPath) == macros
  {
  }

  method RemoveMacroList(macros: seq<Macro>, path: string) returns (updated: seq<Macro>, changed: bool)
    ensures updated == RemovedMacros(macros, path) && changed == AnyUnder(macros, path)
  {
    updated, changed := [], false;
    var k := 0;
    while k < |macros|
      invariant 0 <= k <= |macros| && updated == RemovedMacros(macros, path)[..k]
      invariant changed <==> exists i :: 0 <= i < k && Under(macros[i], path)
    {
      updated := updated + [RemovedMacro(macros[k], path)];
      changed := changed || Under(macros[k], path);
      k := k + 1;
    }
  }

  lemma NothingToRemove(macros: seq<Macro>, path: string)
    requires !AnyUnder(macros, path)
    ensures RemovedMacros(macros, path) == macros
  {
  }

  /** Where one explicit folder goes when a folder is removed; its own entry goes nowhere. */
  function RemovedFolder(f: string, path: string): set<string> {
    if !IsDescendantOrSelf(f, path) then {f}
    else if f != path && RemovedPath(f, path).Some? then {RemovedPath(f, path).value}
    else {}
  }

  method RemoveFolderList(folders: set<string>, path: string) returns (next: set<string>)
    ensures next == RemovedFolders(folders, path)
  {
    next := {};
    var todo := folders;
    while todo != {}
      invariant todo <= folders
      invariant next == RemovedFolders(folders - todo, path)
      decreases |todo|
    {
      var f :| f in todo;
      next := next + RemovedFolder(f, path);
      todo := todo - {f};
    }
    assert folders - todo == folders;
  }

  // ---- paths and names ----------------------------------------------------------------

  /** A normal path is its names, and its names are its pieces. */
  lemma NormalSplits(p: string)
    requires Normal(p)
    ensures Folder(Split(p)) && Join(Split(p)) == p && Slashless(Split(p))
  {
    var segments :| Folder(segments) && p == Join(segments);
    SplitJoin(segments);
  }

  lemma UnderByNames(p: string, o: string)
    requires Normal(p) && Normal(o)
    ensures IsDescendantOrSelf(p, o) <==> Split(o) <= Split(p)
  {
    NormalSplits(p);
    NormalSplits(o);
    DescendantIsPrefix(Split(p), Split(o));
  }

  ghost predicate Names(segments: Path) {
    segments != [] && forall i | 0 <= i < |segments| ::
      segments[i] != "" && Trimmed(segments[i]) && '/' !in segments[i] && !Rejected(segments[i])
  }

  /** A path of good names is normal exactly when it is not too long or too deep. */
  lemma NamesNormalize(segments: Path)
    requires Names(segments)
    ensures NormalizeFolderPath(Join(segments)).Some? <==> Folder(segments)
    ensures Folder(segments) ==> NormalizeFolderPath(Join(segments)) == Some(Join(segments)) && Normal(Join(segments))
    ensures Split(Join(segments)) == segments
  {
    SplitJoin(segments);
    TrimAllStays(segments);
    NothingEmpty(segments);
  }

  function RenamedNames(p: Path, o: Path, n: Path): Path
    requires o <= p
  {
    n + p[|o|..]
  }

  lemma RenamedJoin(p: Path, o: Path, n: Path)
    requires Names(p) && Names(o) && Names(n) && o <= p
    ensures Join(o) <= Join(p) && Join(n) + Join(p)[|Join(o)|..] == Join(RenamedNames(p, o, n))
    ensures Names(RenamedNames(p, o, n))
  {
    DescendantIsPrefix(p, o);
    var rest := p[|o|..];
    if rest != [] {
      JoinAppend(n, rest);
      assert Join(n) + ("/" + Join(rest)) == Join(n) + "/" + Join(rest);
    } else {
      assert n + rest == n;
    }
  }

  /** Renaming replaces the leading names. */
  lemma RenamedByNames(p: string, oldPath: string, newPath: string)
    requires Normal(p) && Normal(oldPath) && Normal(newPath) && IsDescendantOrSelf(p, oldPath)
    ensures Split(oldPath) <= Split(p)
    ensures var names := RenamedNames(Split(p), Split(oldPath), Split(newPath));
            Names(names) && RenamedPath(p, oldPath, newPath) == Join(names) && Split(RenamedPath(p, oldPath, newPath)) == names
  {
    NormalSplits(p);
    NormalSplits(oldPath);
    NormalSplits(newPath);
    UnderByNames(p, oldPath);
    RenamedJoin(Split(p), Split(oldPath), Split(newPath));
    NamesNormalize(RenamedNames(Split(p), Split(oldPath), Split(newPath)));
  }

  lemma RenamedIsNormal(p: string, oldPath: string, newPath: string)
    requires Normal(p) && Normal(oldPath) && Normal(newPath) && IsDescendantOrSelf(p, oldPath)
    requires NormalizeFolderPath(RenamedPath(p, oldPath, newPath)).Some?
    ensures Normal(RenamedPath(p, oldPath, newPath))
  {
    RenamedByNames(p, oldPath, newPath);
    NamesNormalize(RenamedNames(Split(p), Split(oldPath), Split(newPath)));
  }

  lemma FolderIsNormal(m: Macro)
    requires FolderOf(m).Some?
    ensures Normal(FolderOf(m).value)
  {
    SanitizeGroupSettles(m[Group].text);
  }

  lemma GroupReadsBack(m: Macro, p: string)
    requires Normal(p)
    ensures FolderOf(m[Group := Str(p)]) == Some(p)
  {
    NormalIsFixed(p);
  }

  // ---- renaming -----------------------------------------------------------------------

  /** An accepted rename moves exactly the macros under the folder, each to its renamed path. */
  lemma RenameMovesDescendants(folders: set<string>, macros: seq<Macro>, oldPath: string, newPath: string, i: nat)
    requires Normal(oldPath) && Normal(newPath) && RenameFits(folders, macros, oldPath, newPath) && i < |macros|
    ensures
      var after := RenamedMacros(macros, oldPath, newPath)[i];
      && FolderOf(after) == (if Under(macros[i], oldPath) then Some(RenamedPath(FolderOf(macros[i]).value, oldPath, newPath))
                             else FolderOf(macros[i]))
      && after - {Group} == macros[i] - {Group}
      && (!Under(macros[i], oldPath) ==> after == macros[i])
  {
    if Under(macros[i], oldPath) {
      FolderIsNormal(macros[i]);
      RenamedIsNormal(FolderOf(macros[i]).value, oldPath, newPath);
      GroupReadsBack(macros[i], RenamedPath(FolderOf(macros[i]).value, oldPath, newPath));
    }
  }

  /** Who is under whom is the same before and after. */
  lemma RenameKeepsDescendants(a: string, d: string, oldPath: string, newPath: string)
    requires Normal(a) && Normal(d) && Normal(oldPath) && Normal(newPath)
    requires IsDescendantOrSelf(a, oldPath) && IsDescendantOrSelf(d, oldPath)
    requires NormalizeFolderPath(RenamedPath(a, oldPath, newPath)).Some? && NormalizeFolderPath(RenamedPath(d, oldPath, newPath)).Some?
    ensures IsDescendantOrSelf(RenamedPath(d, oldPath, newPath), RenamedPath(a, oldPath, newPath)) <==> IsDescendantOrSelf(d, a)
  {
    RenamedByNames(a, oldPath, newPath);
    RenamedByNames(d, oldPath, newPath);
    RenamedIsNormal(a, oldPath, newPath);
    RenamedIsNormal(d, oldPath, newPath);
    UnderByNames(d, a);
    UnderByNames(RenamedPath(d, oldPath, newPath), RenamedPath(a, oldPath, newPath));
    RenamedPrefix(Split(a), Split(d), Split(oldPath), Split(newPath));
  }

  lemma RenamedPrefix(x: Path, y: Path, o: Path, n: Path)
    requires o <= x && o <= y
    ensures RenamedNames(x, o, n) <= RenamedNames(y, o, n) <==> x <= y
  {
    assert x == o + x[|o|..] && y == o + y[|o|..];
    PrefixBehind(o, x[|o|..], y[|o|..]);
    PrefixBehind(n, x[|o|..], y[|o|..]);
  }

  lemma PrefixBehind(head: Path, x: Path, y: Path)
    ensures head + x <= head + y <==> x <= y
  {
    if head + x <= head + y {
      assert x == (head + x)[|head|..] && y == (head + y)[|head|..];
      assert forall i | 0 <= i < |x| :: x[i] == (head + x)[|head| + i] && y[i] == (head + y)[|head| + i];
    }
  }

  ghost predicate AncestorClosed(folders: set<string>) {
    forall f, a | f in folders && a in AncestorPaths(f) :: a in folders
  }

  ghost predicate AllNormal(folders: set<string>) {
    forall f | f in folders :: Normal(f)
  }

  /** The ancestors of a normal path are the normal paths it is under. */
  lemma AncestorsAreAbove(f: string, a: string)
    requires Normal(f)
    ensures a in AncestorPaths(f) <==> Normal(a) && IsDescendantOrSelf(f, a)
  {
    if a in AncestorPaths(f) {
      AncestorIsAbove(f, a);
    }
    if Normal(a) && IsDescendantOrSelf(f, a) {
      NormalSplits(a);
      UnderByNames(f, a);
      assert Split(f)[..|Split(a)|] == Split(a);
      BeginningIsAncestor(f, |Split(a)|);
    }
  }

  lemma AncestorIsAbove(f: string, a: string)
    requires Normal(f) && a in AncestorPaths(f)
    ensures Normal(a) && IsDescendantOrSelf(f, a)
  {
    NormalSplits(f);
    AncestorBeginning(f, a);
    var k: nat :| BeginningOf(f, a, k);
    JoinBeginning(Split(f), k);
    NamesNormalize(Split(f)[..k]);
    UnderByNames(f, a);
  }

  lemma JoinBeginning(p: Path, n: nat)
    requires 0 < n <= |p|
    ensures |Join(p[..n])| <= |Join(p)|
  {
    if n == |p| {
      assert p[..n] == p;
    } else {
      assert p == p[..n] + p[n..];
      JoinAppend(p[..n], p[n..]);
    }
  }

  lemma UnderTransitive(x: string, y: string, z: string)
    requires Normal(x) && Normal(y) && Normal(z) && IsDescendantOrSelf(x, y) && IsDescendantOrSelf(y, z)
    ensures IsDescendantOrSelf(x, z)
  {
    UnderByNames(x, y);
    UnderByNames(y, z);
    UnderByNames(x, z);
  }

  /** A path above a renamed one is above the new name, or the image of a path above the old one. */
  lemma AboveRenamed(f: string, a: string, oldPath: string, newPath: string)
    requires Normal(f) && Normal(oldPath) && Normal(newPath) && IsDescendantOrSelf(f, oldPath)
    requires NormalizeFolderPath(RenamedPath(f, oldPath, newPath)).Some? && a in AncestorPaths(RenamedPath(f, oldPath, newPath))
    ensures || a in AncestorPaths(newPath)
            || exists g :: g in AncestorPaths(f) && IsDescendantOrSelf(g, oldPath) && a == RenamedFolder(g, oldPath, newPath)
  {
    var o, n := Split(oldPath), Split(newPath);
    RenamedByNames(f, oldPath, newPath);
    RenamedIsNormal(f, oldPath, newPath);
    AncestorBeginning(RenamedPath(f, oldPath, newPath), a);
    var k: nat :| BeginningOf(RenamedPath(f, oldPath, newPath), a, k);
    if k <= |n| {
      assert RenamedNames(Split(f), o, n)[..k] == n[..k];
      BeginningIsAncestor(newPath, k);
    } else {
      BelowRenamed(f, a, oldPath, newPath, k);
    }
  }

  /** A path between the new name and a renamed path is the image of one between the old name and it. */
  lemma BelowRenamed(f: string, a: string, oldPath: string, newPath: string, k: nat)
    requires Normal(f) && Normal(oldPath) && Normal(newPath) && IsDescendantOrSelf(f, oldPath)
    requires Split(oldPath) <= Split(f) && Split(RenamedPath(f, oldPath, newPath)) == RenamedNames(Split(f), Split(oldPath), Split(newPath))
    requires |Split(newPath)| < k && BeginningOf(RenamedPath(f, oldPath, newPath), a, k)
    ensures exists g :: g in AncestorPaths(f) && IsDescendantOrSelf(g, oldPath) && a == RenamedFolder(g, oldPath, newPath)
  {
    var o, n := Split(oldPath), Split(newPath);
    var cut: nat := |o| + (k - |n|);
    var g := Join(Split(f)[..cut]);
    BeginningIsNormal(f, cut);
    RenamedBeginning(Split(f), o, n, k);
    RenamedAt(g, oldPath, newPath, RenamedNames(Split(f), o, n)[..k]);
    assert g in AncestorPaths(f) && a == RenamedFolder(g, oldPath, newPath);
  }

  /** Where a path under the old name goes, by its names. */
  lemma RenamedAt(g: string, oldPath: string, newPath: string, names: Path)
    requires Normal(g) && Normal(oldPath) && Normal(newPath) && Split(oldPath) <= Split(g)
    requires names == RenamedNames(Split(g), Split(oldPath), Split(newPath))
    ensures IsDescendantOrSelf(g, oldPath) && RenamedFolder(g, oldPath, newPath) == Join(names)
  {
    UnderByNames(g, oldPath);
    RenamedByNames(g, oldPath, newPath);
  }

  /** A beginning of a normal path is a normal path above it. */
  lemma BeginningIsNormal(f: string, cut: nat)
    requires Normal(f) && 0 < cut <= |Split(f)|
    ensures var g := Join(Split(f)[..cut]); g in AncestorPaths(f) && Normal(g) && Split(g) == Split(f)[..cut]
  {
    NormalSplits(f);
    BeginningIsAncestor(f, cut);
    JoinBeginning(Split(f), cut);
    NamesNormalize(Split(f)[..cut]);
  }

  lemma RenamedBeginning(names: Path, o: Path, n: Path, k: nat)
    requires o <= names && |n| <= k <= |RenamedNames(names, o, n)|
    ensures RenamedNames(names, o, n)[..k] == RenamedNames(names[..|o| + (k - |n|)], o, n)
  {
  }

  predicate BeginningOf(f: string, a: string, k: nat) {
    0 < k <= |Split(f)| && a == Join(Split(f)[..k])
  }

  lemma AncestorBeginning(f: string, a: string)
    requires a in AncestorPaths(f)
    ensures exists k: nat :: BeginningOf(f, a, k)
  {
    var i :| 0 <= i < |AncestorPaths(f)| && AncestorPaths(f)[i] == a;
    assert BeginningOf(f, a, i + 1);
  }

  lemma BeginningIsAncestor(f: string, k: nat)
    requires 0 < k <= |Split(f)|
    ensures Join(Split(f)[..k]) in AncestorPaths(f)
  {
    assert AncestorPaths(f)[k - 1] == Join(Split(f)[..k]);
  }

  /** A folder list closed under ancestors stays closed. */
  lemma RenameKeepsClosure(folders: set<string>, macros: seq<Macro>, oldPath: string, newPath: string)
    requires AllNormal(folders) && AncestorClosed(folders) && Normal(oldPath) && Normal(newPath)
    requires RenameFits(folders, macros, oldPath, newPath)
    ensures AncestorClosed(RenamedFolders(folders, oldPath, newPath)) && AllNormal(RenamedFolders(folders, oldPath, newPath))
  {
    var after := RenamedFolders(folders, oldPath, newPath);
    forall x | x in after ensures Normal(x) {
      if x in AncestorPaths(newPath) {
        AncestorsAreAbove(newPath, x);
      } else {
        var f :| f in folders && x == RenamedFolder(f, oldPath, newPath);
        if IsDescendantOrSelf(f, oldPath) {
          RenamedIsNormal(f, oldPath, newPath);
        }
      }
    }
    forall x, a | x in after && a in AncestorPaths(x) ensures a in after {
      if x in AncestorPaths(newPath) {
        AncestorsAreAbove(newPath, x);
        AncestorsAreAbove(x, a);
        UnderTransitive(newPath, x, a);
        AncestorsAreAbove(newPath, a);
      } else {
        var f :| f in folders && x == RenamedFolder(f, oldPath, newPath);
        if IsDescendantOrSelf(f, oldPath) {
          AboveRenamed(f, a, oldPath, newPath);
          if a !in AncestorPaths(newPath) {
            var g :| g in AncestorPaths(f) && IsDescendantOrSelf(g, oldPath) && a == RenamedFolder(g, oldPath, newPath);
            assert g in folders;
          }
        } else {
          AncestorsAreAbove(f, a);
          if IsDescendantOrSelf(a, oldPath) {
            UnderTransitive(f, a, oldPath);
          }
          assert a in folders && a == RenamedFolder(a, oldPath, newPath);
        }
      }
    }
  }

  /** Creating a folder creates its ancestors, and takes nothing away. */
  lemma EnsuringKeepsClosure(folders: set<string>, path: string)
    requires AncestorClosed(folders) && AllNormal(folders) && Normal(path)
    ensures AncestorClosed(EnsuredFolders(folders, path)) && path in EnsuredFolders(folders, path)
  {
    var after := EnsuredFolders(folders, path);
    forall x, a | x in after && a in AncestorPaths(x) ensures a in after {
      if x in AncestorPaths(path) {
        AncestorsAreAbove(path, x);
        AncestorsAreAbove(x, a);
        UnderTransitive(path, x, a);
        AncestorsAreAbove(path, a);
      }
    }
    AncestorsAreAbove(path, path);
  }

  lemma RenamedPathBack(p: string, oldPath: string, newPath: string)
    requires IsDescendantOrSelf(p, oldPath) && IsDescendantOrSelf(RenamedPath(p, oldPath, newPath), newPath)
    ensures RenamedPath(RenamedPath(p, oldPath, newPath), newPath, oldPath) == p
  {
    var rest := p[|oldPath|..];
    assert p == oldPath + rest;
    assert (newPath + rest)[|newPath|..] == rest;
  }

  /** A folder path of good names is trimmed as it is, whether or not it is too long. */
  lemma RenamedIsTrimmed(p: string, oldPath: string, newPath: string)
    requires Normal(p) && Normal(oldPath) && Normal(newPath) && IsDescendantOrSelf(p, oldPath)
    ensures SanitizeGroup(RenamedPath(p, oldPath, newPath)) == NormalizeFolderPath(RenamedPath(p, oldPath, newPath))
  {
    RenamedByNames(p, oldPath, newPath);
    JoinEnds(RenamedNames(Split(p), Split(oldPath), Split(newPath)));
    TrimmedStays(RenamedPath(p, oldPath, newPath));
  }

  lemma RenamedMoves(p: string, oldPath: string, newPath: string)
    requires IsDescendantOrSelf(p, oldPath) && RenamedPath(p, oldPath, newPath) == p
    ensures oldPath == newPath
  {
    var rest := p[|oldPath|..];
    assert p == oldPath + rest == newPath + rest;
    assert oldPath == p[..|p| - |rest|] && newPath == p[..|p| - |rest|];
  }

  predicate Fits(m: Macro, oldPath: string, newPath: string) {
    Under(m, oldPath) ==> NormalizeFolderPath(RenamedPath(FolderOf(m).value, oldPath, newPath)).Some?
  }

  /** Where the rename is to take a macro. */
  function Destination(m: Macro, oldPath: string, newPath: string): Option<string> {
    if Under(m, oldPath) then Some(RenamedPath(FolderOf(m).value, oldPath, newPath)) else FolderOf(m)
  }

  /** Every macro is where the rename is to take it. */
  ghost predicate WhollyRenamed(before: seq<Macro>, after: seq<Macro>, oldPath: string, newPath: string) {
    && |after| == |before|
    && forall i | 0 <= i < |before| :: FolderOf(after[i]) == Destination(before[i], oldPath, newPath)
  }

  /** A rewritten macro is where it is to be if the new path is one the readers keep, and else in no folder. */
  lemma RewrittenFolder(m: Macro, oldPath: string, newPath: string)
    requires Normal(oldPath) && Normal(newPath)
    ensures FolderOf(RenamedMacro(m, oldPath, newPath)) == if Fits(m, oldPath, newPath) then Destination(m, oldPath, newPath) else None
  {
    if Under(m, oldPath) {
      var p := FolderOf(m).value;
      FolderIsNormal(m);
      RenamedIsTrimmed(p, oldPath, newPath);
      if Fits(m, oldPath, newPath) {
        RenamedIsNormal(p, oldPath, newPath);
        GroupReadsBack(m, RenamedPath(p, oldPath, newPath));
      }
    }
  }

  /**
   Once the folders are saved, the rename is whole exactly when the save of the macros is
   accepted, or there is none to rewrite, and the new path of every macro inside by then is one
   the readers keep. What was checked before the first save does not ensure it.
   */
  lemma RenameWholeExactly(latest: seq<Macro>, oldPath: string, newPath: string, saved: bool)
    requires Normal(oldPath) && Normal(newPath) && oldPath != newPath
    ensures WhollyRenamed(latest, MacrosAfter(latest, oldPath, newPath, saved), oldPath, newPath)
            <==> (saved || !AnyUnder(latest, oldPath)) && forall i | 0 <= i < |latest| :: Fits(latest[i], oldPath, newPath)
  {
    var after := MacrosAfter(latest, oldPath, newPath, saved);
    forall i | 0 <= i < |latest|
      ensures FolderOf(RenamedMacro(latest[i], oldPath, newPath))
           == if Fits(latest[i], oldPath, newPath) then Destination(latest[i], oldPath, newPath) else None
    {
      RewrittenFolder(latest[i], oldPath, newPath);
    }
    if saved || !AnyUnder(latest, oldPath) {
      assert forall i | 0 <= i < |latest| :: after[i] == RenamedMacro(latest[i], oldPath, newPath);
    } else {
      var i :| 0 <= i < |latest| && Under(latest[i], oldPath);
      if FolderOf(latest[i]) == Destination(latest[i], oldPath, newPath) {
        RenamedMoves(FolderOf(latest[i]).value, oldPath, newPath);
      }
      assert after[i] == latest[i];
    }
  }

  /** So it is half done when a macro is in "a", "a" becomes "b", and the second save is rejected. */
  lemma RenameHalfDone(m: Macro)
    requires FolderOf(m) == Some("a")
    ensures MacrosAfter([m], "a", "b", false) == [m] && !WhollyRenamed([m], [m], "a", "b")
  {
    assert Folder(["a"]) && Join(["a"]) == "a" && Folder(["b"]) && Join(["b"]) == "b";
    assert Under([m][0], "a");
    assert "a" != "b" by {
      assert "a"[0] != "b"[0];
    }
    RenameWholeExactly([m], "a", "b", false);
  }

  /** Where nothing else runs, what was checked is what is rewritten. */
  lemma UndisturbedRenameIsWhole(folders: set<string>, macros: seq<Macro>, oldPath: string, newPath: string)
    requires Normal(oldPath) && Normal(newPath) && RenameFits(folders, macros, oldPath, newPath)
    ensures WhollyRenamed(macros, MacrosAfter(macros, oldPath, newPath, true), oldPath, newPath)
  {
    forall i | 0 <= i < |macros| ensures FolderOf(RenamedMacro(macros[i], oldPath, newPath)) == Destination(macros[i], oldPath, newPath) {
      RewrittenFolder(macros[i], oldPath, newPath);
    }
  }

  // ---- and back -----------------------------------------------------------------------

  /** Nothing lies under a path, neither a listed folder nor a macro. */
  predicate Unused(folders: set<string>, macros: seq<Macro>, path: string) {
    (forall f | f in folders :: !IsDescendantOrSelf(f, path)) && !AnyUnder(macros, path)
  }

  lemma RenamedLiesUnder(p: string, oldPath: string, newPath: string)
    requires Normal(p) && Normal(oldPath) && Normal(newPath) && IsDescendantOrSelf(p, oldPath)
    requires NormalizeFolderPath(RenamedPath(p, oldPath, newPath)).Some?
    ensures IsDescendantOrSelf(RenamedPath(p, oldPath, newPath), newPath)
    ensures RenamedPath(RenamedPath(p, oldPath, newPath), newPath, oldPath) == p
  {
    RenamedIsNormal(p, oldPath, newPath);
    RenamedByNames(p, oldPath, newPath);
    UnderByNames(RenamedPath(p, oldPath, newPath), newPath);
    RenamedPathBack(p, oldPath, newPath);
  }

  lemma MacroBack(m: Macro, oldPath: string, newPath: string)
    requires Normal(oldPath) && Normal(newPath) && Fits(m, oldPath, newPath) && !Under(m, newPath)
    ensures var there := RenamedMacro(m, oldPath, newPath);
            Fits(there, newPath, oldPath) && FolderOf(RenamedMacro(there, newPath, oldPath)) == FolderOf(m)
  {
    RewrittenFolder(m, oldPath, newPath);
    var there := RenamedMacro(m, oldPath, newPath);
    if Under(m, oldPath) {
      var p := FolderOf(m).value;
      FolderIsNormal(m);
      RenamedLiesUnder(p, oldPath, newPath);
      NormalizesToItself(p);
    }
    RewrittenFolder(there, newPath, oldPath);
  }

  lemma NormalizesToItself(p: string)
    requires Normal(p)
    ensures NormalizeFolderPath(p) == Some(p)
  {
    var segments :| Folder(segments) && p == Join(segments);
    NormalStays(segments);
  }

  lemma MutuallyUnder(x: string, y: string)
    requires Normal(x) && Normal(y) && IsDescendantOrSelf(x, y) && IsDescendantOrSelf(y, x)
    ensures x == y
  {
    UnderByNames(x, y);
    UnderByNames(y, x);
    NormalSplits(x);
    NormalSplits(y);
    assert Split(x) == Split(y);
  }

  /** Of the listed folders after a rename, those under the new name are the renamed ones and the name itself. */
  lemma FoldersUnderNew(folders: set<string>, oldPath: string, newPath: string, x: string)
    requires AllNormal(folders) && Normal(oldPath) && Normal(newPath)
    requires forall f | f in folders :: !IsDescendantOrSelf(f, newPath)
    requires x in RenamedFolders(folders, oldPath, newPath) && IsDescendantOrSelf(x, newPath)
    ensures x == newPath || exists f :: f in folders && IsDescendantOrSelf(f, oldPath) && x == RenamedPath(f, oldPath, newPath)
  {
    if x in AncestorPaths(newPath) {
      AncestorsAreAbove(newPath, x);
      MutuallyUnder(x, newPath);
    } else {
      var f :| f in folders && x == RenamedFolder(f, oldPath, newPath);
    }
  }

  lemma FolderBack(folders: set<string>, macros: seq<Macro>, oldPath: string, newPath: string, x: string)
    requires AllNormal(folders) && Normal(oldPath) && Normal(newPath) && RenameFits(folders, macros, oldPath, newPath)
    requires Unused(folders, macros, newPath)
    requires x in RenamedFolders(folders, oldPath, newPath) && IsDescendantOrSelf(x, newPath)
    ensures NormalizeFolderPath(RenamedPath(x, newPath, oldPath)).Some?
    ensures RenamedPath(x, newPath, oldPath) == oldPath || RenamedPath(x, newPath, oldPath) in folders
  {
    FoldersUnderNew(folders, oldPath, newPath, x);
    if x == newPath {
      assert x[|newPath|..] == "" && oldPath + "" == oldPath;
      NormalizesToItself(oldPath);
    } else {
      var f :| f in folders && IsDescendantOrSelf(f, oldPath) && x == RenamedPath(f, oldPath, newPath);
      RenamedLiesUnder(f, oldPath, newPath);
      NormalizesToItself(f);
    }
  }

  /**
   Renaming to a name nothing uses can be taken back: the way back is accepted, it gives every
   macro its folder back, and the list is what it was, with the folders above the two names.
   */
  lemma RenameAndBack(folders: set<string>, macros: seq<Macro>, oldPath: string, newPath: string)
    requires Normal(oldPath) && Normal(newPath) && AllNormal(folders) && RenameFits(folders, macros, oldPath, newPath)
    requires Unused(folders, macros, newPath)
    ensures
      var there, listed := RenamedMacros(macros, oldPath, newPath), RenamedFolders(folders, oldPath, newPath);
      && RenameFits(listed, there, newPath, oldPath)
      && (forall i | 0 <= i < |macros| :: FolderOf(RenamedMacros(there, newPath, oldPath)[i]) == FolderOf(macros[i]))
      && RenamedFolders(listed, newPath, oldPath)
         == folders + (set a | a in AncestorPaths(oldPath)) + ((set a | a in AncestorPaths(newPath)) - {newPath})
  {
    var there, listed := RenamedMacros(macros, oldPath, newPath), RenamedFolders(folders, oldPath, newPath);
    forall i | 0 <= i < |macros|
      ensures Fits(there[i], newPath, oldPath)
      ensures FolderOf(RenamedMacros(there, newPath, oldPath)[i]) == FolderOf(macros[i])
    {
      MacroBack(macros[i], oldPath, newPath);
    }
    forall x | x in listed && IsDescendantOrSelf(x, newPath)
      ensures NormalizeFolderPath(RenamedPath(x, newPath, oldPath)).Some?
    {
      FolderBack(folders, macros, oldPath, newPath, x);
    }
    FoldersAndBack(folders, macros, oldPath, newPath);
  }

  lemma FoldersAndBack(folders: set<string>, macros: seq<Macro>, oldPath: string, newPath: string)
    requires Normal(oldPath) && Normal(newPath) && AllNormal(folders) && RenameFits(folders, macros, oldPath, newPath)
    requires Unused(folders, macros, newPath)
    ensures
      RenamedFolders(RenamedFolders(folders, oldPath, newPath), newPath, oldPath)
      == folders + (set a | a in AncestorPaths(oldPath)) + ((set a | a in AncestorPaths(newPath)) - {newPath})
  {
    var listed := RenamedFolders(folders, oldPath, newPath);
    var back := RenamedFolders(listed, newPath, oldPath);
    var all := folders + (set a | a in AncestorPaths(oldPath)) + ((set a | a in AncestorPaths(newPath)) - {newPath});
    AncestorsAreAbove(oldPath, oldPath);
    forall x | x in back ensures x in all {
      if x !in AncestorPaths(oldPath) {
        var y :| y in listed && x == RenamedFolder(y, newPath, oldPath);
        if IsDescendantOrSelf(y, newPath) {
          FolderBack(folders, macros, oldPath, newPath, y);
        } else if y !in AncestorPaths(newPath) {
          var f :| f in folders && y == RenamedFolder(f, oldPath, newPath);
          if IsDescendantOrSelf(f, oldPath) {
            RenamedLiesUnder(f, oldPath, newPath);
          }
        }
      }
    }
    forall f | f in folders ensures f in back {
      var y := RenamedFolder(f, oldPath, newPath);
      assert y in listed;
      if IsDescendantOrSelf(f, oldPath) {
        RenamedLiesUnder(f, oldPath, newPath);
      }
      assert RenamedFolder(y, newPath, oldPath) == f;
    }
    forall a | a in AncestorPaths(newPath) && a != newPath ensures a in back {
      AncestorsAreAbove(newPath, a);
      if IsDescendantOrSelf(a, newPath) {
        MutuallyUnder(a, newPath);
      }
      assert a in listed && RenamedFolder(a, newPath, oldPath) == a;
    }
  }

  // ---- removing -----------------------------------------------------------------------

  function WithoutName(p: Path, n: nat): Path
    requires n < |p|
  {
    p[..n] + p[n + 1..]
  }

  lemma WithoutNameShorter(p: Path, n: nat)
    requires n < |p| && |p| > 1
    ensures |Join(WithoutName(p, n))| <= |Join(p)|
  {
    var a, b := p[..n], p[n + 1..];
    assert p == a + ([p[n]] + b);
    if a != [] {
      JoinAppend(a, [p[n]] + b);
      if b != [] {
        JoinAppend(a, b);
        JoinAppend([p[n]], b);
      } else {
        assert a + b == a;
      }
    } else {
      assert a + b == b && p == [p[n]] + b;
      JoinAppend([p[n]], b);
    }
  }

  /** What follows a folder's path, put after its parent's. */
  lemma AfterParent(front: Path, rest: Path)
    requires front != []
    ensures Join(front) + (if rest == [] then "" else "/" + Join(rest)) == Join(front + rest)
  {
    if rest == [] {
      assert front + rest == front;
    } else {
      JoinAppend(front, rest);
      assert Join(front) + ("/" + Join(rest)) == Join(front) + "/" + Join(rest);
    }
  }

  lemma WithoutNameParts(p: Path, s: Path)
    requires s != [] && s <= p
    ensures WithoutName(p, |s| - 1) == Front(s) + p[|s|..]
  {
  }

  /** A path under a removed folder loses that one name, and keeps everything before and after it. */
  lemma RemovedByNames(p: string, path: string)
    requires Normal(p) && Normal(path) && IsDescendantOrSelf(p, path)
    ensures Split(path) <= Split(p)
    ensures
      var names := WithoutName(Split(p), |Split(path)| - 1);
      if names == [] then RemovedPath(p, path) == None
      else RemovedPath(p, path) == Some(Join(names)) && Normal(Join(names)) && Split(Join(names)) == names
  {
    NormalSplits(p);
    NormalSplits(path);
    UnderByNames(p, path);
    var s, names := Split(path), Split(p);
    ParentDropsLast(s);
    DescendantIsPrefix(names, s);
    WithoutNameParts(names, s);
    RemovedNormal(names, |s| - 1);
    var rest := names[|s|..];
    assert p[|path|..] == if rest == [] then "" else "/" + Join(rest);
    if |s| == 1 {
      assert Front(s) + rest == rest;
    } else {
      AfterParent(Front(s), rest);
    }
  }

  lemma RemovedNormal(p: Path, n: nat)
    requires Folder(p) && n < |p|
    ensures var names := WithoutName(p, n);
            names != [] ==> Normal(Join(names)) && Split(Join(names)) == names
  {
    if |p| > 1 {
      WithoutNameShorter(p, n);
      NamesNormalize(WithoutName(p, n));
    }
  }

  /**
   Removing a folder keeps every macro, in order and otherwise unchanged; one inside loses
   exactly one level of its path, with the rest of it kept.
   */
  lemma RemovingLiftsByOne(macros: seq<Macro>, path: string, i: nat)
    requires Normal(path) && i < |macros|
    ensures |RemovedMacros(macros, path)| == |macros|
    ensures
      var after := RemovedMacros(macros, path)[i];
      && after - {Group} == macros[i] - {Group}
      && (!Under(macros[i], path) ==> after == macros[i])
      && (Under(macros[i], path) ==>
            var before := Split(FolderOf(macros[i]).value);
            && Split(path) <= before
            && var names := WithoutName(before, |Split(path)| - 1);
               FolderOf(after) == if names == [] then None else Some(Join(names)))
  {
    if Under(macros[i], path) {
      FolderIsNormal(macros[i]);
      RemovedByNames(FolderOf(macros[i]).value, path);
      var p := RemovedPath(FolderOf(macros[i]).value, path);
      if p.Some? {
        GroupReadsBack(macros[i], p.value);
      }
    }
  }

  /** A beginning of the lifted names is one of the folder's parent's, or it is lifted itself. */
  lemma BeginningOfLifted(names: Path, s: Path, k: nat)
    requires s != [] && s <= names && 0 < k <= |WithoutName(names, |s| - 1)|
    ensures k < |s| ==> WithoutName(names, |s| - 1)[..k] == s[..k]
    ensures k >= |s| ==> s <= names[..k + 1] && WithoutName(names, |s| - 1)[..k] == WithoutName(names[..k + 1], |s| - 1)
  {
    WithoutNameParts(names, s);
    if k >= |s| {
      assert s == names[..k + 1][..|s|];
      WithoutNameParts(names[..k + 1], s);
    }
  }

  /** The path was above the removed folder, or lay strictly inside it and is lifted. */
  ghost predicate FromAbove(f: string, path: string, a: string) {
    || (a in AncestorPaths(f) && !IsDescendantOrSelf(a, path))
    || exists g :: g in AncestorPaths(f) && g != path && IsDescendantOrSelf(g, path) && RemovedPath(g, path) == Some(a)
  }

  lemma LiftedBeginningIsAbove(f: string, path: string, k: nat)
    requires Normal(f) && Normal(path) && Split(path) != [] && Split(path) <= Split(f)
    requires 0 < k <= |WithoutName(Split(f), |Split(path)| - 1)|
    ensures FromAbove(f, path, Join(WithoutName(Split(f), |Split(path)| - 1)[..k]))
  {
    BeginningOfLifted(Split(f), Split(path), k);
    if k < |Split(path)| {
      ShortBeginning(f, path, k);
    } else {
      BeginningIsNormal(f, k + 1);
      LiftedBeginning(Join(Split(f)[..k + 1]), path);
    }
  }

  /** A folder above a lifted one was above the removed folder, or is itself lifted. */
  lemma AboveLifted(f: string, path: string, x: string, a: string)
    requires Normal(f) && Normal(path) && IsDescendantOrSelf(f, path) && RemovedPath(f, path) == Some(x) && a in AncestorPaths(x)
    ensures FromAbove(f, path, a)
  {
    NormalSplits(path);
    RemovedByNames(f, path);
    AncestorBeginning(x, a);
    var k: nat :| BeginningOf(x, a, k);
    LiftedBeginningIsAbove(f, path, k);
  }

  /** A beginning shorter than the removed folder's path is above that folder. */
  lemma ShortBeginning(f: string, path: string, k: nat)
    requires Normal(f) && Normal(path) && Split(path) <= Split(f) && 0 < k < |Split(path)|
    ensures var a := Join(Split(path)[..k]); a in AncestorPaths(f) && !IsDescendantOrSelf(a, path)
  {
    assert Split(f)[..k] == Split(path)[..k];
    BeginningIsNormal(f, k);
    UnderByNames(Join(Split(path)[..k]), path);
  }

  /** What lies strictly inside a removed folder has a place afterwards. */
  lemma LiftedBeginning(g: string, path: string)
    requires Normal(g) && Normal(path) && Split(path) <= Split(g) && |Split(path)| < |Split(g)|
    ensures g != path && IsDescendantOrSelf(g, path)
    ensures RemovedPath(g, path) == Some(Join(WithoutName(Split(g), |Split(path)| - 1)))
  {
    UnderByNames(g, path);
    RemovedByNames(g, path);
    assert |WithoutName(Split(g), |Split(path)| - 1)| == |Split(g)| - 1;
  }

  /** Removing a folder keeps an ancestor-closed list of normal paths so. */
  lemma RemovalKeepsClosure(folders: set<string>, path: string)
    requires AllNormal(folders) && AncestorClosed(folders) && Normal(path)
    ensures AllNormal(RemovedFolders(folders, path)) && AncestorClosed(RemovedFolders(folders, path))
  {
    var after := RemovedFolders(folders, path);
    forall x | x in after ensures Normal(x) {
      var f :| f in folders && x in RemovedFolder(f, path);
      if IsDescendantOrSelf(f, path) {
        RemovedByNames(f, path);
      }
    }
    forall x, a | x in after && a in AncestorPaths(x) ensures a in after {
      var f :| f in folders && x in RemovedFolder(f, path);
      AboveRemoved(folders, path, f, x, a);
    }
  }

  lemma AboveRemoved(folders: set<string>, path: string, f: string, x: string, a: string)
    requires AllNormal(folders) && AncestorClosed(folders) && Normal(path)
    requires f in folders && x in RemovedFolder(f, path) && a in AncestorPaths(x)
    ensures a in RemovedFolders(folders, path)
  {
    if IsDescendantOrSelf(f, path) {
      AboveLifted(f, path, x, a);
      if a in AncestorPaths(f) && !IsDescendantOrSelf(a, path) {
        assert a in folders && a in RemovedFolder(a, path);
      } else {
        var g :| g in AncestorPaths(f) && g != path && IsDescendantOrSelf(g, path) && RemovedPath(g, path) == Some(a);
        assert g in folders && a in RemovedFolder(g, path);
      }
    } else {
      AncestorsAreAbove(f, a);
      if IsDescendantOrSelf(a, path) {
        UnderTransitive(f, a, path);
      }
      assert a in folders && a in RemovedFolder(a, path);
    }
  }

  function LastName(path: string): string {
    Split(path)[|Split(path)| - 1]
  }

  /** Names with one left out still begin with all the names of the folder exactly when the next repeats its last. */
  lemma RepeatsLast(before: Path, s: Path)
    requires s != [] && s <= before
    ensures s <= WithoutName(before, |s| - 1) <==> s + [s[|s| - 1]] <= before
  {
    var after := WithoutName(before, |s| - 1);
    WithoutNameParts(before, s);
    if s <= after {
      assert after[|s| - 1] == before[|s|];
      assert s[|s| - 1] == after[|s| - 1];
    }
    if s + [s[|s| - 1]] <= before {
      assert before[|s|] == (s + [s[|s| - 1]])[|s|];
      assert forall i | 0 <= i < |s| :: after[i] == s[i];
    }
  }

  /**
   A macro of a removed folder is in a folder of that name again exactly when it was in a
   subfolder named as the folder itself.
   */
  lemma ReappearsExactly(m: Macro, path: string)
    requires Normal(path)
    ensures Under(RemovedMacro(m, path), path) <==> Under(m, path + "/" + LastName(path))
  {
    if FolderOf(m).Some? {
      FolderIsNormal(m);
      UnderDoubled(FolderOf(m).value, path);
      if Under(m, path) {
        RemovedReappears(m, path);
      }
    }
  }

  /** A path is under a folder's namesake inside it exactly when its names go on with the folder's last. */
  lemma UnderDoubled(p: string, path: string)
    requires Normal(p) && Normal(path)
    ensures IsDescendantOrSelf(p, path + "/" + LastName(path)) <==> Split(path) + [LastName(path)] <= Split(p)
    ensures Split(path) + [LastName(path)] <= Split(p) ==> IsDescendantOrSelf(p, path)
  {
    NormalSplits(p);
    NormalSplits(path);
    var s := Split(path);
    var doubled := s + [LastName(path)];
    JoinAppend(s, [LastName(path)]);
    DescendantIsPrefix(Split(p), doubled);
    UnderByNames(p, path);
    assert doubled <= Split(p) ==> s == doubled[..|s|] == Split(p)[..|s|];
  }

  lemma RemovedReappears(m: Macro, path: string)
    requires Normal(path) && Under(m, path)
    ensures Under(RemovedMacro(m, path), path) <==> Split(path) + [LastName(path)] <= Split(FolderOf(m).value)
  {
    var s, b := Split(path), Split(FolderOf(m).value);
    FolderIsNormal(m);
    NormalSplits(FolderOf(m).value);
    RemovingLiftsByOne([m], path, 0);
    assert RemovedMacros([m], path)[0] == RemovedMacro(m, path);
    RepeatsLast(b, s);
    var names := WithoutName(b, |s| - 1);
    if names != [] {
      RemovedNormal(b, |s| - 1);
      UnderByNames(Join(names), path);
    }
  }

  /** Nothing remains under a removed folder's name exactly when nothing lay in a subfolder named as the folder itself. */
  lemma RemovedNameMayReappear(macros: seq<Macro>, path: string)
    requires Normal(path)
    ensures !AnyUnder(RemovedMacros(macros, path), path) <==> !AnyUnder(macros, path + "/" + LastName(path))
  {
    var after := RemovedMacros(macros, path);
    forall i | 0 <= i < |macros| ensures Under(after[i], path) <==> Under(macros[i], path + "/" + LastName(path)) {
      ReappearsExactly(macros[i], path);
    }
    if i :| 0 <= i < |macros| && Under(macros[i], path + "/" + LastName(path)) {
      assert Under(after[i], path);
    }
  }

  /** So it is with "a" and a macro of "a/a". */
  lemma RemovedNameReappears(m: Macro)
    requires FolderOf(m) == Some("a/a")
    ensures FolderOf(RemovedMacro(m, "a")) == Some("a")
  {
    NoSlash("a");
    SlashedPrefix("a/a", "a", "a");
    assert "a/a"[|"a"|..] == "/a" && "/a"[1..] == "a";
    assert RemovedPath("a/a", "a") == Some("a");
    assert Folder(["a"]) && Join(["a"]) == "a";
    GroupReadsBack(m, "a");
  }

  // ---- what the folder list becomes ---------------------------------------------------

  /** Creating a folder adds it and the folders above it, and no other. */
  lemma EnsuredExactly(folders: set<string>, path: string, x: string)
    requires Normal(path)
    ensures x in EnsuredFolders(folders, path) <==> x in folders || (Normal(x) && IsDescendantOrSelf(path, x))
  {
    AncestorsAreAbove(path, x);
  }

  /** The path of a folder inside the old one, with the new one's names in place of the old one's. */
  ghost predicate TakenAlong(f: string, oldPath: string, newPath: string, x: string) {
    IsDescendantOrSelf(f, oldPath) && Split(oldPath) <= Split(f) && x == Join(Split(newPath) + Split(f)[|Split(oldPath)|..])
  }

  /** A rename keeps the folders elsewhere, takes along those inside, and adds the new one and what is above it. */
  lemma RenamedFoldersExactly(folders: set<string>, oldPath: string, newPath: string, x: string)
    requires AllNormal(folders) && Normal(oldPath) && Normal(newPath)
    ensures
      x in RenamedFolders(folders, oldPath, newPath) <==>
        || (x in folders && !IsDescendantOrSelf(x, oldPath))
        || (exists f :: f in folders && TakenAlong(f, oldPath, newPath, x))
        || (Normal(x) && IsDescendantOrSelf(newPath, x))
  {
    AncestorsAreAbove(newPath, x);
    forall f | f in folders && IsDescendantOrSelf(f, oldPath)
      ensures RenamedFolder(f, oldPath, newPath) == x <==> TakenAlong(f, oldPath, newPath, x)
    {
      RenamedByNames(f, oldPath, newPath);
    }
    if f :| f in folders && TakenAlong(f, oldPath, newPath, x) {
      assert RenamedFolder(f, oldPath, newPath) == x;
    }
    if x in folders && !IsDescendantOrSelf(x, oldPath) {
      assert RenamedFolder(x, oldPath, newPath) == x;
    }
  }

  /** The path of a folder strictly inside the removed one, with that one level left out. */
  ghost predicate LiftedTo(f: string, path: string, x: string) {
    && IsDescendantOrSelf(f, path) && f != path && Split(path) != [] && Split(path) <= Split(f)
    && x == Join(WithoutName(Split(f), |Split(path)| - 1))
  }

  /** A removal keeps the folders elsewhere, lifts those inside by one level, and drops the folder itself. */
  lemma RemovedFoldersExactly(folders: set<string>, path: string, x: string)
    requires AllNormal(folders) && Normal(path)
    ensures
      x in RemovedFolders(folders, path) <==>
        || (x in folders && !IsDescendantOrSelf(x, path))
        || exists f :: f in folders && LiftedTo(f, path, x)
  {
    NormalSplits(path);
    forall f | f in folders && IsDescendantOrSelf(f, path) ensures x in RemovedFolder(f, path) <==> LiftedTo(f, path, x) {
      InsideLifted(f, path);
    }
    if f :| f in folders && LiftedTo(f, path, x) {
      assert x in RemovedFolder(f, path);
    }
    if x in folders && !IsDescendantOrSelf(x, path) {
      assert x in RemovedFolder(x, path);
    }
  }

  lemma InsideLifted(f: string, path: string)
    requires Normal(f) && Normal(path) && IsDescendantOrSelf(f, path)
    ensures Split(path) != [] && Split(path) <= Split(f)
    ensures f != path ==> RemovedPath(f, path) == Some(Join(WithoutName(Split(f), |Split(path)| - 1)))
  {
    NormalSplits(path);
    NormalSplits(f);
    RemovedByNames(f, path);
    if Split(f) == Split(path) {
      assert f == path;
    }
  }

  /** The renamed path is short and shallow enough for the readers to keep it. */
  predicate PathFits(p: string, oldPath: string, newPath: string)
    requires Split(oldPath) <= Split(p)
  {
    var names := Split(newPath) + Split(p)[|Split(oldPath)|..];
    |names| <= MAX_FOLDER_DEPTH && |Join(names)| <= MAX_FOLDER_PATH_LENGTH
  }

  /** A rename is refused exactly when the new path of some folder or macro inside would be too long or too deep. */
  lemma RefusedExactlyWhenTooLong(folders: set<string>, macros: seq<Macro>, oldPath: string, newPath: string)
    requires AllNormal(folders) && Normal(oldPath) && Normal(newPath)
    ensures
      !RenameFits(folders, macros, oldPath, newPath) <==>
        || (exists f :: f in folders && IsDescendantOrSelf(f, oldPath) && Split(oldPath) <= Split(f) && !PathFits(f, oldPath, newPath))
        || exists i :: 0 <= i < |macros| && Under(macros[i], oldPath) && Split(oldPath) <= Split(FolderOf(macros[i]).value)
             && !PathFits(FolderOf(macros[i]).value, oldPath, newPath)
  {
    forall f | f in folders && IsDescendantOrSelf(f, oldPath)
      ensures Split(oldPath) <= Split(f) && (NormalizeFolderPath(RenamedPath(f, oldPath, newPath)).Some? <==> PathFits(f, oldPath, newPath))
    {
      FitsMeans(f, oldPath, newPath);
    }
    forall i | 0 <= i < |macros| && Under(macros[i], oldPath)
      ensures var p := FolderOf(macros[i]).value;
        Split(oldPath) <= Split(p) && (NormalizeFolderPath(RenamedPath(p, oldPath, newPath)).Some? <==> PathFits(p, oldPath, newPath))
    {
      FolderIsNormal(macros[i]);
      FitsMeans(FolderOf(macros[i]).value, oldPath, newPath);
    }
  }

  lemma FitsMeans(p: string, oldPath: string, newPath: string)
    requires Normal(p) && Normal(oldPath) && Normal(newPath) && IsDescendantOrSelf(p, oldPath)
    ensures Split(oldPath) <= Split(p) && (NormalizeFolderPath(RenamedPath(p, oldPath, newPath)).Some? <==> PathFits(p, oldPath, newPath))
  {
    RenamedByNames(p, oldPath, newPath);
    NamesNormalize(RenamedNames(Split(p), Split(oldPath), Split(newPath)));
  }
}
