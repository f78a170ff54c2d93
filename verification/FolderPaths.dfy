/** Folder paths of the sidebar: at most ten visible names joined by slashes. */
module FolderPaths {
  import opened Records
  import opened Segments
  import opened Text

  const MAX_FOLDER_DEPTH := 10
  const MAX_FOLDER_PATH_LENGTH := 4096

  function TrimAll(segments: Path): Path {
    if segments == [] then [] else [Trim(segments[0])] + TrimAll(segments[1..])
  }

  predicate Rejected(segment: string) {
    segment == ".." || segment == "." || '\\' in segment
  }

  function NormalizeFolderPath(path: string): Option<string> {
    if |path| > MAX_FOLDER_PATH_LENGTH then None
    else
      var segments := NonEmpty(TrimAll(Split(path)));
      if segments == [] then None
      else if exists i :: 0 <= i < |segments| && Rejected(segments[i]) then None
      else if |segments| > MAX_FOLDER_DEPTH then None
      else Some(Join(segments))
  }

  /** `sanitizeMacroGroup` of a string: blank and invalid alike come to nothing. */
  function SanitizeGroup(raw: string): Option<string> {
    if Trim(raw) == "" then None else NormalizeFolderPath(Trim(raw))
  }

  /** The names of a folder path. */
  ghost predicate Folder(segments: Path) {
    && 0 < |segments| <= MAX_FOLDER_DEPTH
    && (forall i | 0 <= i < |segments| ::
          segments[i] != "" && Trimmed(segments[i]) && '/' !in segments[i] && !Rejected(segments[i]))
    && |Join(segments)| <= MAX_FOLDER_PATH_LENGTH
  }

  /** A path in the form every read gives it. */
  ghost predicate Normal(path: string) {
    exists segments :: Folder(segments) && path == Join(segments)
  }

  // ---- lengths ------------------------------------------------------------------------

  lemma {:induction false} JoinSplitLength(s: string)
    ensures |Join(Split(s))| == |s|
    decreases |s|
  {
    if s != "" {
      var rest := Split(s[1..]);
      JoinSplitLength(s[1..]);
      if s[0] == '/' {
        assert Split(s)[1..] == rest;
      } else {
        assert Split(s)[1..] == rest[1..];
      }
    }
  }

  lemma {:induction false} TrimAllShortens(segments: Path)
    ensures |TrimAll(segments)| == |segments| && |Join(TrimAll(segments))| <= |Join(segments)|
    ensures forall x :: x in TrimAll(segments) <==> exists i :: 0 <= i < |segments| && x == Trim(segments[i])
    decreases |segments|
  {
    if segments != [] {
      TrimAllShortens(segments[1..]);
      TrimSettles(segments[0]);
      assert TrimAll(segments)[1..] == TrimAll(segments[1..]);
      forall x ensures x in TrimAll(segments) <==> exists i :: 0 <= i < |segments| && x == Trim(segments[i]) {
        if x in TrimAll(segments[1..]) {
          var i :| 0 <= i < |segments[1..]| && x == Trim(segments[1..][i]);
          assert x == Trim(segments[i + 1]);
        }
        if i :| 0 <= i < |segments| && x == Trim(segments[i]) && i > 0 {
          assert x == Trim(segments[1..][i - 1]);
        }
      }
    }
  }

  lemma {:induction false} NonEmptyShortens(segments: Path)
    ensures |Join(NonEmpty(segments))| <= |Join(segments)|
    decreases |segments|
  {
    if segments != [] {
      NonEmptyShortens(segments[1..]);
      var rest := NonEmpty(segments[1..]);
      if |segments| == 1 {
        assert rest == [];
      }
      if segments[0] != "" {
        assert NonEmpty(segments) == [segments[0]] + rest;
        assert NonEmpty(segments)[1..] == rest;
      } else {
        assert NonEmpty(segments) == rest;
      }
    }
  }

  // ---- the normal form ----------------------------------------------------------------

  lemma {:induction false} TrimKeepsCharacters(s: string, c: char)
    ensures c in Trim(s) ==> c in s
  {
    TrimLeftStarts(s);
    TrimRightEnds(TrimLeft(s));
  }

  /** What normalizing gives is in normal form, and no longer than what it was given. */
  lemma NormalizingIsNormal(path: string)
    requires NormalizeFolderPath(path).Some?
    ensures Folder(NonEmpty(TrimAll(Split(path)))) && Normal(NormalizeFolderPath(path).value)
    ensures |NormalizeFolderPath(path).value| <= |path|
  {
    var pieces := Split(path);
    var trimmed := TrimAll(pieces);
    var segments := NonEmpty(trimmed);
    SplitPieces(path);
    JoinSplitLength(path);
    TrimAllShortens(pieces);
    NonEmptyShortens(trimmed);
    NonEmptyPieces(trimmed);
    forall i | 0 <= i < |segments|
      ensures segments[i] != "" && Trimmed(segments[i]) && '/' !in segments[i] && !Rejected(segments[i])
    {
      assert segments[i] in segments;
      var j :| 0 <= j < |pieces| && segments[i] == Trim(pieces[j]);
      TrimSettles(pieces[j]);
      TrimKeepsCharacters(pieces[j], '/');
    }
  }

  lemma {:induction false} TrimAllStays(segments: Path)
    requires forall i | 0 <= i < |segments| :: Trimmed(segments[i])
    ensures TrimAll(segments) == segments
    decreases |segments|
  {
    if segments != [] {
      TrimmedStays(segments[0]);
      TrimAllStays(segments[1..]);
    }
  }

  /** The ends of a path are the ends of its first and last names. */
  lemma {:induction false} JoinEnds(segments: Path)
    requires segments != [] && forall i | 0 <= i < |segments| :: segments[i] != ""
    ensures Join(segments) != ""
    ensures Join(segments)[0] == segments[0][0]
    ensures Join(segments)[|Join(segments)| - 1] == segments[|segments| - 1][|segments[|segments| - 1]| - 1]
    decreases |segments|
  {
    if |segments| > 1 {
      JoinEnds(segments[1..]);
    }
  }

  /** A path in normal form is left as it is. */
  lemma NormalStays(segments: Path)
    requires Folder(segments)
    ensures NormalizeFolderPath(Join(segments)) == Some(Join(segments))
    ensures SanitizeGroup(Join(segments)) == Some(Join(segments))
  {
    SplitJoin(segments);
    TrimAllStays(segments);
    NothingEmpty(segments);
    JoinEnds(segments);
    TrimmedStays(Join(segments));
  }

  /** Sanitizing settles at once: nothing but a normal path comes out, and it comes out again. */
  lemma SanitizeGroupSettles(raw: string)
    requires SanitizeGroup(raw).Some?
    ensures Normal(SanitizeGroup(raw).value) && SanitizeGroup(SanitizeGroup(raw).value) == SanitizeGroup(raw)
  {
    NormalizingIsNormal(Trim(raw));
    NormalStays(NonEmpty(TrimAll(Split(Trim(raw)))));
  }

  /** Normal paths are exactly those sanitizing leaves as they are. */
  lemma NormalIsFixed(path: string)
    ensures Normal(path) <==> SanitizeGroup(path) == Some(path)
  {
    if Normal(path) {
      var segments :| Folder(segments) && path == Join(segments);
      NormalStays(segments);
    }
    if SanitizeGroup(path) == Some(path) {
      SanitizeGroupSettles(path);
    }
  }

  // ---- the tree of paths --------------------------------------------------------------

  /** `isDescendantOrSelf`. */
  predicate IsDescendantOrSelf(candidate: string, ancestor: string) {
    candidate == ancestor || ancestor + "/" <= candidate
  }

  function LastSlash(path: string): (r: int)
    ensures -1 <= r < |path|
  {
    if path == "" then -1
    else if path[|path| - 1] == '/' then |path| - 1
    else LastSlash(path[..|path| - 1])
  }

  /** `parentPath`. */
  function ParentPath(path: string): Option<string> {
    if LastSlash(path) == -1 then None else Some(path[..LastSlash(path)])
  }

  /** `getAncestorPaths`: the path itself comes last. */
  function AncestorPaths(path: string): seq<string> {
    var segments := Split(path);
    seq(|segments|, i requires 0 <= i < |segments| => Join(segments[..i + 1]))
  }

  predicate Slashless(segments: Path) {
    forall i | 0 <= i < |segments| :: '/' !in segments[i]
  }

  lemma {:induction false} JoinAppend(a: Path, b: Path)
    requires a != [] && b != []
    ensures Join(a + b) == Join(a) + "/" + Join(b)
    decreases |a|
  {
    assert (a + b)[1..] == a[1..] + b;
    if |a| > 1 {
      JoinAppend(a[1..], b);
    } else {
      assert a[1..] + b == b;
    }
  }

  lemma {:induction false} SplitAppend(a: Path, s: string)
    requires a != [] && Slashless(a)
    ensures Split(Join(a) + "/" + s) == a + Split(s)
    decreases |a|
  {
    if |a| == 1 {
      SplitPrefix(a[0], s);
    } else {
      SplitAppend(a[1..], s);
      Regroup(a[0], Join(a[1..]), s);
      SplitPrefix(a[0], Join(a[1..]) + "/" + s);
      assert a + Split(s) == [a[0]] + (a[1..] + Split(s));
    }
  }

  lemma Regroup(x: string, y: string, z: string)
    ensures x + "/" + y + "/" + z == x + "/" + (y + "/" + z)
  {
  }

  lemma PrefixIsUnder(p: Path, o: Path)
    requires o != [] && o < p
    ensures Join(p) == Join(o) + "/" + Join(p[|o|..])
    ensures Join(p)[|Join(o)|..] == "/" + Join(p[|o|..])
  {
    assert p == o + p[|o|..];
    JoinAppend(o, p[|o|..]);
  }

  lemma UnderIsPrefix(p: Path, o: Path)
    requires p != [] && o != [] && Slashless(p) && Slashless(o) && IsDescendantOrSelf(Join(p), Join(o))
    ensures o <= p
  {
    SplitJoin(p);
    SplitJoin(o);
    if Join(p) != Join(o) {
      var rest := Join(p)[|Join(o)| + 1..];
      assert Join(p) == Join(o) + "/" + rest;
      SplitAppend(o, rest);
    }
  }

  /** One path lies under another exactly when its names begin with the other's. */
  lemma DescendantIsPrefix(p: Path, o: Path)
    requires p != [] && o != [] && Slashless(p) && Slashless(o)
    ensures IsDescendantOrSelf(Join(p), Join(o)) <==> o <= p
    ensures o < p ==> Join(p) == Join(o) + "/" + Join(p[|o|..])
    ensures o <= p ==> Join(p)[|Join(o)|..] == if o == p then "" else "/" + Join(p[|o|..])
  {
    if o == p {
      assert Join(p)[|Join(p)|..] == "";
    } else if o < p {
      PrefixIsUnder(p, o);
      SlashedPrefix(Join(p), Join(o), Join(p[|o|..]));
    } else if IsDescendantOrSelf(Join(p), Join(o)) {
      UnderIsPrefix(p, o);
    }
  }

  lemma SlashedPrefix(path: string, above: string, rest: string)
    requires path == above + "/" + rest
    ensures IsDescendantOrSelf(path, above)
  {
  }

  lemma {:induction false} LastSlashOfName(prefix: string, name: string)
    requires '/' !in name
    ensures LastSlash(prefix + "/" + name) == |prefix|
    decreases |name|
  {
    var path := prefix + "/" + name;
    if name != "" {
      assert path[..|path| - 1] == prefix + "/" + name[..|name| - 1];
      LastSlashOfName(prefix, name[..|name| - 1]);
    }
  }

  lemma {:induction false} NoSlash(name: string)
    requires '/' !in name
    ensures LastSlash(name) == -1
    decreases |name|
  {
    if name != "" {
      NoSlash(name[..|name| - 1]);
    }
  }

  lemma ParentOf(prefix: string, name: string)
    requires '/' !in name
    ensures ParentPath(prefix + "/" + name) == Some(prefix)
  {
    LastSlashOfName(prefix, name);
    assert (prefix + "/" + name)[..|prefix|] == prefix;
  }

  function Front(p: Path): Path
    requires p != []
  {
    p[..|p| - 1]
  }

  lemma JoinLast(p: Path)
    requires |p| > 1
    ensures Join(p) == Join(Front(p)) + "/" + p[|p| - 1]
  {
    assert p == Front(p) + [p[|p| - 1]];
    JoinAppend(Front(p), [p[|p| - 1]]);
  }

  /** The parent of a path drops its last name. */
  lemma ParentDropsLast(p: Path)
    requires p != [] && Slashless(p)
    ensures |p| == 1 ==> ParentPath(Join(p)) == None
    ensures |p| > 1 ==> ParentPath(Join(p)) == Some(Join(Front(p)))
  {
    if |p| == 1 {
      NoSlash(p[0]);
    } else {
      JoinLast(p);
      ParentOf(Join(Front(p)), p[|p| - 1]);
    }
  }

  /** A name that merely begins like a folder's is not inside it. */
  lemma PrefixIsNotDescendant(path: string, more: string)
    requires more != "" && more[0] != '/'
    ensures !IsDescendantOrSelf(path + more, path)
  {
    assert (path + "/")[|path|] == '/' && (path + more)[|path|] == more[0];
  }

  /** The pieces of a path trimmed, in their order, without those that are blank. */
  ghost predicate Tidied(pieces: Path, names: Path) {
    if pieces == [] then names == []
    else if Trim(pieces[0]) == "" then Tidied(pieces[1..], names)
    else names != [] && names[0] == Trim(pieces[0]) && Tidied(pieces[1..], names[1..])
  }

  lemma {:induction false} TidiedIs(pieces: Path, names: Path)
    ensures Tidied(pieces, names) <==> names == NonEmpty(TrimAll(pieces))
    decreases |pieces|
  {
    if pieces != [] {
      var name, rest := Trim(pieces[0]), NonEmpty(TrimAll(pieces[1..]));
      assert TrimAll(pieces) == [name] + TrimAll(pieces[1..]) && TrimAll(pieces)[1..] == TrimAll(pieces[1..]);
      if name == "" {
        TidiedIs(pieces[1..], names);
        assert NonEmpty(TrimAll(pieces)) == rest;
      } else {
        assert NonEmpty(TrimAll(pieces)) == [name] + rest;
        if names != [] {
          TidiedIs(pieces[1..], names[1..]);
          assert names == [names[0]] + names[1..];
        }
      }
    }
  }

  /** Any path comes to its tidied names, and to nothing exactly when it is too long, too deep, blank or names something hidden. */
  lemma NormalizedExactly(path: string, names: Path)
    requires Tidied(Split(path), names)
    ensures
      NormalizeFolderPath(path)
      == if 0 < |names| <= 10 && |path| <= 4096 && forall i | 0 <= i < |names| :: !Rejected(names[i])
         then Some(Join(names)) else None
  {
    TidiedIs(Split(path), names);
  }
}
