/** The relative paths of a folder backup, and the check an import puts them through. */
module RelativePath {
  import opened Segments

  datatype Result<+T> = Unsafe | Safe(value: T)

  /** Backslashes become slashes. */
  function Slashed(s: string): (r: string)
    ensures |r| == |s|
    ensures forall i | 0 <= i < |s| :: r[i] == if s[i] == '\\' then '/' else s[i]
  {
    if s == "" then "" else [if s[0] == '\\' then '/' else s[0]] + Slashed(s[1..])
  }

  predicate IsLetter(c: char) {
    'a' <= c <= 'z' || 'A' <= c <= 'Z'
  }

  /** Absolute for POSIX, or for Windows once every separator is a slash. */
  predicate IsAbsolute(s: string) {
    || (|s| > 0 && s[0] == '/')
    || (|s| > 2 && IsLetter(s[0]) && s[1] == ':' && s[2] == '/')
  }

  predicate IsDot(segment: string) {
    segment == "." || segment == ".."
  }

  /** `safeRelativeSegments` of a string. */
  function SafeRelativeSegments(value: string): Result<Path> {
    var normalized := Slashed(value);
    if normalized == "" || '\0' in normalized then Unsafe
    else if IsAbsolute(normalized) then Unsafe
    else
      var segments := NonEmpty(Split(normalized));
      if segments == [] then Unsafe
      else if exists i :: 0 <= i < |segments| && IsDot(segments[i]) then Unsafe
      else Safe(segments)
  }

  /** How a path resolves from a folder: "." stays, ".." goes up. */
  function Resolve(root: Path, segments: Path): Path
    decreases |segments|
  {
    if segments == [] then root
    else Resolve(if segments[0] == "." then root
                 else if segments[0] == ".." then (if root == [] then [] else root[..|root| - 1])
                 else root + [segments[0]],
                 segments[1..])
  }

  /** A name no path syntax can take apart. */
  predicate PlainName(name: string) {
    name != "" && !IsDot(name) && '/' !in name && '\\' !in name && '\0' !in name
  }

  predicate Drive(name: string) {
    |name| == 2 && IsLetter(name[0]) && name[1] == ':'
  }

  // ---- what the check lets through ----------------------------------------------------

  /** Whatever the string, what comes through is one or more plain names. */
  lemma SafeMeansPlain(value: string)
    requires SafeRelativeSegments(value).Safe?
    ensures SafeRelativeSegments(value).value != []
    ensures forall i | 0 <= i < |SafeRelativeSegments(value).value| :: PlainName(SafeRelativeSegments(value).value[i])
  {
    var normalized := Slashed(value);
    var segments := SafeRelativeSegments(value).value;
    SplitPieces(normalized);
    NonEmptyPieces(Split(normalized));
    forall i | 0 <= i < |segments| ensures PlainName(segments[i]) {
      assert segments[i] in segments;
      var j :| 0 <= j < |Split(normalized)| && Split(normalized)[j] == segments[i];
    }
  }

  lemma {:induction false} PlainStaysUnder(root: Path, segments: Path)
    requires forall i | 0 <= i < |segments| :: PlainName(segments[i])
    ensures Resolve(root, segments) == root + segments
    decreases |segments|
  {
    if segments != [] {
      PlainStaysUnder(root + [segments[0]], segments[1..]);
    }
  }

  /** Any string that passes the check resolves strictly under the folder it is restored into. */
  lemma SafeStaysUnderRoot(root: Path, value: string)
    requires SafeRelativeSegments(value).Safe?
    ensures root < Resolve(root, SafeRelativeSegments(value).value)
  {
    SafeMeansPlain(value);
    PlainStaysUnder(root, SafeRelativeSegments(value).value);
  }

  // ---- which paths come through as they were ------------------------------------------

  lemma {:induction false} JoinHolds(segments: Path, c: char)
    requires c != '/'
    ensures c in Join(segments) <==> exists i :: 0 <= i < |segments| && c in segments[i]
    decreases |segments|
  {
    if |segments| > 1 {
      JoinHolds(segments[1..], c);
      if i :| 0 <= i < |segments| && c in segments[i] && i > 0 {
        assert c in segments[1..][i - 1];
      }
      if i :| 0 <= i < |segments[1..]| && c in segments[1..][i] {
        assert c in segments[i + 1];
      }
    } else if |segments| == 1 {
      if i :| 0 <= i < |segments| && c in segments[i] {
        assert c in segments[0];
      }
    }
  }

  /** Names as a directory listing gives them. */
  ghost predicate Listed(segments: Path) {
    segments != [] && forall i | 0 <= i < |segments| :: segments[i] != "" && !IsDot(segments[i]) && '/' !in segments[i]
  }

  /** The first name of a longer path reads as a drive. */
  predicate DriveLike(segments: Path) {
    |segments| > 1 && Drive(segments[0])
  }

  lemma JoinAbsolute(segments: Path)
    requires Listed(segments)
    ensures Join(segments) != ""
    ensures IsAbsolute(Join(segments)) <==> DriveLike(segments)
  {
    assert segments[0] != "";
    if |segments| > 1 {
      var s, name := Join(segments), segments[0];
      assert s == name + "/" + Join(segments[1..]);
      assert forall k | 0 <= k < |name| :: s[k] == name[k] && s[k] != '/';
      assert s[|name|] == '/';
    } else {
      assert forall k | 0 <= k < |segments[0]| :: segments[0][k] != '/';
    }
  }

  /**
   A path a listing can produce is restored under the very names it was collected under exactly
   when no name holds a backslash or a NUL and it does not begin like a drive.
   */
  lemma PathSurvives(segments: Path)
    requires Listed(segments)
    ensures SafeRelativeSegments(Join(segments)) == Safe(segments)
            <==> (forall i | 0 <= i < |segments| :: PlainName(segments[i])) && !DriveLike(segments)
  {
    var s := Join(segments);
    JoinHolds(segments, '\0');
    JoinHolds(segments, '\\');
    JoinAbsolute(segments);
    if (forall i | 0 <= i < |segments| :: PlainName(segments[i])) && !DriveLike(segments) {
      assert '\\' !in s && '\0' !in s;
      assert Slashed(s) == s;
      SplitJoin(segments);
      NothingEmpty(segments);
    } else if forall i | 0 <= i < |segments| :: PlainName(segments[i]) {
      assert '\\' !in s;
      assert Slashed(s) == s;
    } else if SafeRelativeSegments(s) == Safe(segments) {
      SafeMeansPlain(s);
    }
  }

  /** A file named `a\b` comes back as `b` in a folder `a`. */
  lemma BackslashBecomesFolder()
    ensures Listed(["a\\b"]) && SafeRelativeSegments(Join(["a\\b"])) == Safe(["a", "b"])
  {
    assert Slashed("a\\b") == Join(["a", "b"]) == "a/b";
    assert !IsAbsolute("a/b") && '\0' !in "a/b";
    SplitJoin(["a", "b"]);
    NothingEmpty(["a", "b"]);
  }

  /** A file in a folder `c:` does not come back at all. */
  lemma DriveFolderIsRefused()
    ensures Listed(["c:", "x"]) && SafeRelativeSegments(Join(["c:", "x"])) == Unsafe
  {
    var names := ["c:", "x"];
    assert names[0] == "c:" && names[1] == "x";
    assert Join(names) == "c:/x";
    assert Slashed("c:/x") == "c:/x";
    assert IsAbsolute("c:/x");
  }

  /** The pieces of a path in their order, without the empty ones. */
  ghost predicate Pieces(pieces: Path, names: Path) {
    if pieces == [] then names == []
    else if pieces[0] == "" then Pieces(pieces[1..], names)
    else names != [] && names[0] == pieces[0] && Pieces(pieces[1..], names[1..])
  }

  lemma {:induction false} PiecesAre(pieces: Path, names: Path)
    ensures Pieces(pieces, names) <==> names == NonEmpty(pieces)
    decreases |pieces|
  {
    if pieces != [] {
      if pieces[0] == "" {
        PiecesAre(pieces[1..], names);
        assert NonEmpty(pieces) == NonEmpty(pieces[1..]);
      } else {
        assert NonEmpty(pieces) == [pieces[0]] + NonEmpty(pieces[1..]);
        if names != [] {
          PiecesAre(pieces[1..], names[1..]);
          assert names == [names[0]] + names[1..];
        }
      }
    }
  }

  /** Any string comes to the pieces between its slashes and backslashes, and is refused exactly when it is absolute, holds a NUL, has no piece or a dot for one. */
  lemma SafeExactly(value: string, names: Path)
    requires Pieces(Split(Slashed(value)), names)
    ensures
      SafeRelativeSegments(value)
      == if IsAbsolute(Slashed(value)) || '\0' in value || names == [] || exists i :: 0 <= i < |names| && (names[i] == "." || names[i] == "..")
         then Unsafe else Safe(names)
  {
    PiecesAre(Split(Slashed(value)), names);
    if i :| 0 <= i < |value| && value[i] == '\0' {
      assert Slashed(value)[i] == '\0';
    }
    if i :| 0 <= i < |value| && Slashed(value)[i] == '\0' {
      assert value[i] == '\0';
    }
    if value == "" {
      assert Split(Slashed(value)) == [""] && [""][1..] == [];
    }
  }
}
