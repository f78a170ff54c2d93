/**
 Backing a folder up as two flat lists and building it again from them.
 */
module FolderBackup {
  import opened Records
  import opened RelativePath
  import opened Segments
  import BackupImport

  type Bytes = seq<bv8>

  type Mode = BackupImport.Mode

  // ---- the tree, and its two lists ----------------------------------------------------

  /** What a directory listing holds; a link is anything the walk passes over. */
  datatype Node = FileNode(contents: Bytes) | LinkNode | DirNode(listing: Listing)

  datatype Listing = End | Child(name: string, node: Node, rest: Listing)

  datatype FileEntry = FileEntry(relativePath: string, contents: Bytes)

  datatype Backup = Backup(directories: seq<string>, files: seq<FileEntry>)

  function Relative(dir: string, name: string): string {
    if dir == "" then name else dir + "/" + name
  }

  /** The directories of a listing, each before what it holds. */
  function Directories(l: Listing, dir: string): seq<string> {
    match l
    case End => []
    case Child(name, DirNode(inner), rest) =>
      [Relative(dir, name)] + Directories(inner, Relative(dir, name)) + Directories(rest, dir)
    case Child(_, _, rest) => Directories(rest, dir)
  }

  function Files(l: Listing, dir: string): seq<FileEntry> {
    match l
    case End => []
    case Child(name, FileNode(contents), rest) => [FileEntry(Relative(dir, name), contents)] + Files(rest, dir)
    case Child(name, DirNode(inner), rest) => Files(inner, Relative(dir, name)) + Files(rest, dir)
    case Child(_, LinkNode, rest) => Files(rest, dir)
  }

  function Collected(l: Listing): Backup {
    Backup(Directories(l, ""), Files(l, ""))
  }

  /** `walk`: pushes onto the payload as it goes down the tree. */
  method Walk(l: Listing, dir: string, payload: Backup) returns (r: Backup)
    ensures r == Backup(payload.directories + Directories(l, dir), payload.files + Files(l, dir))
    decreases l
  {
    r := payload;
    if l.Child? {
      var path := Relative(dir, l.name);
      match l.node {
        case LinkNode =>
        case DirNode(inner) =>
          r := Walk(inner, path, r.(directories := r.directories + [path]));
        case FileNode(contents) =>
          r := r.(files := r.files + [FileEntry(path, contents)]);
      }
      r := Walk(l.rest, dir, r);
    }
  }

  method CollectFolderBackup(l: Listing) returns (r: Backup)
    ensures r == Collected(l)
  {
    r := Walk(l, "", Backup([], []));
  }

  // ---- the folder being restored into -------------------------------------------------

  datatype Entry = Folder | File(contents: Bytes)

  /** What lies under the root, by path from it. */
  type Fs = map<Path, Entry>

  /** Operations the file system refuses. */
  datatype Faults = Faults(creates: set<Path>, writes: set<Path>)

  predicate FileOnTheWay(fs: Fs, p: Path) {
    exists n :: 0 < n <= |p| && p[..n] in fs && fs[p[..n]].File?
  }

  function Ancestry(p: Path): Fs {
    map n | 0 < n <= |p| :: p[..n] := Folder
  }

  function CreateDirectory(fs: Fs, p: Path, faults: Faults): Option<Fs> {
    if p in faults.creates || FileOnTheWay(fs, p) then None else Some(fs + Ancestry(p))
  }

  function WriteFile(fs: Fs, p: Path, contents: Bytes, faults: Faults): Option<Fs> {
    if p in faults.writes || (p in fs && fs[p].Folder?) then None else Some(fs[p := File(contents)])
  }

  function RestoreDirectory(fs: Fs, relativePath: string, faults: Faults): Fs {
    match SafeRelativeSegments(relativePath)
    case Unsafe => fs
    case Safe(p) =>
      var r := CreateDirectory(fs, p, faults);
      if r.Some? then r.value else fs
  }

  /** The parent is ensured and the file written, as far as neither fails; and whether it was written. */
  function WithParent(fs: Fs, p: Path, contents: Bytes, faults: Faults): (Fs, bool)
    requires p != []
  {
    var parent := CreateDirectory(fs, p[..|p| - 1], faults);
    if parent.None? then (fs, false)
    else
      var r := WriteFile(parent.value, p, contents, faults);
      if r.Some? then (r.value, true) else (parent.value, false)
  }

  function RestoreFile(fs: Fs, file: FileEntry, mode: Mode, faults: Faults): Fs {
    match SafeRelativeSegments(file.relativePath)
    case Unsafe => fs
    case Safe(p) =>
      if p == [] || (mode.Merge? && p in fs) then fs else WithParent(fs, p, file.contents, faults).0
  }

  function RestoreDirectories(fs: Fs, directories: seq<string>, faults: Faults): Fs
    decreases |directories|
  {
    if directories == [] then fs
    else RestoreDirectories(RestoreDirectory(fs, directories[0], faults), directories[1..], faults)
  }

  function RestoreFiles(fs: Fs, files: seq<FileEntry>, mode: Mode, faults: Faults): Fs
    decreases |files|
  {
    if files == [] then fs
    else RestoreFiles(RestoreFile(fs, files[0], mode, faults), files[1..], mode, faults)
  }

  function Restored(fs: Fs, b: Backup, mode: Mode, faults: Faults): Fs {
    RestoreFiles(RestoreDirectories(fs, b.directories, faults), b.files, mode, faults)
  }

  method RestoreDirectoryList(fs: Fs, directories: seq<string>, faults: Faults) returns (after: Fs)
    ensures after == RestoreDirectories(fs, directories, faults)
  {
    after := fs;
    var k := 0;
    while k < |directories|
      invariant 0 <= k <= |directories|
      invariant RestoreDirectories(after, directories[k..], faults) == RestoreDirectories(fs, directories, faults)
    {
      assert directories[k..][1..] == directories[k + 1..];
      var segments := SafeRelativeSegments(directories[k]);
      if segments.Safe? {
        var created := CreateDirectory(after, segments.value, faults);
        if created.Some? {
          after := created.value;
        }
      }
      k := k + 1;
    }
  }

  datatype Report = Written | SkippedExisting | Failed

  /** What the restore of one file comes to. */
  function ReportOf(fs: Fs, file: FileEntry, mode: Mode, faults: Faults): Report {
    match SafeRelativeSegments(file.relativePath)
    case Unsafe => Failed
    case Safe(p) =>
      if p == [] then Failed
      else if mode.Merge? && p in fs then SkippedExisting
      else if WithParent(fs, p, file.contents, faults).1 then Written
      else Failed
  }

  /** How many files come to this. */
  function Count(fs: Fs, files: seq<FileEntry>, mode: Mode, faults: Faults, report: Report): nat
    decreases |files|
  {
    if files == [] then 0
    else
      (if ReportOf(fs, files[0], mode, faults) == report then 1 else 0)
      + Count(RestoreFile(fs, files[0], mode, faults), files[1..], mode, faults, report)
  }

  /** The file system the `i`th file finds. */
  function FoundBy(fs: Fs, files: seq<FileEntry>, mode: Mode, faults: Faults, i: nat): Fs
    requires i <= |files|
  {
    RestoreFiles(fs, files[..i], mode, faults)
  }

  /** The files that come to this, by place. */
  function Reported(fs: Fs, files: seq<FileEntry>, mode: Mode, faults: Faults, report: Report): set<nat> {
    set i: nat | i < |files| && ReportOf(FoundBy(fs, files, mode, faults, i), files[i], mode, faults) == report
  }

  function Moved(s: set<nat>): set<nat> {
    set i | i in s :: i + 1
  }

  lemma {:induction false} MovedSize(s: set<nat>)
    ensures |Moved(s)| == |s|
    decreases |s|
  {
    if s != {} {
      var i :| i in s;
      MovedSize(s - {i});
      assert s == (s - {i}) + {i};
      forall n: nat | n in Moved(s) ensures n in Moved(s - {i}) + {i + 1} {
        var j :| j in s && n == j + 1;
        assert j != i ==> j in s - {i};
      }
      forall n: nat | n in Moved(s - {i}) ensures n in Moved(s) && n != i + 1 {
      }
      assert i + 1 in Moved(s);
      assert Moved(s) == Moved(s - {i}) + {i + 1};
    }
  }

  /** The counts are of the files that come to this, each on what the ones before it left. */
  lemma {:induction false} CountIsOfFiles(fs: Fs, files: seq<FileEntry>, mode: Mode, faults: Faults, report: Report)
    ensures Count(fs, files, mode, faults, report) == |Reported(fs, files, mode, faults, report)|
    decreases |files|
  {
    if files != [] {
      var next, rest := RestoreFile(fs, files[0], mode, faults), files[1..];
      CountIsOfFiles(next, rest, mode, faults, report);
      MovedSize(Reported(next, rest, mode, faults, report));
      forall i: nat | i < |rest| ensures FoundBy(fs, files, mode, faults, i + 1) == FoundBy(next, rest, mode, faults, i) {
        assert files[..i + 1][0] == files[0] && files[..i + 1][1..] == rest[..i];
      }
      assert FoundBy(fs, files, mode, faults, 0) == fs;
      ReportedSplits(fs, files, mode, faults, report);
    } else {
      assert Reported(fs, files, mode, faults, report) == {};
    }
  }

  lemma ReportedSplits(fs: Fs, files: seq<FileEntry>, mode: Mode, faults: Faults, report: Report)
    requires files != []
    requires FoundBy(fs, files, mode, faults, 0) == fs
    requires forall i: nat | i < |files| - 1 ::
      FoundBy(fs, files, mode, faults, i + 1) == FoundBy(RestoreFile(fs, files[0], mode, faults), files[1..], mode, faults, i)
    ensures Reported(fs, files, mode, faults, report)
         == (if ReportOf(fs, files[0], mode, faults) == report then {0} else {})
            + Moved(Reported(RestoreFile(fs, files[0], mode, faults), files[1..], mode, faults, report))
  {
    var next, rest := RestoreFile(fs, files[0], mode, faults), files[1..];
    forall i: nat | 0 < i < |files|
      ensures i in Reported(fs, files, mode, faults, report) <==> i in Moved(Reported(next, rest, mode, faults, report))
    {
      var j: nat := i - 1;
      assert FoundBy(fs, files, mode, faults, j + 1) == FoundBy(next, rest, mode, faults, j);
      assert rest[j] == files[i];
      assert j in Reported(next, rest, mode, faults, report) <==> i in Reported(fs, files, mode, faults, report);
      assert j in Reported(next, rest, mode, faults, report) <==> i in Moved(Reported(next, rest, mode, faults, report));
    }
  }

  /** A file reported as written holds its contents then, one skipped was there already, and what fails changes no entry for it. */
  lemma ReportMeans(fs: Fs, file: FileEntry, mode: Mode, faults: Faults, p: Path)
    requires SafeRelativeSegments(file.relativePath) == Safe(p) && p != []
    ensures
      var report, after := ReportOf(fs, file, mode, faults), RestoreFile(fs, file, mode, faults);
      && (report == SkippedExisting <==> mode.Merge? && p in fs)
      && (report == Written ==> p in after && after[p] == File(file.contents))
      && (report != Written ==> (p in after <==> p in fs) && (p in after ==> after[p] == fs[p]))
  {
    var dir := p[..|p| - 1];
    assert p !in Ancestry(dir);
  }

  method EnsureAndWrite(fs: Fs, target: Path, contents: Bytes, faults: Faults) returns (after: Fs, written: bool)
    requires target != []
    ensures (after, written) == WithParent(fs, target, contents, faults)
  {
    var parent := CreateDirectory(fs, target[..|target| - 1], faults);
    if parent.None? {
      return fs, false;
    }
    var r := WriteFile(parent.value, target, contents, faults);
    if r.None? {
      return parent.value, false;
    }
    after, written := r.value, true;
  }

  /** One file: skipped if it is there already, otherwise its parent is ensured and it is written. */
  method RestoreOneFile(fs: Fs, file: FileEntry, mode: Mode, faults: Faults) returns (after: Fs, report: Report)
    ensures after == RestoreFile(fs, file, mode, faults) && report == ReportOf(fs, file, mode, faults)
  {
    after, report := fs, Failed;
    var segments := SafeRelativeSegments(file.relativePath);
    if segments.Safe? && segments.value != [] {
      var target := segments.value;
      if mode.Merge? && target in after {
        return after, SkippedExisting;
      }
      var written;
      after, written := EnsureAndWrite(fs, target, file.contents, faults);
      report := if written then Written else Failed;
    }
  }

  /** `restoreBackupFolders` for one root, with what it reports. */
  method RestoreBackupFolder(fs: Fs, b: Backup, mode: Mode, faults: Faults)
    returns (after: Fs, restoredFiles: nat, skippedExistingFiles: nat)
    ensures after == Restored(fs, b, mode, faults)
    ensures restoredFiles == Count(RestoreDirectories(fs, b.directories, faults), b.files, mode, faults, Written)
    ensures skippedExistingFiles == Count(RestoreDirectories(fs, b.directories, faults), b.files, mode, faults, SkippedExisting)
  {
    after := RestoreDirectoryList(fs, b.directories, faults);
    restoredFiles, skippedExistingFiles := 0, 0;
    ghost var start := after;
    var k := 0;
    while k < |b.files|
      invariant 0 <= k <= |b.files|
      invariant RestoreFiles(after, b.files[k..], mode, faults) == RestoreFiles(start, b.files, mode, faults)
      invariant restoredFiles + Count(after, b.files[k..], mode, faults, Written) == Count(start, b.files, mode, faults, Written)
      invariant skippedExistingFiles + Count(after, b.files[k..], mode, faults, SkippedExisting)
             == Count(start, b.files, mode, faults, SkippedExisting)
    {
      assert b.files[k..][1..] == b.files[k + 1..];
      var report;
      after, report := RestoreOneFile(after, b.files[k], mode, faults);
      restoredFiles := restoredFiles + if report.Written? then 1 else 0;
      skippedExistingFiles := skippedExistingFiles + if report.SkippedExisting? then 1 else 0;
      k := k + 1;
    }
  }

  // ---- what a restore may touch -------------------------------------------------------

  /** A path on the way to something in the backup, or that something itself. */
  ghost predicate OnBackedUpPath(b: Backup, p: Path) {
    || (exists i :: 0 <= i < |b.files| && OnTheWayTo(b.files[i].relativePath, p))
    || (exists i :: 0 <= i < |b.directories| && OnTheWayTo(b.directories[i], p))
  }

  predicate OnTheWayTo(relativePath: string, p: Path) {
    var r := SafeRelativeSegments(relativePath);
    r.Safe? && p != [] && p <= r.value
  }

  lemma RestoreDirectoryTouches(fs: Fs, v: string, faults: Faults, p: Path)
    ensures var after := RestoreDirectory(fs, v, faults);
      && (p in fs ==> p in after && after[p] == fs[p])
      && (p in after && p !in fs ==> OnTheWayTo(v, p) && after[p] == Folder)
  {
    var r := SafeRelativeSegments(v);
    if r.Safe? && CreateDirectory(fs, r.value, faults).Some? && p in Ancestry(r.value) && p in fs {
      assert p == r.value[..|p|];
    }
  }

  lemma RestoreFileTouches(fs: Fs, f: FileEntry, mode: Mode, faults: Faults, p: Path)
    ensures var after := RestoreFile(fs, f, mode, faults);
      && (p in fs ==> p in after && (after[p] == fs[p] || (mode.Replace? && fs[p].File? && after[p] == File(f.contents) && SafeRelativeSegments(f.relativePath) == Safe(p))))
      && (p in after && p !in fs ==> OnTheWayTo(f.relativePath, p))
  {
    var r := SafeRelativeSegments(f.relativePath);
    if r.Safe? && r.value != [] {
      var dir := r.value[..|r.value| - 1];
      assert dir <= r.value;
      if CreateDirectory(fs, dir, faults).Some? && p in Ancestry(dir) {
        assert p == dir[..|p|];
      }
    }
  }

  lemma {:induction false} RestoreDirectoriesTouch(fs: Fs, dirs: seq<string>, faults: Faults, p: Path)
    ensures var after := RestoreDirectories(fs, dirs, faults);
      && (p in fs ==> p in after && after[p] == fs[p])
      && (p in after && p !in fs ==> exists i :: 0 <= i < |dirs| && OnTheWayTo(dirs[i], p))
    decreases |dirs|
  {
    if dirs != [] {
      RestoreDirectoryTouches(fs, dirs[0], faults, p);
      RestoreDirectoriesTouch(RestoreDirectory(fs, dirs[0], faults), dirs[1..], faults, p);
      if i :| 0 <= i < |dirs[1..]| && OnTheWayTo(dirs[1..][i], p) {
        assert OnTheWayTo(dirs[i + 1], p);
      }
    }
  }

  lemma {:induction false} RestoreFilesTouch(fs: Fs, files: seq<FileEntry>, mode: Mode, faults: Faults, p: Path)
    ensures var after := RestoreFiles(fs, files, mode, faults);
      && (p in fs ==> p in after)
      && (p in fs && after[p] != fs[p] ==>
            && mode.Replace? && fs[p].File? && after[p].File?
            && exists i ::
                 0 <= i < |files| && SafeRelativeSegments(files[i].relativePath) == Safe(p) && after[p].contents == files[i].contents)
      && (p in after && p !in fs ==> exists i :: 0 <= i < |files| && OnTheWayTo(files[i].relativePath, p))
    decreases |files|
  {
    if files != [] {
      var next := RestoreFile(fs, files[0], mode, faults);
      RestoreFileTouches(fs, files[0], mode, faults, p);
      RestoreFilesTouch(next, files[1..], mode, faults, p);
      assert forall i :: 0 <= i < |files[1..]| ==> files[1..][i] == files[i + 1];
      var after := RestoreFiles(fs, files, mode, faults);
      if p in fs && after[p] != fs[p] && after[p] != next[p] {
        var i :| 0 <= i < |files[1..]| && SafeRelativeSegments(files[1..][i].relativePath) == Safe(p) && after[p].contents == files[1..][i].contents;
        assert files[i + 1] == files[1..][i];
      }
      if i :| 0 <= i < |files[1..]| && OnTheWayTo(files[1..][i].relativePath, p) {
        assert OnTheWayTo(files[i + 1].relativePath, p);
      }
    }
  }

  /**
   Whatever is restored over whatever is there, and whichever operations fail: nothing is
   removed; what is new lies on the way to something backed up; and an entry that was there
   changes only in replace mode, only if it is a file the backup also has, and then to that
   file's contents.
   */
  lemma RestoreTouchesOnlyBackedUpPaths(fs: Fs, b: Backup, mode: Mode, faults: Faults, p: Path)
    ensures var after := Restored(fs, b, mode, faults);
      && (p in fs ==> p in after)
      && (p in after && p !in fs ==> OnBackedUpPath(b, p))
      && (p in fs && after[p] != fs[p] ==>
            && mode.Replace? && fs[p].File? && after[p].File?
            && exists i ::
                 0 <= i < |b.files| && SafeRelativeSegments(b.files[i].relativePath) == Safe(p) && after[p].contents == b.files[i].contents)
  {
    var mid := RestoreDirectories(fs, b.directories, faults);
    RestoreDirectoriesTouch(fs, b.directories, faults, p);
    RestoreFilesTouch(mid, b.files, mode, faults, p);
  }

  function EntryAt(fs: Fs, p: Path): Option<Entry> {
    if p in fs then Some(fs[p]) else None
  }

  /** The contents of the first, and of the last, entry of the backup for a path. */
  function FirstContents(files: seq<FileEntry>, p: Path): Option<Bytes> {
    if files == [] then None
    else if SafeRelativeSegments(files[0].relativePath) == Safe(p) then Some(files[0].contents)
    else FirstContents(files[1..], p)
  }

  function LastContents(files: seq<FileEntry>, p: Path): Option<Bytes> {
    if files == [] then None
    else if LastContents(files[1..], p).Some? then LastContents(files[1..], p)
    else if SafeRelativeSegments(files[0].relativePath) == Safe(p) then Some(files[0].contents)
    else None
  }

  /** Nothing stands in the way of a file at this path: no folder there, and no file above. */
  ghost predicate Clear(fs: Fs, p: Path) {
    && (p in fs ==> fs[p].File?)
    && forall n | 0 < n < |p| && p[..n] in fs :: fs[p[..n]].Folder?
  }

  /** Nor does the backup put anything in its way. */
  predicate PutsNothingInTheWay(v: string, p: Path, isFile: bool) {
    var r := SafeRelativeSegments(v);
    r.Safe? ==> !(p <= r.value && (isFile ==> p != r.value)) && !(isFile && [] != r.value <= p && r.value != p)
  }

  ghost predicate NothingInTheWay(b: Backup, p: Path) {
    && (forall i | 0 <= i < |b.directories| :: PutsNothingInTheWay(b.directories[i], p, false))
    && (forall i | 0 <= i < |b.files| :: PutsNothingInTheWay(b.files[i].relativePath, p, true))
  }

  /** No operation on this path fails. */
  predicate Works(faults: Faults, p: Path) {
    p != [] && p !in faults.writes && p[..|p| - 1] !in faults.creates
  }

  lemma DirectoryKeepsClear(fs: Fs, v: string, faults: Faults, p: Path)
    requires p != [] && Clear(fs, p) && PutsNothingInTheWay(v, p, false)
    ensures Clear(RestoreDirectory(fs, v, faults), p) && EntryAt(RestoreDirectory(fs, v, faults), p) == EntryAt(fs, p)
  {
    RestoreDirectoryTouches(fs, v, faults, p);
    forall n | 0 < n < |p| && p[..n] in RestoreDirectory(fs, v, faults) ensures RestoreDirectory(fs, v, faults)[p[..n]].Folder? {
      RestoreDirectoryTouches(fs, v, faults, p[..n]);
    }
  }

  lemma {:induction false} DirectoriesKeepClear(fs: Fs, directories: seq<string>, faults: Faults, p: Path)
    requires p != [] && Clear(fs, p) && forall i | 0 <= i < |directories| :: PutsNothingInTheWay(directories[i], p, false)
    ensures var after := RestoreDirectories(fs, directories, faults); Clear(after, p) && EntryAt(after, p) == EntryAt(fs, p)
    decreases |directories|
  {
    if directories != [] {
      DirectoryKeepsClear(fs, directories[0], faults, p);
      DirectoriesKeepClear(RestoreDirectory(fs, directories[0], faults), directories[1..], faults, p);
    }
  }

  /** A file of another path leaves this one clear, and as it is. */
  lemma OtherFileKeepsClear(fs: Fs, f: FileEntry, mode: Mode, faults: Faults, p: Path)
    requires p != [] && Clear(fs, p) && PutsNothingInTheWay(f.relativePath, p, true) && SafeRelativeSegments(f.relativePath) != Safe(p)
    ensures var after := RestoreFile(fs, f, mode, faults); Clear(after, p) && EntryAt(after, p) == EntryAt(fs, p)
  {
    var after, r := RestoreFile(fs, f, mode, faults), SafeRelativeSegments(f.relativePath);
    RestoreFileTouches(fs, f, mode, faults, p);
    forall n | 0 < n < |p| && p[..n] in after ensures after[p[..n]].Folder? {
      AboveStaysFolder(fs, f, mode, faults, p[..n]);
    }
  }

  lemma AboveStaysFolder(fs: Fs, f: FileEntry, mode: Mode, faults: Faults, q: Path)
    requires q in fs ==> fs[q].Folder?
    requires SafeRelativeSegments(f.relativePath) != Safe(q) && q in RestoreFile(fs, f, mode, faults)
    ensures RestoreFile(fs, f, mode, faults)[q].Folder?
  {
    RestoreFileTouches(fs, f, mode, faults, q);
  }

  /** A file of this path lands: it is written, except where merging finds one there. */
  lemma FileLands(fs: Fs, f: FileEntry, mode: Mode, faults: Faults, p: Path)
    requires Works(faults, p) && Clear(fs, p) && SafeRelativeSegments(f.relativePath) == Safe(p)
    ensures var after := RestoreFile(fs, f, mode, faults);
            Clear(after, p) && EntryAt(after, p) == if mode.Merge? && p in fs then EntryAt(fs, p) else Some(File(f.contents))
  {
    var dir := p[..|p| - 1];
    if !(mode.Merge? && p in fs) {
      forall n | 0 < n <= |dir| ensures !(dir[..n] in fs && fs[dir[..n]].File?) {
        assert dir[..n] == p[..n];
      }
      var parent := fs + Ancestry(dir);
      assert CreateDirectory(fs, dir, faults) == Some(parent);
      assert p !in Ancestry(dir);
      forall n | 0 < n < |p| ensures p[..n] in Ancestry(dir) {
        assert p[..n] == dir[..n];
      }
    }
  }

  lemma {:induction false} FilesLand(fs: Fs, files: seq<FileEntry>, mode: Mode, faults: Faults, p: Path)
    requires Works(faults, p) && Clear(fs, p) && forall i | 0 <= i < |files| :: PutsNothingInTheWay(files[i].relativePath, p, true)
    ensures
      EntryAt(RestoreFiles(fs, files, mode, faults), p)
      == match mode
         case Replace => if LastContents(files, p).Some? then Some(File(LastContents(files, p).value)) else EntryAt(fs, p)
         case Merge =>
           if p !in fs && FirstContents(files, p).Some? then Some(File(FirstContents(files, p).value)) else EntryAt(fs, p)
    decreases |files|
  {
    if files != [] {
      if SafeRelativeSegments(files[0].relativePath) == Safe(p) {
        FileLands(fs, files[0], mode, faults, p);
      } else {
        OtherFileKeepsClear(fs, files[0], mode, faults, p);
      }
      FilesLand(RestoreFile(fs, files[0], mode, faults), files[1..], mode, faults, p);
    }
  }

  /**
   Onto whatever is there: a path the backup has a file for, with nothing in its way and no
   operation on it failing, holds the backup's contents afterwards, in replace mode those of the
   last entry for it. In merge mode that is so where nothing was there, with the first entry, and
   what was there stays.
   */
  lemma BackedUpFilesLand(fs: Fs, b: Backup, mode: Mode, faults: Faults, p: Path)
    requires Works(faults, p) && Clear(fs, p) && NothingInTheWay(b, p)
    ensures
      EntryAt(Restored(fs, b, mode, faults), p)
      == match mode
         case Replace => if LastContents(b.files, p).Some? then Some(File(LastContents(b.files, p).value)) else EntryAt(fs, p)
         case Merge =>
           if p !in fs && FirstContents(b.files, p).Some? then Some(File(FirstContents(b.files, p).value)) else EntryAt(fs, p)
  {
    DirectoriesKeepClear(fs, b.directories, faults, p);
    FilesLand(RestoreDirectories(fs, b.directories, faults), b.files, mode, faults, p);
  }

  /** A folder of the backup is there afterwards, unless making it fails or a file is on the way. */
  lemma {:induction false} BackedUpFolderAppears(fs: Fs, directories: seq<string>, faults: Faults, i: nat, p: Path)
    requires i < |directories| && SafeRelativeSegments(directories[i]) == Safe(p) && p != [] && p !in faults.creates && !FileOnTheWay(fs, p)
    ensures var after := RestoreDirectories(fs, directories, faults); p in after && after[p] == Folder
    decreases |directories|
  {
    var next := RestoreDirectory(fs, directories[0], faults);
    if i == 0 {
      assert p[..|p|] == p;
      assert p in Ancestry(p) && next[p] == Folder;
      RestoreDirectoriesTouch(next, directories[1..], faults, p);
    } else {
      forall n | 0 < n <= |p| ensures !(p[..n] in next && next[p[..n]].File?) {
        RestoreDirectoryTouches(fs, directories[0], faults, p[..n]);
      }
      BackedUpFolderAppears(next, directories[1..], faults, i - 1, p);
    }
  }

  /** Merging changes nothing that was there. */
  lemma MergeChangesNoExistingEntry(fs: Fs, b: Backup, faults: Faults)
    ensures forall p | p in fs :: p in Restored(fs, b, BackupImport.Merge, faults) && Restored(fs, b, BackupImport.Merge, faults)[p] == fs[p]
  {
    forall p | p in fs ensures p in Restored(fs, b, BackupImport.Merge, faults) && Restored(fs, b, BackupImport.Merge, faults)[p] == fs[p] {
      RestoreTouchesOnlyBackedUpPaths(fs, b, BackupImport.Merge, faults, p);
    }
  }

  lemma OnTheWayIsPlain(v: string, p: Path)
    requires OnTheWayTo(v, p)
    ensures p != [] && forall i | 0 <= i < |p| :: PlainName(p[i])
  {
    SafeMeansPlain(v);
  }

  /** Whatever the file claims, every path it makes appear resolves strictly under the root. */
  lemma RestoredPathsStayUnderRoot(fs: Fs, b: Backup, mode: Mode, faults: Faults, p: Path, root: Path)
    requires p in Restored(fs, b, mode, faults) && p !in fs
    ensures root < Resolve(root, p) && Resolve(root, p) == root + p
  {
    RestoreTouchesOnlyBackedUpPaths(fs, b, mode, faults, p);
    var v: string :| OnTheWayTo(v, p);
    OnTheWayIsPlain(v, p);
    PlainStaysUnder(root, p);
  }

  // ---- the round trip -----------------------------------------------------------------

  /** The tree as a file system, without its links. */
  function Flat(l: Listing, at: Path): Fs {
    match l
    case End => map[]
    case Child(name, FileNode(contents), rest) => Flat(rest, at)[at + [name] := File(contents)]
    case Child(name, DirNode(inner), rest) => (Flat(rest, at) + Flat(inner, at + [name]))[at + [name] := Folder]
    case Child(_, LinkNode, rest) => Flat(rest, at)
  }

  predicate Named(l: Listing, name: string) {
    l.Child? && (l.name == name || Named(l.rest, name))
  }

  /** No listing names an entry twice, and names are what a file system allows. */
  predicate Proper(l: Listing) {
    l.Child? ==>
      && l.name != "" && !IsDot(l.name) && '/' !in l.name
      && !Named(l.rest, l.name) && Proper(l.rest) && (l.node.DirNode? ==> Proper(l.node.listing))
  }

  /** Everything in the flat tree lies beneath its place, beside or below a named entry. */
  lemma {:induction false} FlatLies(l: Listing, at: Path)
    ensures forall p | p in Flat(l, at) :: at < p && Named(l, p[|at|])
    decreases l
  {
    if l.Child? {
      FlatLies(l.rest, at);
      if l.node.DirNode? {
        FlatLies(l.node.listing, at + [l.name]);
        forall p | p in Flat(l.node.listing, at + [l.name]) ensures at < p && p[|at|] == l.name {
          assert (at + [l.name])[|at|] == l.name;
        }
      }
    }
  }

  function Above(p: Path, n: nat): Path
    requires n <= |p|
  {
    p[..n]
  }

  /** Between its place and any entry there are only folders of the tree. */
  lemma {:induction false} FlatClosed(l: Listing, at: Path)
    requires Proper(l)
    ensures forall p, n: nat | p in Flat(l, at) && |at| < n < |p| :: Above(p, n) in Flat(l, at) && Flat(l, at)[Above(p, n)] == Folder
    decreases l
  {
    if l.Child? {
      FlatClosed(l.rest, at);
      FlatLies(l.rest, at);
      if l.node.DirNode? {
        var here := at + [l.name];
        FlatClosed(l.node.listing, here);
        FlatLies(l.node.listing, here);
        forall p, n: nat | p in Flat(l, at) && |at| < n < |p| ensures Above(p, n) in Flat(l, at) && Flat(l, at)[Above(p, n)] == Folder {
          if p in Flat(l.node.listing, here) {
            if n == |here| {
              assert Above(p, n) == here;
            }
          } else {
            assert p in Flat(l.rest, at);
            assert Named(l.rest, Above(p, n)[|at|]);
          }
        }
      } else {
        forall p, n: nat | p in Flat(l, at) && |at| < n < |p| ensures Above(p, n) in Flat(l, at) && Flat(l, at)[Above(p, n)] == Folder {
          assert p in Flat(l.rest, at);
          assert Named(l.rest, Above(p, n)[|at|]);
        }
      }
    }
  }

  lemma {:induction false} JoinSnoc(at: Path, name: string)
    requires forall i | 0 <= i < |at| :: at[i] != ""
    ensures Join(at + [name]) == Relative(Join(at), name)
    ensures Join(at) == "" <==> at == []
    decreases |at|
  {
    if at != [] {
      JoinSnoc(at[1..], name);
      assert (at + [name])[1..] == at[1..] + [name];
      if |at| == 1 {
        assert at + [name] == [at[0], name];
      }
    }
  }

  ghost predicate FolderAt(m: Fs, v: string, p: Path) {
    p in m && m[p] == Folder && v == Join(p)
  }

  ghost predicate FileAt(m: Fs, f: FileEntry, p: Path) {
    p in m && m[p] == File(f.contents) && f.relativePath == Join(p)
  }

  /** The lists hold the entries of the file system, each under its joined path, and nothing else. */
  ghost predicate ListsFlat(dirs: seq<string>, files: seq<FileEntry>, m: Fs) {
    && (forall v | v in dirs :: exists p :: FolderAt(m, v, p))
    && (forall f | f in files :: exists p :: FileAt(m, f, p))
    && (forall p | p in m :: if m[p].Folder? then Join(p) in dirs else FileEntry(Join(p), m[p].contents) in files)
  }

  lemma ListsJoin(dirs: seq<string>, files: seq<FileEntry>, m: Fs, dirs': seq<string>, files': seq<FileEntry>, m': Fs)
    requires ListsFlat(dirs, files, m) && ListsFlat(dirs', files', m') && m.Keys !! m'.Keys
    ensures ListsFlat(dirs + dirs', files + files', m + m')
  {
    forall v | v in dirs + dirs' ensures exists p :: FolderAt(m + m', v, p) {
      if v in dirs {
        var p :| FolderAt(m, v, p);
        assert FolderAt(m + m', v, p);
      } else {
        var p :| FolderAt(m', v, p);
        assert FolderAt(m + m', v, p);
      }
    }
    forall f | f in files + files' ensures exists p :: FileAt(m + m', f, p) {
      if f in files {
        var p :| FileAt(m, f, p);
        assert FileAt(m + m', f, p);
      } else {
        var p :| FileAt(m', f, p);
        assert FileAt(m + m', f, p);
      }
    }
  }

  lemma OneFolder(p: Path)
    ensures ListsFlat([Join(p)], [], map[p := Folder])
  {
    assert FolderAt(map[p := Folder], Join(p), p);
  }

  lemma OneFile(p: Path, contents: Bytes)
    ensures ListsFlat([], [FileEntry(Join(p), contents)], map[p := File(contents)])
  {
    assert FileAt(map[p := File(contents)], FileEntry(Join(p), contents), p);
  }

  lemma AddsFile(dirs: seq<string>, files: seq<FileEntry>, m: Fs, p: Path, contents: Bytes)
    requires ListsFlat(dirs, files, m) && p !in m
    ensures ListsFlat(dirs, [FileEntry(Join(p), contents)] + files, m[p := File(contents)])
  {
    OneFile(p, contents);
    ListsJoin([], [FileEntry(Join(p), contents)], map[p := File(contents)], dirs, files, m);
    assert map[p := File(contents)] + m == m[p := File(contents)];
    assert [] + dirs == dirs;
  }

  lemma AddsFolder(dirs: seq<string>, files: seq<FileEntry>, m: Fs, here: Path)
    requires ListsFlat(dirs, files, m) && here !in m
    ensures ListsFlat([Join(here)] + dirs, files, m[here := Folder])
  {
    OneFolder(here);
    ListsJoin([Join(here)], [], map[here := Folder], dirs, files, m);
    assert map[here := Folder] + m == m[here := Folder];
    assert [] + files == files;
  }

  /** What lies below one entry lies apart from its siblings. */
  lemma FlatApart(l: Listing, at: Path)
    requires Proper(l) && l.Child?
    ensures at + [l.name] !in Flat(l.rest, at)
    ensures l.node.DirNode? ==>
              && at + [l.name] !in Flat(l.node.listing, at + [l.name])
              && Flat(l.rest, at).Keys !! Flat(l.node.listing, at + [l.name]).Keys
  {
    var here := at + [l.name];
    assert here[|at|] == l.name;
    FlatLies(l.rest, at);
    if l.node.DirNode? {
      FlatLies(l.node.listing, here);
      forall p | p in Flat(l.node.listing, here) ensures p !in Flat(l.rest, at) {
        assert p[|at|] == here[|at|];
      }
    }
  }

  /** The lists of a folder entry and of its siblings hold the two flat trees together. */
  lemma FolderEntryIsFlat(l: Listing, at: Path)
    requires Proper(l) && l.Child? && l.node.DirNode?
    requires Join(at + [l.name]) == Relative(Join(at), l.name)
    requires ListsFlat(Directories(l.rest, Join(at)), Files(l.rest, Join(at)), Flat(l.rest, at))
    requires var here := at + [l.name];
      ListsFlat(Directories(l.node.listing, Join(here)), Files(l.node.listing, Join(here)), Flat(l.node.listing, here))
    ensures ListsFlat(Directories(l, Join(at)), Files(l, Join(at)), Flat(l, at))
  {
    var here := at + [l.name];
    var dirs, files, below := Directories(l.node.listing, Join(here)), Files(l.node.listing, Join(here)), Flat(l.node.listing, here);
    FlatApart(l, at);
    AddsFolder(dirs, files, below, here);
    ListsJoin([Join(here)] + dirs, files, below[here := Folder], Directories(l.rest, Join(at)), Files(l.rest, Join(at)), Flat(l.rest, at));
    assert below[here := Folder] + Flat(l.rest, at) == Flat(l, at);
  }

  /** The two lists of a tree hold the flat tree. */
  lemma {:induction false} CollectedIsFlat(l: Listing, at: Path)
    requires Proper(l) && forall i | 0 <= i < |at| :: at[i] != ""
    ensures ListsFlat(Directories(l, Join(at)), Files(l, Join(at)), Flat(l, at))
    decreases l
  {
    if l.Child? {
      CollectedIsFlat(l.rest, at);
      JoinSnoc(at, l.name);
      if l.node.FileNode? {
        FlatApart(l, at);
        AddsFile(Directories(l.rest, Join(at)), Files(l.rest, Join(at)), Flat(l.rest, at), at + [l.name], l.node.contents);
      } else if l.node.DirNode? {
        CollectedIsFlat(l.node.listing, at + [l.name]);
        FolderEntryIsFlat(l, at);
      }
    }
  }

  // ---- restoring the lists ------------------------------------------------------------

  const NONE := Faults({}, {})

  ghost predicate Within(fs: Fs, m: Fs) {
    forall p | p in fs :: p in m && fs[p] == m[p]
  }

  /** A file system whose folders are there for everything they hold. */
  ghost predicate Closed(m: Fs) {
    && [] !in m
    && forall p, n: nat | p in m && 0 < n < |p| :: Above(p, n) in m && m[Above(p, n)] == Folder
  }

  lemma CreateWithin(fs: Fs, m: Fs, p: Path)
    requires Closed(m) && Within(fs, m) && (p == [] || (p in m && m[p] == Folder))
    ensures var r := CreateDirectory(fs, p, NONE);
      r.Some? && Within(r.value, m) && fs.Keys <= r.value.Keys && (p != [] ==> p in r.value)
  {
    assert p[..|p|] == p;
    forall n | 0 < n <= |p| ensures p[..n] in m && m[p[..n]] == Folder {
      if n < |p| {
        assert Above(p, n) == p[..n];
      }
    }
    if p != [] {
      assert p in Ancestry(p);
    }
  }

  ghost predicate SafeJoin(p: Path) {
    SafeRelativeSegments(Join(p)) == Safe(p)
  }

  ghost predicate FolderBack(m: Fs, v: string, p: Path) {
    FolderAt(m, v, p) && SafeJoin(p)
  }

  ghost predicate FileBack(m: Fs, f: FileEntry, p: Path) {
    FileAt(m, f, p) && SafeJoin(p)
  }

  lemma {:induction false} FoldersReturn(fs: Fs, dirs: seq<string>, m: Fs)
    requires Closed(m) && Within(fs, m)
    requires forall v | v in dirs :: exists p :: FolderBack(m, v, p)
    ensures var after := RestoreDirectories(fs, dirs, NONE);
      && Within(after, m) && fs.Keys <= after.Keys
      && forall p | p in m && SafeJoin(p) && Join(p) in dirs :: p in after
    decreases |dirs|
  {
    if dirs != [] {
      assert dirs == [dirs[0]] + dirs[1..];
      assert forall x | x in dirs[1..] :: x in dirs;
      assert dirs[0] in dirs;
      var p :| FolderBack(m, dirs[0], p);
      CreateWithin(fs, m, p);
      FoldersReturn(RestoreDirectory(fs, dirs[0], NONE), dirs[1..], m);
      forall q | q in m && SafeJoin(q) && Join(q) == dirs[0] ensures q == p {
      }
    }
  }

  lemma FileReturns(fs: Fs, f: FileEntry, m: Fs, mode: Mode, p: Path)
    requires Closed(m) && Within(fs, m) && FileAt(m, f, p) && SafeJoin(p)
    ensures var after := RestoreFile(fs, f, mode, NONE);
      Within(after, m) && fs.Keys <= after.Keys && p in after
  {
    if mode.Replace? || p !in fs {
      var dir := p[..|p| - 1];
      if dir != [] {
        assert Above(p, |dir|) == dir;
      }
      CreateWithin(fs, m, dir);
    }
  }

  lemma {:induction false} FilesReturn(fs: Fs, files: seq<FileEntry>, m: Fs, mode: Mode)
    requires Closed(m) && Within(fs, m)
    requires forall f | f in files :: exists p :: FileBack(m, f, p)
    ensures var after := RestoreFiles(fs, files, mode, NONE);
      && Within(after, m) && fs.Keys <= after.Keys
      && forall p, c | p in m && SafeJoin(p) && FileEntry(Join(p), c) in files :: p in after
    decreases |files|
  {
    if files != [] {
      assert files == [files[0]] + files[1..];
      assert forall x | x in files[1..] :: x in files;
      assert files[0] in files;
      var p :| FileBack(m, files[0], p);
      FileReturns(fs, files[0], m, mode, p);
      FilesReturn(RestoreFile(fs, files[0], mode, NONE), files[1..], m, mode);
      forall q, c | q in m && SafeJoin(q) && FileEntry(Join(q), c) == files[0] ensures q == p {
      }
    }
  }

  /** A path that begins like a drive is never made: the check has refused it. */
  lemma NeverDriveLike(v: string, p: Path)
    requires OnTheWayTo(v, p)
    ensures !DriveLike(p)
  {
    var s := Slashed(v);
    var pieces := Split(s);
    SplitStarts(s);
    assert NonEmpty(pieces) == [pieces[0]] + NonEmpty(pieces[1..]);
    if |pieces| == 1 {
      assert NonEmpty(pieces) == [pieces[0]];
    }
  }

  lemma {:induction false} SplitStarts(s: string)
    ensures Split(s)[0] <= s
    ensures |Split(s)| > 1 ==> |Split(s)[0]| < |s| && s[|Split(s)[0]|] == '/'
    ensures |s| > 0 && s[0] != '/' ==> Split(s)[0] != ""
    decreases |s|
  {
    if s != "" {
      SplitStarts(s[1..]);
    }
  }

  /**
   Collecting a folder and restoring it into an empty one gives back the same tree without its
   links, in either mode, exactly when every path in it is made of plain names and none begins
   like a drive.
   */
  lemma FolderRoundTrip(l: Listing, mode: Mode)
    requires Proper(l)
    ensures Restored(map[], Collected(l), mode, NONE) == Flat(l, [])
            <==> forall p | p in Flat(l, []) :: (forall i | 0 <= i < |p| :: PlainName(p[i])) && !DriveLike(p)
  {
    var m, b := Flat(l, []), Collected(l);
    var after := Restored(map[], b, mode, NONE);
    FlatListed(l, []);
    if forall p | p in m :: (forall i | 0 <= i < |p| :: PlainName(p[i])) && !DriveLike(p) {
      forall p | p in m ensures SafeJoin(p) {
        PathSurvives(p);
      }
      FlatReturns(l, mode);
    }
    if after == m {
      forall p | p in m ensures (forall i | 0 <= i < |p| :: PlainName(p[i])) && !DriveLike(p) {
        RestoreTouchesOnlyBackedUpPaths(map[], b, mode, NONE, p);
        var v: string :| OnTheWayTo(v, p);
        OnTheWayIsPlain(v, p);
        NeverDriveLike(v, p);
      }
    }
  }

  /** Every path of a proper tree is one a listing can produce. */
  lemma {:induction false} FlatListed(l: Listing, at: Path)
    requires Proper(l) && (at == [] || Listed(at))
    ensures forall p | p in Flat(l, at) :: Listed(p)
    decreases l
  {
    if l.Child? {
      FlatListed(l.rest, at);
      if l.node.DirNode? {
        FlatListed(l.node.listing, at + [l.name]);
      }
    }
  }

  /** Lists that hold a closed file system of safe paths restore it. */
  lemma ListsReturn(dirs: seq<string>, files: seq<FileEntry>, m: Fs, mode: Mode)
    requires Closed(m) && ListsFlat(dirs, files, m) && forall p | p in m :: SafeJoin(p)
    ensures Restored(map[], Backup(dirs, files), mode, NONE) == m
  {
    forall v | v in dirs ensures exists p :: FolderBack(m, v, p) {
      var p :| FolderAt(m, v, p);
      assert FolderBack(m, v, p);
    }
    forall f | f in files ensures exists p :: FileBack(m, f, p) {
      var p :| FileAt(m, f, p);
      assert FileBack(m, f, p);
    }
    FoldersReturn(map[], dirs, m);
    var mid := RestoreDirectories(map[], dirs, NONE);
    FilesReturn(mid, files, m, mode);
    var after := RestoreFiles(mid, files, mode, NONE);
    forall p | p in m ensures p in after {
      assert if m[p].Folder? then p in mid else FileEntry(Join(p), m[p].contents) in files;
    }
  }

  lemma FlatReturns(l: Listing, mode: Mode)
    requires Proper(l) && forall p | p in Flat(l, []) :: SafeJoin(p)
    ensures Restored(map[], Collected(l), mode, NONE) == Flat(l, [])
  {
    CollectedIsFlat(l, []);
    FlatClosed(l, []);
    FlatLies(l, []);
    ListsReturn(Directories(l, ""), Files(l, ""), Flat(l, []), mode);
  }
}
