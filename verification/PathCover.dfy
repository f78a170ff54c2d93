/**
 Reducing a selection of remote paths to the fewest that cover it, so nothing is downloaded or
 deleted twice.
 */
module PathCover {
  import opened FolderPaths

  datatype Entry = Entry(serverId: string, remotePath: string)

  /** The entry is the other, or lies inside it; a deletion also asks for the same server. */
  predicate Covers(holder: Entry, item: Entry, perServer: bool) {
    IsDescendantOrSelf(item.remotePath, holder.remotePath) && (perServer ==> holder.serverId == item.serverId)
  }

  predicate Covered(item: Entry, kept: seq<Entry>, perServer: bool) {
    exists i :: 0 <= i < |kept| && Covers(kept[i], item, perServer)
  }

  /** The sort puts a folder before everything in it. */
  ghost predicate FoldersFirst(sorted: seq<Entry>) {
    forall i, j | 0 <= i < j < |sorted| ::
      IsDescendantOrSelf(sorted[i].remotePath, sorted[j].remotePath) ==> sorted[i].remotePath == sorted[j].remotePath
  }

  lemma UnderIsTransitive(x: string, y: string, z: string)
    requires IsDescendantOrSelf(x, y) && IsDescendantOrSelf(y, z)
    ensures IsDescendantOrSelf(x, z)
    ensures IsDescendantOrSelf(z, x) ==> x == z
  {
  }

  /** The loop so far: what is kept, and where in the sorted list it came from. */
  ghost predicate KeptInOrder(sorted: seq<Entry>, k: nat, result: seq<Entry>, at: seq<nat>, perServer: bool)
    requires k <= |sorted|
  {
    && |at| == |result|
    && (forall i | 0 <= i < |result| :: at[i] < k && sorted[at[i]] == result[i])
    && (forall i, j | 0 <= i < j < |result| :: at[i] < at[j])
    && (forall i, j | 0 <= i < j < |result| :: !Covers(result[i], result[j], perServer))
    && (forall i | 0 <= i < k :: Covered(sorted[i], result, perServer))
  }

  lemma CoveredByMore(item: Entry, kept: seq<Entry>, more: Entry, perServer: bool)
    ensures Covered(item, kept + [more], perServer) <==> Covered(item, kept, perServer) || Covers(more, item, perServer)
  {
    var all := kept + [more];
    if Covered(item, kept, perServer) {
      var i :| 0 <= i < |kept| && Covers(kept[i], item, perServer);
      assert all[i] == kept[i];
    }
    if Covers(more, item, perServer) {
      assert all[|kept|] == more;
    }
  }

  lemma PassOneMore(sorted: seq<Entry>, k: nat, result: seq<Entry>, at: seq<nat>, perServer: bool)
    requires k < |sorted| && KeptInOrder(sorted, k, result, at, perServer) && Covered(sorted[k], result, perServer)
    ensures KeptInOrder(sorted, k + 1, result, at, perServer)
  {
  }

  lemma AllCovered(sorted: seq<Entry>, result: seq<Entry>, at: seq<nat>, perServer: bool)
    requires KeptInOrder(sorted, |sorted|, result, at, perServer)
    ensures forall r | r in result :: r in sorted
    ensures forall i | 0 <= i < |sorted| :: Covered(sorted[i], result, perServer)
  {
    forall r | r in result ensures r in sorted {
      var i :| 0 <= i < |result| && result[i] == r;
      assert sorted[at[i]] == r;
    }
  }

  lemma KeepOneMore(sorted: seq<Entry>, k: nat, result: seq<Entry>, at: seq<nat>, perServer: bool)
    requires k < |sorted| && KeptInOrder(sorted, k, result, at, perServer) && !Covered(sorted[k], result, perServer)
    ensures KeptInOrder(sorted, k + 1, result + [sorted[k]], at + [k], perServer)
  {
    var more, at' := result + [sorted[k]], at + [k];
    forall i | 0 <= i < k + 1 ensures Covered(sorted[i], more, perServer) {
      CoveredByMore(sorted[i], result, sorted[k], perServer);
    }
    forall i, j | 0 <= i < j < |more| ensures !Covers(more[i], more[j], perServer) && at'[i] < at'[j] {
      if j < |result| {
        assert more[i] == result[i] && more[j] == result[j] && at'[i] == at[i] && at'[j] == at[j];
      } else {
        assert more[i] == result[i] && more[j] == sorted[k] && at'[i] == at[i] && at'[j] == k;
      }
    }
    forall i | 0 <= i < |more| ensures at'[i] < k + 1 && sorted[at'[i]] == more[i] {
      if i < |result| {
        assert more[i] == result[i] && at'[i] == at[i];
      }
    }
  }

  /** Nothing kept covers anything else kept. */
  ghost predicate Antichain(result: seq<Entry>, perServer: bool) {
    forall i, j | 0 <= i < |result| && 0 <= j < |result| && i != j :: !Covers(result[i], result[j], perServer)
  }

  /** Nothing selected contains anything kept. */
  ghost predicate Outermost(sorted: seq<Entry>, result: seq<Entry>, perServer: bool) {
    forall r, s | r in result && s in sorted && Covers(s, r, perServer) :: s.remotePath == r.remotePath
  }

  /**
   `dedupeDownloadItems` and `dedupeDeleteItems` after the sort. The result covers the whole
   selection, holds no two entries of which one covers the other, and keeps only entries that
   nothing else in the selection contains.
   */
  method Dedupe(sorted: seq<Entry>, perServer: bool) returns (result: seq<Entry>)
    requires FoldersFirst(sorted)
    ensures forall r | r in result :: r in sorted
    ensures forall i | 0 <= i < |sorted| :: Covered(sorted[i], result, perServer)
    ensures Antichain(result, perServer) && Outermost(sorted, result, perServer)
  {
    result := [];
    ghost var at: seq<nat> := [];
    var k := 0;
    while k < |sorted|
      invariant 0 <= k <= |sorted| && KeptInOrder(sorted, k, result, at, perServer)
    {
      if Covered(sorted[k], result, perServer) {
        PassOneMore(sorted, k, result, at, perServer);
      } else {
        KeepOneMore(sorted, k, result, at, perServer);
        result := result + [sorted[k]];
        at := at + [k];
      }
      k := k + 1;
    }
    AllCovered(sorted, result, at, perServer);
    KeptIsAntichain(sorted, result, at, perServer);
    NothingContainsKept(sorted, result, at, perServer);
  }

  lemma KeptIsAntichain(sorted: seq<Entry>, result: seq<Entry>, at: seq<nat>, perServer: bool)
    requires FoldersFirst(sorted) && KeptInOrder(sorted, |sorted|, result, at, perServer)
    ensures Antichain(result, perServer)
  {
    forall i, j | 0 <= i < |result| && 0 <= j < |result| && i != j ensures !Covers(result[i], result[j], perServer) {
      if j < i {
        assert at[j] < at[i] && !Covers(result[j], result[i], perServer);
        assert IsDescendantOrSelf(sorted[at[j]].remotePath, sorted[at[i]].remotePath)
          ==> sorted[at[j]].remotePath == sorted[at[i]].remotePath;
      }
    }
  }

  lemma NothingContainsKept(sorted: seq<Entry>, result: seq<Entry>, at: seq<nat>, perServer: bool)
    requires KeptInOrder(sorted, |sorted|, result, at, perServer) && Antichain(result, perServer)
    ensures Outermost(sorted, result, perServer)
  {
    forall r, s | r in result && s in sorted && Covers(s, r, perServer) ensures s.remotePath == r.remotePath {
      var i :| 0 <= i < |result| && result[i] == r;
      var k :| 0 <= k < |sorted| && sorted[k] == s;
      var j :| 0 <= j < |result| && Covers(result[j], sorted[k], perServer);
      UnderIsTransitive(r.remotePath, s.remotePath, result[j].remotePath);
      assert Covers(result[j], result[i], perServer);
    }
  }
}
