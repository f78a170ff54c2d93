/** Paths as text with slashes, and as lists of names. */
module Segments {
  type Path = seq<string>

  function Join(segments: Path): string {
    if segments == [] then ""
    else if |segments| == 1 then segments[0]
    else segments[0] + "/" + Join(segments[1..])
  }

  /** `split("/")`: never empty, and empty pieces are kept. */
  function Split(s: string): (r: Path)
    ensures r != []
  {
    if s == "" then [""]
    else
      var rest := Split(s[1..]);
      if s[0] == '/' then [""] + rest else [[s[0]] + rest[0]] + rest[1..]
  }

  function NonEmpty(segments: Path): Path {
    if segments == [] then []
    else (if segments[0] == "" then [] else [segments[0]]) + NonEmpty(segments[1..])
  }

  lemma {:induction false} SplitPieces(s: string)
    ensures forall i | 0 <= i < |Split(s)| :: '/' !in Split(s)[i] && forall c | c in Split(s)[i] :: c in s
    decreases |s|
  {
    if s != "" {
      SplitPieces(s[1..]);
      var rest := Split(s[1..]);
      forall i | 0 <= i < |Split(s)| ensures '/' !in Split(s)[i] && forall c | c in Split(s)[i] :: c in s {
        if s[0] == '/' {
          assert i > 0 ==> Split(s)[i] == rest[i - 1];
        } else {
          assert Split(s)[i] == if i == 0 then [s[0]] + rest[0] else rest[i];
        }
      }
    }
  }

  lemma {:induction false} NonEmptyPieces(segments: Path)
    ensures forall x :: x in NonEmpty(segments) <==> x in segments && x != ""
    decreases |segments|
  {
    if segments != [] {
      assert segments == [segments[0]] + segments[1..];
      NonEmptyPieces(segments[1..]);
    }
  }

  lemma {:induction false} SplitPrefix(name: string, s: string)
    requires '/' !in name
    ensures Split(name + "/" + s) == [name] + Split(s)
    decreases |name|
  {
    if name == "" {
      assert (name + "/" + s)[1..] == s;
    } else {
      assert (name + "/" + s)[1..] == name[1..] + "/" + s;
      SplitPrefix(name[1..], s);
      assert [name[0]] + name[1..] == name;
    }
  }

  lemma {:induction false} SplitWhole(name: string)
    requires '/' !in name
    ensures Split(name) == [name]
    decreases |name|
  {
    if name != "" {
      SplitWhole(name[1..]);
      assert [name[0]] + name[1..] == name;
    }
  }

  lemma {:induction false} SplitJoin(segments: Path)
    requires segments != [] && forall i | 0 <= i < |segments| :: '/' !in segments[i]
    ensures Split(Join(segments)) == segments
    decreases |segments|
  {
    if |segments| == 1 {
      SplitWhole(segments[0]);
    } else {
      SplitJoin(segments[1..]);
      SplitPrefix(segments[0], Join(segments[1..]));
    }
  }

  lemma {:induction false} NothingEmpty(segments: Path)
    requires forall i | 0 <= i < |segments| :: segments[i] != ""
    ensures NonEmpty(segments) == segments
    decreases |segments|
  {
    if segments != [] {
      NothingEmpty(segments[1..]);
    }
  }
}
