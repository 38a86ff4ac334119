/** The profile home directory, seen as the sequence of its file names in the
    order Directory.GetFiles enumerates them. */
module FileSystem {

  /** No two entries of a directory carry the same name. */
  predicate Distinct(names: seq<string>)
  {
    forall i, j :: 0 <= i < j < |names| ==> names[i] != names[j]
  }

  /** Position of the first entry called `name`. */
  function IndexOf(names: seq<string>, name: string): (i: nat)
    requires name in names
    ensures i < |names| && names[i] == name
    ensures name !in names[..i]
  {
    if names[0] == name then 0
    else
      assert names == [names[0]] + names[1..];
      var k := IndexOf(names[1..], name);
      assert names[..k + 1] == [names[0]] + names[1..][..k];
      k + 1
  }

  /** File.Delete: the directory without the entry called `name`; a name that
      is not there leaves the directory as it is. */
  function DeleteFile(names: seq<string>, name: string): (r: seq<string>)
    ensures name !in names ==> r == names
    ensures name in names ==> |r| == |names| - 1
  {
    if names == [] then []
    else if names[0] == name then names[1..]
    else [names[0]] + DeleteFile(names[1..], name)
  }

  /** The deletion takes out exactly the first entry called `name`. */
  lemma {:induction false} DeleteFileAt(names: seq<string>, name: string)
    requires name in names
    ensures DeleteFile(names, name) == names[..IndexOf(names, name)] + names[IndexOf(names, name) + 1..]
  {
    if names[0] != name {
      DeleteFileAt(names[1..], name);
      var k := IndexOf(names[1..], name);
      assert IndexOf(names, name) == k + 1;
      assert names[..k + 1] == [names[0]] + names[1..][..k];
      assert names[k + 2..] == names[1..][k + 1..];
    }
  }

  /** The tail of a directory of distinct names is one too, without its head. */
  lemma DistinctTail(names: seq<string>)
    requires Distinct(names) && names != []
    ensures Distinct(names[1..]) && names[0] !in names[1..]
  {
    var tail := names[1..];
    forall a, b | 0 <= a < b < |tail| ensures tail[a] != tail[b] {
      assert tail[a] == names[a + 1] && tail[b] == names[b + 1];
    }
    forall k | 0 <= k < |tail| ensures tail[k] != names[0] {
      assert tail[k] == names[k + 1];
    }
  }

  /** Deleting from a directory keeps its names distinct, and takes away the
      deleted name and no other. */
  lemma {:induction false} DeleteFileKeepsOthers(names: seq<string>, name: string)
    requires Distinct(names)
    ensures Distinct(DeleteFile(names, name))
    ensures forall x :: x in DeleteFile(names, name) <==> x in names && x != name
  {
    if names != [] {
      var tail := names[1..];
      DistinctTail(names);
      assert names == [names[0]] + tail;
      if names[0] != name {
        DeleteFileKeepsOthers(tail, name);
        var rest := DeleteFile(tail, name);
        var r := DeleteFile(names, name);
        assert r == [names[0]] + rest;
        forall a, b | 0 <= a < b < |r| ensures r[a] != r[b] {
          assert r[b] == rest[b - 1];
          if a > 0 {
            assert r[a] == rest[a - 1];
          }
        }
      }
    }
  }
}
