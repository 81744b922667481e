/** The result set of a scan (type searchResult and its method add). */
module Results {
  import opened Text

  /** One collected file or directory (type resultEntry). The size is kept in
      bytes; directories are recorded with size 0. */
  datatype Entry = Entry(path: string, size: nat, isDir: bool)

  /** Number of entries that are files, i.e. not directories. */
  function FileCount(s: seq<Entry>): nat {
    if s == [] then 0
    else FileCount(s[..|s| - 1]) + (if s[|s| - 1].isDir then 0 else 1)
  }

  lemma {:induction false} FileCountAppend(a: seq<Entry>, b: seq<Entry>)
    ensures FileCount(a + b) == FileCount(a) + FileCount(b)
    decreases |b|
  {
    if b == [] {
      assert a + b == a;
    } else {
      assert (a + b)[..|a + b| - 1] == a + b[..|b| - 1];
      FileCountAppend(a, b[..|b| - 1]);
    }
  }

  /** The file count never exceeds the number of entries, and equals it
      exactly when no entry is a directory. */
  lemma {:induction false} FileCountBound(s: seq<Entry>)
    ensures FileCount(s) <= |s|
    ensures FileCount(s) == |s| <==> forall i :: 0 <= i < |s| ==> !s[i].isDir
  {
    if s != [] {
      FileCountBound(s[..|s| - 1]);
      assert forall i :: 0 <= i < |s| - 1 ==> s[..|s| - 1][i] == s[i];
    }
  }

  /** The shared, append-only result set. The invariant Valid() is the one the
      source keeps by hand: count is the number of file entries of content. */
  class SearchResult {
    var content: seq<Entry>
    var count: int

    ghost predicate Valid()
      reads this
    {
      count == FileCount(content)
    }

    /** &searchResult{}: no entries, count 0. */
    constructor ()
      ensures Valid()
      ensures content == [] && count == 0
    {
      content := [];
      count := 0;
    }

    /** add: appends exactly one entry after the existing ones and counts it
        when it is a file. */
    method Add(path: string, size: nat, isDir: bool)
      requires Valid()
      modifies this
      ensures Valid()
      ensures content == old(content) + [Entry(path, size, isDir)]
      ensures count == old(count) + (if isDir then 0 else 1)
    {
      if !isDir {
        count := count + 1;
      }
      content := content + [Entry(path, size, isDir)];
      assert content[..|content| - 1] == old(content);
    }
  }
}
