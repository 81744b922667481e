/** One export request of the interactive loop in main: filter the collected
    entries by a follow-up keyword, write a listing, route playable files to a
    playlist and report unknown extensions. Output files become sequences of
    lines. */
module Export {
  import opened Text
  import opened Matcher
  import opened Results

  datatype Option<T> = None | Some(value: T)

  /** A listing line: a bare directory path, or a file path with its size. */
  datatype Line = DirLine(path: string) | FileLine(path: string, size: nat)

  /** An empty keyword reuses the search term the scan was started with. */
  function ExportKeyword(input: string, searchTerm: string): (r: string)
    ensures r == input || r == searchTerm
    ensures input != [] ==> r == input
    ensures r == [] <==> input == [] && searchTerm == []
  {
    if |input| == 0 then searchTerm else input
  }

  /** The lower-cased text after the last '.' of the path, if it has a '.'. */
  function Extension(path: string): Option<string> {
    var dot := LastIndex(path, '.');
    if dot < 0 then None else Some(Lower(path[dot + 1..]))
  }

  /** A path has an extension exactly when it contains a '.'; the extension is
      the lower-cased text that follows the last '.', and contains no '.'. */
  lemma ExtensionAfterLastDot(path: string)
    ensures Extension(path).None? <==> '.' !in path
    ensures Extension(path).Some? ==>
      var ext := Extension(path).value;
      |ext| < |path| && path[|path| - |ext| - 1] == '.' &&
      '.' !in path[|path| - |ext|..] && ext == Lower(path[|path| - |ext|..])
  {
    var dot := LastIndex(path, '.');
    if 0 <= dot {
      assert path[dot + 1..] == path[|path| - |Lower(path[dot + 1..])|..];
    }
  }

  /** Whatever comes before the last '.', the extension is the lower-cased
      text after it. */
  lemma ExtensionOf(stem: string, ext: string)
    requires '.' !in ext
    ensures Extension(stem + "." + ext) == Some(Lower(ext))
  {
    LastIndexOfLast(stem, '.', ext);
    assert (stem + "." + ext)[|stem| + 1..] == ext;
  }

  /** Entry i passes the export filter: its whole path contains the keyword. */
  predicate Selected(c: seq<Entry>, kw: string, i: nat)
    requires i < |c|
  {
    IsMatch(c[i].path, kw, []).matched
  }

  /** Entry i is a selected directory whose line is kept: it is the last entry,
      or the next entry's path does not start with its path. */
  predicate DirListed(c: seq<Entry>, kw: string, i: nat)
    requires i < |c|
  {
    c[i].isDir && Selected(c, kw, i) && (i == |c| - 1 || !IsPrefix(c[i].path, c[i + 1].path))
  }

  /** Entry i is a selected file whose extension is playable. */
  predicate PlayableFile(c: seq<Entry>, kw: string, playable: set<string>, i: nat)
    requires i < |c|
  {
    !c[i].isDir && Selected(c, kw, i) && Extension(c[i].path).Some? && Extension(c[i].path).value in playable
  }

  /** Entry i is a selected file whose extension is in neither table. */
  predicate UnknownFile(c: seq<Entry>, kw: string, playable: set<string>, unplayable: set<string>, i: nat)
    requires i < |c|
  {
    !c[i].isDir && Selected(c, kw, i) && Extension(c[i].path).Some? &&
    Extension(c[i].path).value !in playable && Extension(c[i].path).value !in unplayable
  }

  /** The listing lines written for entry i. */
  function LineAt(c: seq<Entry>, kw: string, i: nat): seq<Line>
    requires i < |c|
  {
    if !Selected(c, kw, i) then []
    else if c[i].isDir then
      if i == |c| - 1 || !IsPrefix(c[i].path, c[i + 1].path) then [DirLine(c[i].path)] else []
    else [FileLine(c[i].path, c[i].size)]
  }

  /** The playlist lines written for entry i. */
  function PlayAt(c: seq<Entry>, kw: string, playable: set<string>, i: nat): seq<string>
    requires i < |c|
  {
    if !Selected(c, kw, i) || c[i].isDir then []
    else
      match Extension(c[i].path)
      case None => []
      case Some(ext) => if ext in playable then [c[i].path] else []
  }

  /** The "unknown ext" warnings printed for entry i. */
  function UnknownAt(c: seq<Entry>, kw: string, playable: set<string>, unplayable: set<string>, i: nat): seq<string>
    requires i < |c|
  {
    if !Selected(c, kw, i) || c[i].isDir then []
    else
      match Extension(c[i].path)
      case None => []
      case Some(ext) => if ext in playable || ext in unplayable then [] else [c[i].path]
  }

  /** Listing lines for the first n entries. */
  function Listing(c: seq<Entry>, kw: string, n: nat): seq<Line>
    requires n <= |c|
  {
    if n == 0 then [] else Listing(c, kw, n - 1) + LineAt(c, kw, n - 1)
  }

  /** Playlist lines for the first n entries. */
  function Playlist(c: seq<Entry>, kw: string, playable: set<string>, n: nat): seq<string>
    requires n <= |c|
  {
    if n == 0 then [] else Playlist(c, kw, playable, n - 1) + PlayAt(c, kw, playable, n - 1)
  }

  /** Unknown-extension warnings for the first n entries. */
  function Unknown(c: seq<Entry>, kw: string, playable: set<string>, unplayable: set<string>, n: nat): seq<string>
    requires n <= |c|
  {
    if n == 0 then [] else Unknown(c, kw, playable, unplayable, n - 1) + UnknownAt(c, kw, playable, unplayable, n - 1)
  }

  /** The export loop of main for one keyword typed by the user (input), with
      content the collected entries and searchTerm the original search term. */
  method RunExport(content: seq<Entry>, input: string, searchTerm: string,
                   playable: set<string>, unplayable: set<string>)
    returns (listing: seq<Line>, playlist: seq<string>, unknown: seq<string>)
    ensures var kw := Lower(ExportKeyword(input, searchTerm));
      listing == Listing(content, kw, |content|) &&
      playlist == Playlist(content, kw, playable, |content|) &&
      unknown == Unknown(content, kw, playable, unplayable, |content|)
  {
    var keyword := input;
    if |keyword| == 0 {
      keyword := searchTerm;
    }
    var kw := Lower(keyword);
    listing, playlist, unknown := [], [], [];
    for i := 0 to |content|
      invariant listing == Listing(content, kw, i)
      invariant playlist == Playlist(content, kw, playable, i)
      invariant unknown == Unknown(content, kw, playable, unplayable, i)
    {
      var line, play, warn := ExportEntry(content, kw, i, playable, unplayable);
      listing, playlist, unknown := listing + line, playlist + play, unknown + warn;
    }
  }

  /** The body of the export loop for entry i: the listing line, playlist line
      and warning it writes, each empty or a single line. */
  method ExportEntry(content: seq<Entry>, kw: string, i: nat, playable: set<string>, unplayable: set<string>)
    returns (line: seq<Line>, play: seq<string>, warn: seq<string>)
    requires i < |content|
    ensures line == LineAt(content, kw, i)
    ensures play == PlayAt(content, kw, playable, i)
    ensures warn == UnknownAt(content, kw, playable, unplayable, i)
  {
    line, play, warn := [], [], [];
    var s := content[i];
    var path := s.path;
    if IsMatch(path, kw, []).matched {
      assert Selected(content, kw, i);
      if s.isDir {
        if i == |content| - 1 || !IsPrefix(s.path, content[i + 1].path) {
          line := [DirLine(path)];
        }
      } else {
        line := [FileLine(path, s.size)];
        var dotIndex := LastIndex(path, '.');
        assert Extension(path) == if dotIndex < 0 then None else Some(Lower(path[dotIndex + 1..]));
        if dotIndex >= 0 {
          var ext := Lower(path[dotIndex + 1..]);
          if ext in playable {
            play := [path];
          } else if ext in unplayable {
          } else {
            warn := [path];
          }
        }
      }
    } else {
      assert !Selected(content, kw, i);
    }
  }

  // ---------------------------------------------------------------------------
  // What the written lines are

  /** The file lines of a listing, in order. */
  function FileLines(ls: seq<Line>): seq<Line> {
    if ls == [] then []
    else FileLines(ls[..|ls| - 1]) + (if ls[|ls| - 1].FileLine? then [ls[|ls| - 1]] else [])
  }

  lemma {:induction false} FileLinesAppend(a: seq<Line>, b: seq<Line>)
    ensures FileLines(a + b) == FileLines(a) + FileLines(b)
    decreases |b|
  {
    if b == [] {
      assert a + b == a;
    } else {
      assert (a + b)[..|a + b| - 1] == a + b[..|b| - 1];
      FileLinesAppend(a, b[..|b| - 1]);
    }
  }

  /** One line per file entry whose path contains kw, in the entries' order. */
  function MatchedFiles(c: seq<Entry>, kw: string): seq<Line> {
    if c == [] then []
    else
      var e := c[|c| - 1];
      MatchedFiles(c[..|c| - 1], kw) +
      (if !e.isDir && Contains(Lower(e.path), kw) then [FileLine(e.path, e.size)] else [])
  }

  /** Every matching file gets exactly one listing line, non-matching entries
      get none, and the file lines keep the order of the result set. */
  lemma {:induction false} ListingFileLines(c: seq<Entry>, kw: string, n: nat)
    requires n <= |c|
    ensures FileLines(Listing(c, kw, n)) == MatchedFiles(c[..n], kw)
    decreases n
  {
    if n > 0 {
      ListingFileLines(c, kw, n - 1);
      FileLinesAppend(Listing(c, kw, n - 1), LineAt(c, kw, n - 1));
      MatchedFilesStep(c, kw, n);
      LineAtFileLines(c, kw, n - 1);
    }
  }

  /** The file lines entry i contributes: one exactly when it is a matching
      file. */
  lemma LineAtFileLines(c: seq<Entry>, kw: string, i: nat)
    requires i < |c|
    ensures FileLines(LineAt(c, kw, i)) ==
      if !c[i].isDir && Contains(Lower(c[i].path), kw) then [FileLine(c[i].path, c[i].size)] else []
  {
    if c[i].isDir {
      assert FileLines(LineAt(c, kw, i)) == [];
    } else {
      assert FileLines(LineAt(c, kw, i)) == LineAt(c, kw, i);
    }
  }

  lemma MatchedFilesStep(c: seq<Entry>, kw: string, n: nat)
    requires 0 < n <= |c|
    ensures MatchedFiles(c[..n], kw) == MatchedFiles(c[..n - 1], kw) +
      if !c[n - 1].isDir && Contains(Lower(c[n - 1].path), kw) then [FileLine(c[n - 1].path, c[n - 1].size)] else []
  {
    assert c[..n][..n - 1] == c[..n - 1];
    assert c[..n][n - 1] == c[n - 1];
  }

  /** A directory line is written for path p exactly when some matching
      directory entry with that path is the last entry, or is followed by an
      entry whose path does not start with p. */
  lemma {:induction false} DirLineIff(c: seq<Entry>, kw: string, n: nat, p: string)
    requires n <= |c|
    ensures DirLine(p) in Listing(c, kw, n) <==> exists i :: 0 <= i < n && DirListed(c, kw, i) && c[i].path == p
    decreases n
  {
    if n > 0 {
      DirLineIff(c, kw, n - 1, p);
      if DirLine(p) in LineAt(c, kw, n - 1) {
        assert DirListed(c, kw, n - 1) && c[n - 1].path == p;
      }
    }
  }

  /** A path goes to the playlist exactly when some selected file entry has
      that path and an extension in the playable table. */
  lemma {:induction false} PlaylistIff(c: seq<Entry>, kw: string, playable: set<string>, n: nat, p: string)
    requires n <= |c|
    ensures p in Playlist(c, kw, playable, n) <==> exists i :: 0 <= i < n && PlayableFile(c, kw, playable, i) && c[i].path == p
    decreases n
  {
    if n > 0 {
      var before, here := Playlist(c, kw, playable, n - 1), PlayAt(c, kw, playable, n - 1);
      assert Playlist(c, kw, playable, n) == before + here;
      PlaylistIff(c, kw, playable, n - 1, p);
      PlayAtIff(c, kw, playable, n - 1, p);
      if p in before {
        var i :| 0 <= i < n - 1 && PlayableFile(c, kw, playable, i) && c[i].path == p;
        assert 0 <= i < n && PlayableFile(c, kw, playable, i) && c[i].path == p;
      } else if p in here {
        assert 0 <= n - 1 < n && PlayableFile(c, kw, playable, n - 1) && c[n - 1].path == p;
      }
      if exists i :: 0 <= i < n && PlayableFile(c, kw, playable, i) && c[i].path == p {
        var i :| 0 <= i < n && PlayableFile(c, kw, playable, i) && c[i].path == p;
        if i < n - 1 {
          assert p in before;
        } else {
          assert p in here;
        }
      }
    }
  }

  lemma PlayAtIff(c: seq<Entry>, kw: string, playable: set<string>, i: nat, p: string)
    requires i < |c|
    ensures p in PlayAt(c, kw, playable, i) <==> PlayableFile(c, kw, playable, i) && c[i].path == p
  {
  }

  /** An "unknown ext" warning names a path exactly when some selected file
      entry has that path and an extension found in neither table. */
  lemma {:induction false} UnknownIff(c: seq<Entry>, kw: string, playable: set<string>, unplayable: set<string>, n: nat, p: string)
    requires n <= |c|
    ensures p in Unknown(c, kw, playable, unplayable, n) <==>
      exists i :: 0 <= i < n && UnknownFile(c, kw, playable, unplayable, i) && c[i].path == p
    decreases n
  {
    if n > 0 {
      var before, here := Unknown(c, kw, playable, unplayable, n - 1), UnknownAt(c, kw, playable, unplayable, n - 1);
      assert Unknown(c, kw, playable, unplayable, n) == before + here;
      UnknownIff(c, kw, playable, unplayable, n - 1, p);
      UnknownAtIff(c, kw, playable, unplayable, n - 1, p);
      if p in before {
        var i :| 0 <= i < n - 1 && UnknownFile(c, kw, playable, unplayable, i) && c[i].path == p;
        assert 0 <= i < n && UnknownFile(c, kw, playable, unplayable, i) && c[i].path == p;
      } else if p in here {
        assert 0 <= n - 1 < n && UnknownFile(c, kw, playable, unplayable, n - 1) && c[n - 1].path == p;
      }
      if exists i :: 0 <= i < n && UnknownFile(c, kw, playable, unplayable, i) && c[i].path == p {
        var i :| 0 <= i < n && UnknownFile(c, kw, playable, unplayable, i) && c[i].path == p;
        if i < n - 1 {
          assert p in before;
        } else {
          assert p in here;
        }
      }
    }
  }

  lemma UnknownAtIff(c: seq<Entry>, kw: string, playable: set<string>, unplayable: set<string>, i: nat, p: string)
    requires i < |c|
    ensures p in UnknownAt(c, kw, playable, unplayable, i) <==> UnknownFile(c, kw, playable, unplayable, i) && c[i].path == p
  {
  }

  /** Every playlist path is also written to the listing, as a file line. */
  lemma {:induction false} PlaylistInListing(c: seq<Entry>, kw: string, playable: set<string>, n: nat)
    requires n <= |c|
    ensures forall p :: p in Playlist(c, kw, playable, n) ==> exists size :: FileLine(p, size) in Listing(c, kw, n)
    decreases n
  {
    if n > 0 {
      PlaylistInListing(c, kw, playable, n - 1);
      forall p | p in Playlist(c, kw, playable, n)
        ensures exists size :: FileLine(p, size) in Listing(c, kw, n)
      {
        if p in Playlist(c, kw, playable, n - 1) {
          var size :| FileLine(p, size) in Listing(c, kw, n - 1);
          assert FileLine(p, size) in Listing(c, kw, n);
        } else {
          assert FileLine(p, c[n - 1].size) in Listing(c, kw, n);
        }
      }
    }
  }

  /** When every entry's path contains the keyword, every file gets a line. */
  lemma {:induction false} AllSelectedListsAllFiles(c: seq<Entry>, kw: string)
    requires forall e :: e in c ==> Contains(Lower(e.path), kw)
    ensures |MatchedFiles(c, kw)| == FileCount(c)
    decreases |c|
  {
    if c != [] {
      assert forall e :: e in c[..|c| - 1] ==> e in c;
      AllSelectedListsAllFiles(c[..|c| - 1], kw);
    }
  }
}
