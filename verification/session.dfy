/** The session of main as a whole: one scan, then export requests against the
    entries it collected. */
module Session {
  import opened Text
  import opened Results
  import opened Scanner
  import opened Export

  /** Scanning and then exporting with an empty keyword (which reuses the search
      term) writes one file line for every file counted by the scan: the "N
      files" total printed after the scan is the number of file lines of that
      listing. This holds because every collected path contains the search term,
      either in its own name or in the name of a directory above it. */
  lemma DefaultExportListsEveryFile(searchTerm: string, roots: seq<Root>)
    ensures var c := ScanAll(Lower(searchTerm), roots);
      |FileLines(Listing(c, Lower(ExportKeyword([], searchTerm)), |c|))| == FileCount(c)
  {
    var kw := Lower(searchTerm);
    var c := ScanAll(kw, roots);
    ScanPathsContainKeyword(kw, roots);
    ListingFileLines(c, kw, |c|);
    assert c[..|c|] == c;
    AllSelectedListsAllFiles(c, kw);
  }

  /** A matching directory immediately followed by its own matching child gets
      no line of its own; the child's line stands for it. */
  lemma NestedDirectoryLineSuppressed()
    ensures var c := [Entry("D:\\x", 0, true), Entry("D:\\x\\child.txt", 5, false)];
      Listing(c, "x", 2) == [FileLine("D:\\x\\child.txt", 5)]
  {
    var c := [Entry("D:\\x", 0, true), Entry("D:\\x\\child.txt", 5, false)];
    assert Contains(Lower("D:\\x"), "x") by {
      assert Lower("D:\\x") == "d:\\x";
      assert IsPrefix("x", "d:\\x"[3..]);
    }
    assert Contains(Lower("D:\\x\\child.txt"), "x") by {
      assert Lower("D:\\x\\child.txt") == "d:\\x\\child.txt";
      assert IsPrefix("x", "d:\\x\\child.txt"[3..]);
    }
    assert IsPrefix(c[0].path, c[1].path);
  }

  /** Three collected files: one with a playable extension written in capitals,
      one with an extension in neither table, one with an unplayable
      extension. The exports below start from an empty search term and an
      empty export input, so the keyword is the empty string and every entry
      is selected. */
  function Notes(): string { "D:\\notes" + "." + "txt" }
  function Readme(): string { "D:\\readme" + "." + "xyz" }
  function Song(): string { "D:\\song" + "." + "MP3" }

  function Collected(): seq<Entry> {
    [Entry(Notes(), 1, false), Entry(Readme(), 2, false), Entry(Song(), 3, false)]
  }

  /** With an empty search term and an empty export input every entry of the
      example is selected. */
  lemma CollectedAllSelected()
    ensures forall i :: 0 <= i < 3 ==> Selected(Collected(), Lower(ExportKeyword("", "")), i)
  {
    assert Lower(ExportKeyword("", "")) == "";
    forall i | 0 <= i < 3
      ensures Selected(Collected(), "", i)
    {
      ContainsEmpty(Lower(Collected()[i].path));
    }
  }

  lemma NotesExtension()
    ensures Extension(Notes()) == Some("txt")
  {
    ExtensionOf("D:\\notes", "txt");
    assert Lower("txt") == "txt";
  }

  lemma ReadmeExtension()
    ensures Extension(Readme()) == Some("xyz")
  {
    ExtensionOf("D:\\readme", "xyz");
    assert Lower("xyz") == "xyz";
  }

  /** The extension is compared in lower case. */
  lemma SongExtension()
    ensures Extension(Song()) == Some("mp3")
  {
    ExtensionOf("D:\\song", "MP3");
    assert LowerChar('M') == 'm' && LowerChar('P') == 'p' && LowerChar('3') == '3';
    assert forall i :: 0 <= i < 3 ==> Lower("MP3")[i] == "mp3"[i];
    assert Lower("MP3") == "mp3";
  }

  /** Every selected file gets its line in the listing, in order. */
  lemma ExportListsCollected()
    ensures Listing(Collected(), Lower(ExportKeyword("", "")), 3) == [FileLine(Notes(), 1), FileLine(Readme(), 2), FileLine(Song(), 3)]
  {
    assert Lower(ExportKeyword("", "")) == "";
    var c := Collected();
    CollectedAllSelected();
    assert LineAt(c, "", 0) == [FileLine(Notes(), 1)];
    assert LineAt(c, "", 1) == [FileLine(Readme(), 2)];
    assert LineAt(c, "", 2) == [FileLine(Song(), 3)];
    assert Listing(c, "", 1) == [FileLine(Notes(), 1)];
    assert Listing(c, "", 2) == [FileLine(Notes(), 1), FileLine(Readme(), 2)];
  }

  /** Where each example entry is routed, with playable {mp3} and
      unplayable {txt}: the text file nowhere, the unknown one to a warning,
      the song to the playlist. */
  lemma NotesRouted()
    ensures PlayAt(Collected(), "", {"mp3"}, 0) == [] && UnknownAt(Collected(), "", {"mp3"}, {"txt"}, 0) == []
  {
    CollectedAllSelected();
    NotesExtension();
  }

  lemma ReadmeRouted()
    ensures PlayAt(Collected(), "", {"mp3"}, 1) == [] && UnknownAt(Collected(), "", {"mp3"}, {"txt"}, 1) == [Readme()]
  {
    CollectedAllSelected();
    ReadmeExtension();
  }

  lemma SongRouted()
    ensures PlayAt(Collected(), "", {"mp3"}, 2) == [Song()] && UnknownAt(Collected(), "", {"mp3"}, {"txt"}, 2) == []
  {
    CollectedAllSelected();
    SongExtension();
  }

  /** Only the file whose extension is playable, ignoring case, reaches the
      playlist. */
  lemma ExportPlaysByExtension()
    ensures Playlist(Collected(), Lower(ExportKeyword("", "")), {"mp3"}, 3) == [Song()]
  {
    assert Lower(ExportKeyword("", "")) == "";
    var c := Collected();
    NotesRouted();
    ReadmeRouted();
    SongRouted();
    assert Playlist(c, "", {"mp3"}, 1) == [];
    assert Playlist(c, "", {"mp3"}, 2) == [];
  }

  /** Only the file whose extension is in neither table is reported. */
  lemma ExportWarnsUnknownExtension()
    ensures Unknown(Collected(), Lower(ExportKeyword("", "")), {"mp3"}, {"txt"}, 3) == [Readme()]
  {
    assert Lower(ExportKeyword("", "")) == "";
    var c := Collected();
    NotesRouted();
    ReadmeRouted();
    SongRouted();
    assert Unknown(c, "", {"mp3"}, {"txt"}, 1) == [];
    assert Unknown(c, "", {"mp3"}, {"txt"}, 2) == [Readme()];
  }
}
