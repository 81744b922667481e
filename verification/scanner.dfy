/** The two-mode directory walk: getDir searches a directory for matching
    names, and addAll collects a whole matching directory. The filesystem is a
    tree value; a directory that cannot be listed is one without children. */
module Scanner {
  import opened Text
  import opened Seqs
  import opened Matcher
  import opened Results

  /** A directory entry as ReadDir / Walk report it. Children come in the order
      the listing returns them (sorted by name on a real filesystem). */
  datatype Node = File(name: string, size: nat) | Dir(name: string, children: seq<Node>)

  /** A drive root that could be opened, with the entries it lists. */
  datatype Root = Root(path: string, children: seq<Node>)

  /** A "[WARN] partial match dir/name" line printed while scanning. */
  datatype PartialHit = PartialHit(dir: string, name: string)

  /** Path separator of the drive-letter paths the tool scans. */
  const Sep: char := '\\'

  /** filepath.Join(dir, name) without path cleaning: one separator between the
      parts unless dir already ends with one (as a drive root "D:\" does). */
  function Join(dir: string, name: string): (p: string)
    ensures IsPrefix(dir, p)
    ensures |name| <= |p| && p[|p| - |name|..] == name
  {
    if dir == [] then name
    else if dir[|dir| - 1] == Sep then dir + name
    else dir + [Sep] + name
  }

  /** A name that contains the keyword puts the keyword in the joined path. */
  lemma JoinContains(dir: string, name: string, kw: string)
    requires Contains(Lower(name), kw)
    ensures Contains(Lower(Join(dir, name)), kw)
  {
    var p := Join(dir, name);
    var front := p[..|p| - |name|];
    assert p == front + name;
    LowerAppend(front, name);
    ContainsExtendLeft(Lower(front), Lower(name), kw);
  }

  /** A path below a path that contains the keyword contains it too. */
  lemma PrefixContains(q: string, path: string, kw: string)
    requires IsPrefix(q, path) && Contains(Lower(q), kw)
    ensures Contains(Lower(path), kw)
  {
    assert path == q + path[|q|..];
    LowerAppend(q, path[|q|..]);
    ContainsExtendRight(Lower(q), kw, Lower(path[|q|..]));
  }

  // ---------------------------------------------------------------------------
  // Counting nodes

  /** Number of nodes in the subtree (the node itself included). */
  function Size(n: Node): nat
    decreases n
  {
    match n
    case File(_, _) => 1
    case Dir(_, cs) => 1 + SizeAll(cs)
  }

  function SizeAll(cs: seq<Node>): nat
    decreases cs
  {
    if cs == [] then 0 else SizeAll(cs[..|cs| - 1]) + Size(cs[|cs| - 1])
  }

  /** Number of files in the subtree. */
  function Files(n: Node): nat
    decreases n
  {
    match n
    case File(_, _) => 1
    case Dir(_, cs) => FilesAll(cs)
  }

  function FilesAll(cs: seq<Node>): nat
    decreases cs
  {
    if cs == [] then 0 else FilesAll(cs[..|cs| - 1]) + Files(cs[|cs| - 1])
  }

  // ---------------------------------------------------------------------------
  // Collect-all mode (addAll over filepath.Walk)

  /** What filepath.Walk reports for node n found at path p: n itself, then the
      walk of each child, in pre-order. Directories carry size 0. */
  function Walk(p: string, n: Node): seq<Entry>
    decreases n
  {
    match n
    case File(_, size) => [Entry(p, size, false)]
    case Dir(_, cs) => [Entry(p, 0, true)] + WalkAll(p, cs)
  }

  /** The walks of the children cs of the directory at p, one after another. */
  function WalkAll(p: string, cs: seq<Node>): seq<Entry>
    decreases cs
  {
    if cs == [] then []
    else WalkAll(p, cs[..|cs| - 1]) + Walk(Join(p, cs[|cs| - 1].name), cs[|cs| - 1])
  }

  /** Every entry has a path starting with p. */
  ghost predicate AllUnder(p: string, es: seq<Entry>) {
    forall e :: e in es ==> IsPrefix(p, e.path)
  }

  /** The walk of a node lists the node first, then every node of its subtree
      exactly once (as many entries as nodes, as many file entries as files),
      all at paths below p. */
  lemma {:induction false} WalkFacts(p: string, n: Node)
    ensures |Walk(p, n)| == Size(n)
    ensures Walk(p, n)[0] == Entry(p, if n.File? then n.size else 0, n.Dir?)
    ensures FileCount(Walk(p, n)) == Files(n)
    ensures AllUnder(p, Walk(p, n))
    decreases n
  {
    match n
    case File(_, _) =>
    case Dir(_, cs) =>
      WalkAllFacts(p, cs);
      FileCountAppend([Entry(p, 0, true)], WalkAll(p, cs));
  }

  lemma {:induction false} WalkAllFacts(p: string, cs: seq<Node>)
    ensures |WalkAll(p, cs)| == SizeAll(cs)
    ensures FileCount(WalkAll(p, cs)) == FilesAll(cs)
    ensures AllUnder(p, WalkAll(p, cs))
    decreases cs
  {
    if cs != [] {
      var init, last := cs[..|cs| - 1], cs[|cs| - 1];
      var q := Join(p, last.name);
      WalkAllFacts(p, init);
      WalkFacts(q, last);
      FileCountAppend(WalkAll(p, init), Walk(q, last));
      forall e | e in Walk(q, last)
        ensures IsPrefix(p, e.path)
      {
        PrefixTransitive(p, q, e.path);
      }
    }
  }

  lemma WalkAllStep(p: string, cs: seq<Node>, i: nat)
    requires i < |cs|
    ensures WalkAll(p, cs[..i + 1]) == WalkAll(p, cs[..i]) + Walk(Join(p, cs[i].name), cs[i])
  {
    assert cs[..i + 1][..i] == cs[..i];
  }

  /** addAll(dir, results): appends the pre-order walk of n at p, so the count
      grows by the number of files in the subtree. */
  method AddAll(p: string, n: Node, results: SearchResult)
    requires results.Valid()
    modifies results
    ensures results.Valid()
    ensures results.content == old(results.content) + Walk(p, n)
    ensures results.count == old(results.count) + Files(n)
    decreases n
  {
    if n.File? {
      results.Add(p, n.size, false);
    } else {
      results.Add(p, 0, true);
      ghost var start := results.content;
      var cs := n.children;
      var i := 0;
      while i < |cs|
        invariant 0 <= i <= |cs|
        invariant results.Valid()
        invariant results.content == start + WalkAll(p, cs[..i])
        decreases |cs| - i
      {
        AddAll(Join(p, cs[i].name), cs[i], results);
        WalkAllStep(p, cs, i);
        AppendAssoc(start, WalkAll(p, cs[..i]), Walk(Join(p, cs[i].name), cs[i]));
        i := i + 1;
      }
      assert cs[..i] == cs;
      AppendAssoc(old(results.content), [Entry(p, 0, true)], WalkAll(p, cs));
    }
    WalkFacts(p, n);
    FileCountAppend(old(results.content), Walk(p, n));
  }

  // ---------------------------------------------------------------------------
  // Search mode (getDir)

  /** What getDir appends while searching the children cs of directory dir. */
  function Search(kw: string, dir: string, cs: seq<Node>): seq<Entry>
    decreases cs
  {
    if cs == [] then []
    else Search(kw, dir, cs[..|cs| - 1]) + SearchOne(kw, dir, cs[|cs| - 1])
  }

  /** One entry of getDir's loop: a matching file is appended, a matching
      directory is collected whole, a non-matching directory is searched. */
  function SearchOne(kw: string, dir: string, n: Node): seq<Entry>
    decreases n
  {
    var target := Join(dir, n.name);
    if IsMatch(n.name, kw, []).matched then
      match n
      case File(_, size) => [Entry(target, size, false)]
      case Dir(_, _) => Walk(target, n)
    else
      match n
      case File(_, _) => []
      case Dir(_, cs) => Search(kw, target, cs)
  }

  /** The partial-match warnings getDir prints while searching cs in dir. */
  function Hits(kw: string, pk: string, dir: string, cs: seq<Node>): seq<PartialHit>
    decreases cs
  {
    if cs == [] then []
    else Hits(kw, pk, dir, cs[..|cs| - 1]) + HitsOne(kw, pk, dir, cs[|cs| - 1])
  }

  function HitsOne(kw: string, pk: string, dir: string, n: Node): seq<PartialHit>
    decreases n
  {
    var m := IsMatch(n.name, kw, pk);
    (if m.warned then [PartialHit(dir, n.name)] else []) +
    (if !m.matched && n.Dir? then Hits(kw, pk, Join(dir, n.name), n.children) else [])
  }

  /** getDir(keyword, partialKeyword, dirs, results), with dir the joined
      directory path and cs its listing. */
  method GetDir(kw: string, pk: string, dir: string, cs: seq<Node>, results: SearchResult)
    returns (hits: seq<PartialHit>)
    requires results.Valid()
    modifies results
    ensures results.Valid()
    ensures results.content == old(results.content) + Search(kw, dir, cs)
    ensures hits == Hits(kw, pk, dir, cs)
    decreases cs
  {
    hits := [];
    var i := 0;
    while i < |cs|
      invariant 0 <= i <= |cs|
      invariant results.Valid()
      invariant results.content == old(results.content) + Search(kw, dir, cs[..i])
      invariant hits == Hits(kw, pk, dir, cs[..i])
      decreases |cs| - i
    {
      var h := Visit(kw, pk, dir, cs[i], results);
      SearchStep(kw, pk, dir, cs, i);
      AppendAssoc(old(results.content), Search(kw, dir, cs[..i]), SearchOne(kw, dir, cs[i]));
      hits := hits + h;
      i := i + 1;
    }
    assert cs[..i] == cs;
  }

  lemma SearchStep(kw: string, pk: string, dir: string, cs: seq<Node>, i: nat)
    requires i < |cs|
    ensures Search(kw, dir, cs[..i + 1]) == Search(kw, dir, cs[..i]) + SearchOne(kw, dir, cs[i])
    ensures Hits(kw, pk, dir, cs[..i + 1]) == Hits(kw, pk, dir, cs[..i]) + HitsOne(kw, pk, dir, cs[i])
  {
    assert cs[..i + 1][..i] == cs[..i];
  }

  /** The body of getDir's loop for one listed entry f of dir. */
  method Visit(kw: string, pk: string, dir: string, f: Node, results: SearchResult)
    returns (hits: seq<PartialHit>)
    requires results.Valid()
    modifies results
    ensures results.Valid()
    ensures results.content == old(results.content) + SearchOne(kw, dir, f)
    ensures hits == HitsOne(kw, pk, dir, f)
    decreases f
  {
    hits := [];
    var m := IsMatch(f.name, kw, pk);
    if m.warned {
      hits := [PartialHit(dir, f.name)];
    }
    if m.matched {
      var target := Join(dir, f.name);
      if f.Dir? {
        AddAll(target, f, results);
      } else {
        results.Add(target, f.size, false);
      }
    } else if f.Dir? {
      var sub := GetDir(kw, pk, Join(dir, f.name), f.children, results);
      hits := hits + sub;
    }
  }

  // ---------------------------------------------------------------------------
  // A reference definition of search mode

  /** The pre-order walk of cs in dir, keeping exactly the entries whose own
      name, or the name of an ancestor below dir, contains kw (every entry when
      inside is set). */
  function Covered(kw: string, dir: string, cs: seq<Node>, inside: bool): seq<Entry>
    decreases cs
  {
    if cs == [] then []
    else
      var last := cs[|cs| - 1];
      Covered(kw, dir, cs[..|cs| - 1], inside) + CoveredOne(kw, Join(dir, last.name), last, inside)
  }

  function CoveredOne(kw: string, p: string, n: Node, inside: bool): seq<Entry>
    decreases n
  {
    var keep := inside || Contains(Lower(n.name), kw);
    match n
    case File(_, size) => if keep then [Entry(p, size, false)] else []
    case Dir(_, cs) => (if keep then [Entry(p, 0, true)] else []) + Covered(kw, p, cs, keep)
  }

  /** Below a matching name every node is kept: the reference agrees with the
      walk of addAll. */
  lemma {:induction false} CoveredInsideIsWalk(kw: string, p: string, n: Node)
    ensures CoveredOne(kw, p, n, true) == Walk(p, n)
    decreases n
  {
    match n
    case File(_, _) =>
    case Dir(_, cs) => CoveredAllInsideIsWalk(kw, p, cs);
  }

  lemma {:induction false} CoveredAllInsideIsWalk(kw: string, dir: string, cs: seq<Node>)
    ensures Covered(kw, dir, cs, true) == WalkAll(dir, cs)
    decreases cs
  {
    if cs != [] {
      var last := cs[|cs| - 1];
      CoveredAllInsideIsWalk(kw, dir, cs[..|cs| - 1]);
      CoveredInsideIsWalk(kw, Join(dir, last.name), last);
    }
  }

  /** getDir's two modes amount to the reference: an entry is collected exactly
      when its name or the name of a directory above it (below dir) matches.
      In particular a non-matching directory is never itself collected. */
  lemma {:induction false} SearchIsCovered(kw: string, dir: string, cs: seq<Node>)
    ensures Search(kw, dir, cs) == Covered(kw, dir, cs, false)
    decreases cs
  {
    if cs != [] {
      SearchIsCovered(kw, dir, cs[..|cs| - 1]);
      SearchOneIsCovered(kw, dir, cs[|cs| - 1]);
    }
  }

  lemma {:induction false} SearchOneIsCovered(kw: string, dir: string, n: Node)
    ensures SearchOne(kw, dir, n) == CoveredOne(kw, Join(dir, n.name), n, false)
    decreases n
  {
    var target := Join(dir, n.name);
    if Contains(Lower(n.name), kw) {
      CoveredInsideIsWalk(kw, target, n);
    } else if n.Dir? {
      SearchIsCovered(kw, target, n.children);
    }
  }

  /** The reference keeps a subsequence of the full pre-order walk. */
  lemma {:induction false} CoveredIsSubseq(kw: string, dir: string, cs: seq<Node>, inside: bool)
    ensures IsSubseq(Covered(kw, dir, cs, inside), WalkAll(dir, cs))
    decreases cs
  {
    if cs != [] {
      var last := cs[|cs| - 1];
      CoveredIsSubseq(kw, dir, cs[..|cs| - 1], inside);
      CoveredOneIsSubseq(kw, Join(dir, last.name), last, inside);
      SubseqAppend(Covered(kw, dir, cs[..|cs| - 1], inside), WalkAll(dir, cs[..|cs| - 1]),
                   CoveredOne(kw, Join(dir, last.name), last, inside), Walk(Join(dir, last.name), last));
    }
  }

  lemma {:induction false} CoveredOneIsSubseq(kw: string, p: string, n: Node, inside: bool)
    ensures IsSubseq(CoveredOne(kw, p, n, inside), Walk(p, n))
    decreases n
  {
    var keep := inside || Contains(Lower(n.name), kw);
    var head := [Entry(p, if n.File? then n.size else 0, n.Dir?)];
    assert IsSubseq(head, head) by {
      assert head[..0] == [];
    }
    EmptySubseq(head);
    match n
    case File(_, _) =>
    case Dir(_, cs) =>
      CoveredIsSubseq(kw, p, cs, keep);
      SubseqAppend(if keep then head else [], head, Covered(kw, p, cs, keep), WalkAll(p, cs));
  }

  /** Search mode appends a subsequence of the full pre-order walk of the
      directory: entries keep the walk's order, and every appended path starts
      with the searched directory's path. */
  lemma SearchIsFilteredWalk(kw: string, dir: string, cs: seq<Node>)
    ensures IsSubseq(Search(kw, dir, cs), WalkAll(dir, cs))
    ensures AllUnder(dir, Search(kw, dir, cs))
  {
    SearchIsCovered(kw, dir, cs);
    CoveredIsSubseq(kw, dir, cs, false);
    WalkAllFacts(dir, cs);
    SubseqElements(Search(kw, dir, cs), WalkAll(dir, cs));
  }

  /** No name of the forest contains the keyword. */
  predicate NoneMatch(kw: string, cs: seq<Node>)
    decreases cs
  {
    cs == [] || (NoneMatch(kw, cs[..|cs| - 1]) && NoneMatchOne(kw, cs[|cs| - 1]))
  }

  predicate NoneMatchOne(kw: string, n: Node)
    decreases n
  {
    !Contains(Lower(n.name), kw) && (n.Dir? ==> NoneMatch(kw, n.children))
  }

  /** Search mode appends nothing exactly when no name below dir matches. */
  lemma {:induction false} SearchEmptyIffNoneMatch(kw: string, dir: string, cs: seq<Node>)
    ensures Search(kw, dir, cs) == [] <==> NoneMatch(kw, cs)
    decreases cs
  {
    if cs != [] {
      SearchEmptyIffNoneMatch(kw, dir, cs[..|cs| - 1]);
      SearchOneEmptyIffNoneMatch(kw, dir, cs[|cs| - 1]);
    }
  }

  lemma {:induction false} SearchOneEmptyIffNoneMatch(kw: string, dir: string, n: Node)
    ensures SearchOne(kw, dir, n) == [] <==> NoneMatchOne(kw, n)
    decreases n
  {
    if !Contains(Lower(n.name), kw) && n.Dir? {
      SearchEmptyIffNoneMatch(kw, Join(dir, n.name), n.children);
    }
  }

  /** Every path search mode appends contains the keyword (lower-cased): either
      its last name matched, or it lies below a directory whose name matched. */
  lemma {:induction false} SearchPathsContainKeyword(kw: string, dir: string, cs: seq<Node>)
    ensures forall e :: e in Search(kw, dir, cs) ==> Contains(Lower(e.path), kw)
    decreases cs
  {
    if cs != [] {
      SearchPathsContainKeyword(kw, dir, cs[..|cs| - 1]);
      SearchOnePathsContainKeyword(kw, dir, cs[|cs| - 1]);
    }
  }

  lemma {:induction false} SearchOnePathsContainKeyword(kw: string, dir: string, n: Node)
    ensures forall e :: e in SearchOne(kw, dir, n) ==> Contains(Lower(e.path), kw)
    decreases n
  {
    var target := Join(dir, n.name);
    if Contains(Lower(n.name), kw) {
      JoinContains(dir, n.name, kw);
      WalkFacts(target, n);
      forall e | e in SearchOne(kw, dir, n)
        ensures Contains(Lower(e.path), kw)
      {
        PrefixContains(target, e.path, kw);
      }
    } else if n.Dir? {
      SearchPathsContainKeyword(kw, target, n.children);
    }
  }

  /** A partial-match warning is printed only for a name that misses the
      keyword but contains the non-empty partial keyword. */
  lemma {:induction false} HitsAreNearMisses(kw: string, pk: string, dir: string, cs: seq<Node>)
    ensures forall h :: h in Hits(kw, pk, dir, cs) ==>
      pk != [] && Contains(Lower(h.name), pk) && !Contains(Lower(h.name), kw)
    decreases cs
  {
    if cs != [] {
      HitsAreNearMisses(kw, pk, dir, cs[..|cs| - 1]);
      HitsOneAreNearMisses(kw, pk, dir, cs[|cs| - 1]);
    }
  }

  lemma {:induction false} HitsOneAreNearMisses(kw: string, pk: string, dir: string, n: Node)
    ensures forall h :: h in HitsOne(kw, pk, dir, n) ==>
      pk != [] && Contains(Lower(h.name), pk) && !Contains(Lower(h.name), kw)
    decreases n
  {
    if n.Dir? {
      HitsAreNearMisses(kw, pk, Join(dir, n.name), n.children);
    }
  }

  // ---------------------------------------------------------------------------
  // The scan over all drive roots

  /** What the scan appends over all accessible roots, root after root. */
  function ScanAll(kw: string, roots: seq<Root>): seq<Entry>
    decreases |roots|
  {
    if roots == [] then []
    else
      var r := roots[|roots| - 1];
      ScanAll(kw, roots[..|roots| - 1]) + Search(kw, r.path, r.children)
  }

  function ScanHits(kw: string, pk: string, roots: seq<Root>): seq<PartialHit>
    decreases |roots|
  {
    if roots == [] then []
    else
      var r := roots[|roots| - 1];
      ScanHits(kw, pk, roots[..|roots| - 1]) + Hits(kw, pk, r.path, r.children)
  }

  /** The scan phase of main: lower-case the search term, derive its partial
      keyword, and search every accessible root into one fresh result set. */
  method Scan(searchTerm: string, roots: seq<Root>) returns (results: SearchResult, hits: seq<PartialHit>)
    ensures fresh(results) && results.Valid()
    ensures results.content == ScanAll(Lower(searchTerm), roots)
    ensures hits == ScanHits(Lower(searchTerm), PartialKeyword(Lower(searchTerm)), roots)
  {
    results := new SearchResult();
    var kw := Lower(searchTerm);
    var pk := PartialKeyword(kw);
    hits := [];
    for i := 0 to |roots|
      invariant results.Valid()
      invariant results.content == ScanAll(kw, roots[..i])
      invariant hits == ScanHits(kw, pk, roots[..i])
    {
      var h := GetDir(kw, pk, roots[i].path, roots[i].children, results);
      hits := hits + h;
      assert roots[..i + 1][..i] == roots[..i];
    }
    assert roots[..|roots|] == roots;
  }

  /** Every path the scan collects contains the lower-cased search term. */
  lemma {:induction false} ScanPathsContainKeyword(kw: string, roots: seq<Root>)
    ensures forall e :: e in ScanAll(kw, roots) ==> Contains(Lower(e.path), kw)
    decreases |roots|
  {
    if roots != [] {
      var r := roots[|roots| - 1];
      ScanPathsContainKeyword(kw, roots[..|roots| - 1]);
      SearchPathsContainKeyword(kw, r.path, r.children);
    }
  }

  /** A scan over roots none of whose names match collects nothing. */
  lemma {:induction false} ScanNothingMatches(kw: string, roots: seq<Root>)
    requires forall i :: 0 <= i < |roots| ==> NoneMatch(kw, roots[i].children)
    ensures ScanAll(kw, roots) == []
    decreases |roots|
  {
    if roots != [] {
      var r := roots[|roots| - 1];
      ScanNothingMatches(kw, roots[..|roots| - 1]);
      SearchEmptyIffNoneMatch(kw, r.path, r.children);
    }
  }
}
