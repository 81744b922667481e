# File finder and playlist exporter: a Dafny model

`program.go` is a small Windows console tool that works in two steps.

1. **Scan.** It lower-cases a search term and walks every drive root from `D:\` to `Z:\`. It collects each file whose name contains the term, and each directory whose name contains it together with that directory's whole subtree. Each entry is appended to a shared result set that counts files as they arrive. While scanning, it warns about names that contain only a "partial keyword": the term with its last multi-byte character removed.
2. **Export.** It then reads keywords in a loop. For each keyword it filters the collected entries by full path and writes a listing. Playable files go to an `.m3u` playlist, and every file extension found in neither extension table is reported. An empty keyword means "the search term again".

The model keeps this logic and replaces the filesystem and the console with values:

- **Text** (`text.dfy`): ASCII lower-casing, prefix and substring tests, the last index of a character, and UTF-8 encoded lengths as given in section 3 of RFC 3629.
- **Matcher** (`matcher.dfy`): `getPartialKeyword` and `isMatch`. The warning `isMatch` prints becomes a second boolean output.
- **Results** (`results.dfy`): the result set `searchResult` as a class with its two fields, `content` and `count`. Its invariant is that `count` is the number of non-directory entries.
- **Scanner** (`scanner.dfy`):
  - a directory tree is a datatype `File(name, size) | Dir(name, children)`;
  - `addAll` and `getDir` are methods on the shared result set;
  - each method is proved against a specification function: the pre-order walk `Walk`, and the search `Search`;
  - `Search` is then proved equal to an independent reference, `Covered`: "the walk, keeping a node when its own name matches or a directory above it matched".
- **Export** (`export.dfy`): the export loop of `main` as a method. It is proved equal to three specification functions (listing, playlist, unknown-extension warnings), and those are characterised entry by entry.
- **Session** (`session.dfy`): properties of a scan followed by an export, and small concrete examples.
- **Seqs** (`seqs.dfy`): subsequences, used to state that search mode keeps a filtered part of the walk.

## Model

| member | source | states |
|---|---|---|
| Results.SearchResult.constructor | program.go:94 | a new result set is empty, has count 0 and satisfies the counting invariant |
| Results.SearchResult.Add | program.go:25-35 | `add` keeps count equal to the number of file entries, appends exactly one entry after the unchanged earlier ones, and increments count only for a file |
| Results.FileCountAppend | program.go:27-29 | the file count of a concatenation is the sum of the parts' counts |
| Results.FileCountBound | program.go:27-29 | the file count is at most the number of entries, and equals it exactly when no entry is a directory |
| Text.Lower | program.go:197 | lower-casing keeps the length of the name |
| Text.LowerIdempotent | program.go:95-96 | lower-casing an already lower-cased term changes nothing |
| Text.LastIndex | program.go:155 | `strings.LastIndex` for one character: -1 exactly when the character is absent; otherwise an index holding the character with no occurrence after it |
| Text.LastIndexOfLast | program.go:155 | in `a + "." + b` with no '.' in b, the last '.' is at index \|a\| |
| Text.EncodedLen | program.go:66 | a code point encodes in 1 to 4 bytes, and in 1 byte exactly when it is below 0x80 |
| Text.ByteLenBounds | program.go:72 | a string of n code points has between n and 4n bytes |
| Text.ByteLenAppend | program.go:72 | byte length is additive over concatenation |
| Matcher.PartialKeyword | program.go:65-77 | the result is empty exactly when the string is empty, its last code point is one byte long, or it has at most 2 code points; otherwise it is the string minus its last code point, 2 to 4 bytes shorter |
| Matcher.PartialKeywordShorter | program.go:65-77 | the partial keyword is strictly shorter than a non-empty term, and a non-empty one differs from it |
| Matcher.IsMatch | program.go:196-204 | matched exactly when the lower-cased name contains the keyword; warned exactly when it did not match, the partial keyword is non-empty and the name contains it; never both |
| Matcher.EmptyKeywordMatchesAll | program.go:198 | the empty keyword matches every name and never warns |
| Matcher.MatchIgnoresCase | program.go:197 | the outcome does not depend on the case of the name |
| Matcher.PartialOnlyOnMiss | program.go:198-201 | a name containing the keyword also contains its partial keyword, so the warning fires only for names that miss the full keyword |
| Scanner.Join | program.go:180-184 | the joined path starts with the directory and ends with the name |
| Scanner.JoinContains | program.go:183-184 | a matching name puts the keyword into the joined path |
| Scanner.PrefixContains | program.go:207 | a path extending a path that contains the keyword contains it too |
| Scanner.WalkFacts | program.go:206-218 | the walk of a node starts with the node itself (a directory with size 0) and has as many entries as the subtree has nodes; its file count is the subtree's file count, and every path starts with the node's path |
| Scanner.WalkAllFacts | program.go:206-218 | the same for a directory's children, walked one after another |
| Scanner.WalkAllStep | program.go:207 | walking one more child appends that child's walk |
| Scanner.AddAll | program.go:206-218 | `addAll` appends exactly the pre-order walk of the subtree and raises count by its number of files, keeping the invariant |
| Scanner.GetDir | program.go:179-194 | `getDir` appends exactly `Search` of the directory's entries, keeping the invariant, and prints exactly the partial-match warnings `Hits` |
| Scanner.Visit | program.go:183-192 | one loop step: a matching file is added, a matching directory is collected whole, a non-matching directory is searched, and a non-matching name may warn |
| Scanner.SearchStep | program.go:182 | searching one more entry appends that entry's result and warnings |
| Scanner.SearchIsCovered | program.go:183-191 | search mode equals the reference: the walk restricted to nodes whose own name matches or that lie below a matching directory |
| Scanner.SearchOneIsCovered | program.go:183-191 | the same for one entry |
| Scanner.CoveredInsideIsWalk | program.go:186 | below a matching directory the reference keeps every node, which is `addAll`'s walk |
| Scanner.CoveredAllInsideIsWalk | program.go:186 | the same for a directory's children |
| Scanner.CoveredIsSubseq | program.go:179-194 | the reference keeps a subsequence of the full pre-order walk |
| Scanner.CoveredOneIsSubseq | program.go:179-194 | the same for one node |
| Scanner.SearchIsFilteredWalk | program.go:179-194 | search mode appends a subsequence of the pre-order walk of the directory, and every appended path starts with the directory's path |
| Scanner.SearchEmptyIffNoneMatch | program.go:183-192 | search mode appends nothing exactly when no name below the directory contains the keyword |
| Scanner.SearchOneEmptyIffNoneMatch | program.go:183-192 | the same for one entry |
| Scanner.SearchPathsContainKeyword | program.go:183-188 | every appended path contains the keyword |
| Scanner.SearchOnePathsContainKeyword | program.go:183-188 | the same for one entry |
| Scanner.HitsAreNearMisses | program.go:200-201 | every partial-match warning names a name that misses the keyword and contains a non-empty partial keyword |
| Scanner.HitsOneAreNearMisses | program.go:200-201 | the same for one entry |
| Scanner.Scan | program.go:94-103 | the scan starts from an empty result set that keeps the invariant and appends the search of every root, root after root, with the lower-cased term and its partial keyword |
| Scanner.ScanPathsContainKeyword | program.go:95-102 | every collected path contains the lower-cased search term |
| Scanner.ScanNothingMatches | program.go:97-102 | when no name on any root matches, nothing is collected |
| Export.ExportKeyword | program.go:117-119 | the export keyword is the input or the search term: the input whenever it is non-empty, and empty only when both are |
| Export.ExtensionAfterLastDot | program.go:155-157 | the contract of `Extension`: a path has an extension exactly when it contains '.', and the extension is the lower-cased text after the last '.' |
| Export.ExtensionOf | program.go:155-157 | the extension of `stem + "." + ext`, with no '.' in ext, is ext lower-cased, whatever the stem holds |
| Export.RunExport | program.go:117-168 | with the keyword lower-cased, and replaced by the search term when empty, the loop writes exactly the listing, playlist and warnings the specification functions give |
| Export.ExportEntry | program.go:147-167 | one step of the export loop writes exactly the listing line, playlist line and warning that the specification gives for that entry |
| Export.LineAtFileLines | program.go:148-154 | an entry contributes one file line exactly when it is a file whose path contains the keyword |
| Export.FileLinesAppend | program.go:154 | the file lines of a concatenation are those of the parts |
| Export.ListingFileLines | program.go:146-154 | the listing's file lines are exactly the matching files, one each, in content order |
| Export.DirLineIff | program.go:149-152 | a directory line for p is written exactly when some matching directory with path p is last, or is followed by an entry whose path does not start with p |
| Export.PlaylistIff | program.go:155-159 | a path reaches the playlist exactly when a matching file with that path has an extension in the playable table |
| Export.PlayAtIff | program.go:155-159 | the same for one entry |
| Export.UnknownIff | program.go:155-164 | an unknown-extension warning names a path exactly when a matching file with that path has an extension in neither table |
| Export.UnknownAtIff | program.go:155-164 | the same for one entry |
| Export.PlaylistInListing | program.go:154-159 | every playlist path also has a file line in the listing |
| Export.AllSelectedListsAllFiles | program.go:146-154 | when every path matches, the listing has one file line per file |
| Session.DefaultExportListsEveryFile | program.go:103-119 | an export whose input is empty, so that it reuses the search term, writes exactly as many file lines as the "N files" count printed after the scan |
| Session.NestedDirectoryLineSuppressed | program.go:150 | a matching directory followed by its own matching child gets no line of its own |
| Session.CollectedAllSelected | program.go:117-148 | with an empty search term and an empty export input, the export keyword is empty and every example entry is selected |
| Session.NotesExtension | program.go:155-157 | the extension of `D:\notes.txt` is `txt` |
| Session.ReadmeExtension | program.go:155-157 | the extension of `D:\readme.xyz` is `xyz` |
| Session.SongExtension | program.go:155-157 | the extension of `D:\song.MP3` is `mp3`, because it is lower-cased |
| Session.ExportListsCollected | program.go:153-154 | with an empty search term and an empty export input, the three example files are listed in order with their sizes |
| Session.NotesRouted | program.go:155-161 | `D:\notes.txt` reaches neither the playlist nor the warnings |
| Session.ReadmeRouted | program.go:155-164 | `D:\readme.xyz` reaches the warnings only |
| Session.SongRouted | program.go:155-159 | `D:\song.MP3` reaches the playlist only |
| Session.ExportPlaysByExtension | program.go:158-159 | with an empty search term, an empty export input and playable `{mp3}`, only `D:\song.MP3` reaches the playlist |
| Session.ExportWarnsUnknownExtension | program.go:160-164 | with an empty search term, an empty export input, playable `{mp3}` and unplayable `{txt}`, only `D:\readme.xyz` is reported as unknown |

## Left out

- Console input and argument handling (`os.Args`, prompts, the stdin scanner, panics on read errors) and the `just print` command (program.go:80-93, 104-116). The search term and the export keyword are parameters.
- Probing the drives `D:` to `Z:` with `os.Open` (program.go:97-102). The scan takes the list of roots that could be opened, each with its tree of entries.
- Reading the extension tables from `_playable` and `_unplayable` (program.go:40-63). They are parameters of type `set<string>`.
- Creating `.results`, the listing and `.m3u` files, closing them, the 100 ms sleep and `printUtf16` (program.go:121-145, 170, 174-177). The listing, the playlist and the "Unknow ext" console lines are output sequences. The exact text format of each line is not modelled.
- The partial-match warning text `[WARN] partial match dir/name` (program.go:201). It is modelled as a `PartialHit(dir, name)` value.
- Results.SearchResult.Add: sizes are kept as whole bytes. The float64 conversion to megabytes and the `%f` formatting (program.go:26, 154) are floating point.
- Text.Lower: only ASCII letters are lower-cased. Go's `strings.ToLower` covers all of Unicode.
- Matcher.PartialKeyword: strings are sequences of code points, so invalid UTF-8 (which Go decodes as a 1-byte error rune) is not modelled.
- Scanner.Join: joins with one `\` separator. `filepath.Join` also cleans the path (removing doubled separators, `.` and `..`).
- `ioutil.ReadDir` and `filepath.Walk` are abstracted by the tree value (program.go:181, 207-209). Children come in the order given; the real calls sort them by name. An unreadable directory is a directory without children. `Walk`'s `Lstat` details and the panic on a nil `FileInfo` are not modelled.
- The export matches one keyword with `strings.Contains` (program.go:148, 198); there is no splitting of the keyword into several tokens. An empty export input is replaced by the raw search term, which is then lower-cased (program.go:117-126). `printUtf16` writes its text unchanged, without re-encoding it (program.go:174-177).
