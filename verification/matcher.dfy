/** Name matching: the lower-case keyword test of isMatch and the
    "partial keyword" heuristic of getPartialKeyword. */
module Matcher {
  import opened Text

  /** getPartialKeyword: when the last rune of s is a multi-byte one and s has
      more than two runes, s without that rune; otherwise the empty string. */
  function PartialKeyword(s: string): (r: string)
    ensures r == [] <==> s == [] || EncodedLen(s[|s| - 1]) == 1 || |s| <= 2
    ensures r != [] ==> IsPrefix(r, s) && |r| == |s| - 1
    ensures r != [] ==> 2 <= ByteLen(s) - ByteLen(r) <= 4
  {
    if s == [] then []             // DecodeLastRuneInString reports size 0
    else if EncodedLen(s[|s| - 1]) <= 1 then []
    else if |s| > 2 then s[..|s| - 1]
    else []
  }

  /** The partial keyword is never longer than the keyword, and when there is
      one its encoding is strictly shorter, so it is never the keyword itself. */
  lemma PartialKeywordShorter(s: string)
    ensures |PartialKeyword(s)| < |s| || s == []
    ensures PartialKeyword(s) != [] ==> ByteLen(PartialKeyword(s)) < ByteLen(s) && PartialKeyword(s) != s
  {
  }

  /** The outcome of isMatch: the boolean it returns and whether it printed the
      "[WARN] partial match" line. */
  datatype MatchOutcome = MatchOutcome(matched: bool, warned: bool)

  /** isMatch(dirName, fname, keyword, partialKeyword); dirName only appears in the
      warning text, so it is left to the caller. */
  function IsMatch(name: string, keyword: string, partial: string): (m: MatchOutcome)
    ensures m.matched <==> Contains(Lower(name), keyword)
    ensures m.warned ==> !m.matched
    ensures m.warned <==> !m.matched && partial != [] && Contains(Lower(name), partial)
  {
    var lower := Lower(name);
    if Contains(lower, keyword) then MatchOutcome(true, false)
    else if partial != [] && Contains(lower, partial) then MatchOutcome(false, true)
    else MatchOutcome(false, false)
  }

  /** The empty keyword matches every name and never warns. */
  lemma EmptyKeywordMatchesAll(name: string, partial: string)
    ensures IsMatch(name, [], partial) == MatchOutcome(true, false)
  {
    ContainsEmpty(Lower(name));
  }

  /** Matching ignores the case of the name. */
  lemma MatchIgnoresCase(name: string, keyword: string, partial: string)
    ensures IsMatch(Lower(name), keyword, partial) == IsMatch(name, keyword, partial)
  {
    LowerIdempotent(name);
  }

  /** With the partial keyword that getPartialKeyword derives from the keyword,
      every name that contains the keyword also contains the partial keyword. */
  lemma PartialOnlyOnMiss(name: string, keyword: string)
    ensures var p := PartialKeyword(keyword);
      Contains(Lower(name), keyword) && p != [] ==> Contains(Lower(name), p)
  {
    var p := PartialKeyword(keyword);
    if Contains(Lower(name), keyword) && p != [] {
      ContainsPrefixOf(Lower(name), keyword, p);
    }
  }
}
