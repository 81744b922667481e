/** The few string operations of Go's standard library that the tool relies on
    (strings.ToLower, strings.Contains, strings.HasPrefix, strings.LastIndex and
    the UTF-8 length of a rune), over strings seen as sequences of Unicode code
    points. */
module Text {

  /** Lower-cases one code point; only the ASCII letters A-Z are folded. */
  function LowerChar(c: char): char {
    if 'A' <= c <= 'Z' then (c as int + 32) as char else c
  }

  /** strings.ToLower, restricted to ASCII letters. */
  function Lower(s: string): (r: string)
    ensures |r| == |s|
  {
    seq(|s|, i requires 0 <= i < |s| => LowerChar(s[i]))
  }

  lemma LowerIdempotent(s: string)
    ensures Lower(Lower(s)) == Lower(s)
  {
  }

  /** Lower-casing works code point by code point, so it distributes over concatenation. */
  lemma LowerAppend(a: string, b: string)
    ensures Lower(a + b) == Lower(a) + Lower(b)
  {
  }

  /** strings.HasPrefix(s, p). */
  predicate IsPrefix(p: string, s: string) {
    |p| <= |s| && s[..|p|] == p
  }

  lemma PrefixTransitive(a: string, b: string, c: string)
    requires IsPrefix(a, b) && IsPrefix(b, c)
    ensures IsPrefix(a, c)
  {
    assert c[..|a|] == c[..|b|][..|a|];
  }

  /** strings.Contains(s, t): some suffix of s starts with t. */
  predicate Contains(s: string, t: string)
    decreases |s|
  {
    IsPrefix(t, s) || (s != [] && Contains(s[1..], t))
  }

  /** Every string contains the empty string. */
  lemma ContainsEmpty(s: string)
    ensures Contains(s, [])
  {
  }

  /** Whoever contains t also contains every prefix of t. */
  lemma {:induction false} ContainsPrefixOf(s: string, t: string, u: string)
    requires Contains(s, t) && IsPrefix(u, t)
    ensures Contains(s, u)
  {
    if IsPrefix(t, s) {
      PrefixTransitive(u, t, s);
    } else {
      ContainsPrefixOf(s[1..], t, u);
    }
  }

  /** Containment survives putting text after the haystack. */
  lemma {:induction false} ContainsExtendRight(s: string, t: string, v: string)
    requires Contains(s, t)
    ensures Contains(s + v, t)
  {
    if IsPrefix(t, s) {
      assert (s + v)[..|t|] == s[..|t|];
    } else {
      ContainsExtendRight(s[1..], t, v);
      assert (s + v)[1..] == s[1..] + v;
    }
  }

  /** Containment survives putting text before the haystack. */
  lemma {:induction false} ContainsExtendLeft(u: string, s: string, t: string)
    requires Contains(s, t)
    ensures Contains(u + s, t)
  {
    if u == [] {
      assert u + s == s;
    } else {
      ContainsExtendLeft(u[1..], s, t);
      assert (u + s)[1..] == u[1..] + s;
    }
  }

  /** strings.LastIndex(s, string(c)): the position of the last c, or -1. */
  function LastIndex(s: string, c: char): (r: int)
    ensures -1 <= r < |s|
    ensures r == -1 <==> c !in s
    ensures 0 <= r ==> s[r] == c && c !in s[r + 1..]
  {
    if s == [] then -1
    else if s[|s| - 1] == c then |s| - 1
    else
      assert s == s[..|s| - 1] + [s[|s| - 1]];
      LastIndex(s[..|s| - 1], c)
  }

  /** The last c is the one after which no c follows. */
  lemma {:induction false} LastIndexOfLast(a: string, c: char, b: string)
    requires c !in b
    ensures LastIndex(a + [c] + b, c) == |a|
    decreases |b|
  {
    var s := a + [c] + b;
    if b != [] {
      assert s[..|s| - 1] == a + [c] + b[..|b| - 1];
      LastIndexOfLast(a, c, b[..|b| - 1]);
    }
  }

  /** Number of bytes in the UTF-8 encoding of a code point (RFC 3629, section 3). */
  function EncodedLen(c: char): (n: nat)
    ensures 1 <= n <= 4
    ensures n == 1 <==> c as int < 0x80
  {
    if c as int < 0x80 then 1
    else if c as int < 0x800 then 2
    else if c as int < 0x1_0000 then 3
    else 4
  }

  /** Byte length (Go's len) of the UTF-8 encoding of s. */
  function ByteLen(s: string): nat {
    if s == [] then 0 else ByteLen(s[..|s| - 1]) + EncodedLen(s[|s| - 1])
  }

  /** The encoding of a concatenation is the concatenation of the encodings. */
  lemma {:induction false} ByteLenAppend(a: string, b: string)
    ensures ByteLen(a + b) == ByteLen(a) + ByteLen(b)
    decreases |b|
  {
    if b == [] {
      assert a + b == a;
    } else {
      assert (a + b)[..|a + b| - 1] == a + b[..|b| - 1];
      ByteLenAppend(a, b[..|b| - 1]);
    }
  }

  /** Every code point takes between one and four bytes. */
  lemma {:induction false} ByteLenBounds(s: string)
    ensures |s| <= ByteLen(s) <= 4 * |s|
  {
    if s != [] {
      ByteLenBounds(s[..|s| - 1]);
    }
  }
}
