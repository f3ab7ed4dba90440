/**
 * The handful of Python string operations the parsers and formatters rely on:
 * `str.strip`, `str.strip(chars)`, `str.split(sep)`, `str.split(sep, 1)`,
 * `sep.join(pieces)` and the `in` test on strings.
 */
module Text {
  import opened Wrappers

  /** Python's `str.isspace` on one character: the ASCII blanks and control separators
      (tab to carriage return, 0x1C to 0x1F), NEL, no-break space and the Unicode space
      separators. `str.strip()` with no argument uses the same test. */
  predicate IsSpace(c: char) {
    || c == ' ' || '\t' <= c <= '\r' || '\U{1C}' <= c <= '\U{1F}' || c == '\U{85}' || c == '\U{A0}'
    || c == '\U{1680}' || '\U{2000}' <= c <= '\U{200A}' || c == '\U{2028}' || c == '\U{2029}'
    || c == '\U{202F}' || c == '\U{205F}' || c == '\U{3000}'
  }

  /** The 29 characters `IsSpace` accepts, all of them at or below U+3000. */
  const Whitespace: set<char> := set c: char | '\0' <= c <= '\U{3000}' && IsSpace(c)

  /** No character of `s` belongs to `cs`. */
  predicate NoneOf(s: string, cs: set<char>) {
    forall c :: c in s ==> c !in cs
  }

  /** `s.lstrip(cs)`: drop the longest prefix made of characters of `cs`. */
  function LStrip(s: string, cs: set<char>): (r: string)
    ensures |r| <= |s| && r == s[|s| - |r|..]
    ensures r == [] || r[0] !in cs
    ensures forall i :: 0 <= i < |s| - |r| ==> s[i] in cs
    decreases |s|
  {
    if |s| > 0 && s[0] in cs then LStrip(s[1..], cs) else s
  }

  /** `s.rstrip(cs)`: drop the longest suffix made of characters of `cs`. */
  function RStrip(s: string, cs: set<char>): (r: string)
    ensures |r| <= |s| && r == s[..|r|]
    ensures r == [] || r[|r| - 1] !in cs
    ensures forall i :: |r| <= i < |s| ==> s[i] in cs
    decreases |s|
  {
    if |s| > 0 && s[|s| - 1] in cs then RStrip(s[..|s| - 1], cs) else s
  }

  /** `s.strip(cs)`: a contiguous piece of `s` that neither starts nor ends with a
      character of `cs`, and everything cut off on either side belongs to `cs`. */
  function StripChars(s: string, cs: set<char>): (r: string)
    ensures r == [] || (r[0] !in cs && r[|r| - 1] !in cs)
    ensures |r| <= |s|
  {
    RStrip(LStrip(s, cs), cs)
  }

  /** Stripping only removes characters. */
  lemma StripCharsSubset(s: string, cs: set<char>)
    ensures forall c :: c in StripChars(s, cs) ==> c in s
  {
    var l := LStrip(s, cs);
    assert forall c :: c in RStrip(l, cs) ==> c in l;
  }

  /** No whitespace at either end. */
  predicate Trimmed(s: string) {
    s == [] || (s[0] !in Whitespace && s[|s| - 1] !in Whitespace)
  }

  /** `s.strip()` */
  function Strip(s: string): string
  {
    StripChars(s, Whitespace)
  }

  /** Stripping a string that holds none of the characters changes nothing. */
  lemma StripCharsNoneOf(s: string, cs: set<char>)
    requires NoneOf(s, cs)
    ensures StripChars(s, cs) == s
  {
    assert LStrip(s, cs) == s by {
      if |s| > 0 { assert s[0] in s; }
    }
    if |s| > 0 { assert s[|s| - 1] in s; }
  }

  /** `s.split(sep)` generalised to a set of separator characters: the pieces between
      consecutive separators, empty ones included, so there is always at least one. */
  function Split(s: string, seps: set<char>): (pieces: seq<string>)
    ensures |pieces| >= 1
    ensures forall i :: 0 <= i < |pieces| ==> NoneOf(pieces[i], seps)
    decreases |s|
  {
    if |s| == 0 then [""]
    else
      var rest := Split(s[1..], seps);
      if s[0] in seps then [""] + rest
      else [[s[0]] + rest[0]] + rest[1..]
  }

  /** A string with no separator is one piece. */
  lemma {:induction false} SplitNoSep(s: string, seps: set<char>)
    requires NoneOf(s, seps)
    ensures Split(s, seps) == [s]
    decreases |s|
  {
    if |s| > 0 {
      assert s[0] in s;
      SplitNoSep(s[1..], seps);
      assert [s[0]] + s[1..] == s;
    }
  }

  /** Splitting at the first separator: the text before it is the first piece. */
  lemma {:induction false} SplitAtSep(a: string, c: char, b: string, seps: set<char>)
    requires NoneOf(a, seps) && c in seps
    ensures Split(a + [c] + b, seps) == [a] + Split(b, seps)
    decreases |a|
  {
    var s := a + [c] + b;
    if |a| == 0 {
      assert s == [c] + b;
      assert s[1..] == b;
    } else {
      assert a[0] in a;
      assert s[1..] == a[1..] + [c] + b;
      SplitAtSep(a[1..], c, b, seps);
      assert [a[0]] + a[1..] == a;
    }
  }

  /** `sep.join(pieces)` */
  function Join(pieces: seq<string>, sep: string): string
    decreases |pieces|
  {
    if |pieces| == 0 then ""
    else if |pieces| == 1 then pieces[0]
    else pieces[0] + sep + Join(pieces[1..], sep)
  }

  lemma {:induction false} JoinConsFirst(c: char, p: string, ps: seq<string>, sep: string)
    ensures Join([[c] + p] + ps, sep) == [c] + Join([p] + ps, sep)
  {
    if |ps| > 0 {
      assert ([[c] + p] + ps)[1..] == ps;
      assert ([p] + ps)[1..] == ps;
    }
  }

  /** Splitting on one character and joining with that character gives the string back. */
  lemma {:induction false} JoinSplit(s: string, sep: char)
    ensures Join(Split(s, {sep}), [sep]) == s
    decreases |s|
  {
    if |s| > 0 {
      var rest := Split(s[1..], {sep});
      JoinSplit(s[1..], sep);
      if s[0] == sep {
        assert ([""] + rest)[1..] == rest;
      } else {
        JoinConsFirst(s[0], rest[0], rest[1..], [sep]);
        assert [rest[0]] + rest[1..] == rest;
      }
    }
  }

  /** Joining separator-free pieces with a separator and splitting again gives the pieces back. */
  lemma {:induction false} SplitJoin(pieces: seq<string>, c: char, seps: set<char>)
    requires |pieces| >= 1 && c in seps
    requires forall i :: 0 <= i < |pieces| ==> NoneOf(pieces[i], seps)
    ensures Split(Join(pieces, [c]), seps) == pieces
    decreases |pieces|
  {
    if |pieces| == 1 {
      SplitNoSep(pieces[0], seps);
    } else {
      SplitJoin(pieces[1..], c, seps);
      SplitAtSep(pieces[0], c, Join(pieces[1..], [c]), seps);
      assert pieces[0] + [c] + Join(pieces[1..], [c]) == Join(pieces, [c]);
      assert [pieces[0]] + pieces[1..] == pieces;
    }
  }

  /** Joining pieces free of `cs` with a separator free of `cs` gives a string free of `cs`. */
  lemma {:induction false} JoinNoneOf(pieces: seq<string>, sep: string, cs: set<char>)
    requires forall i :: 0 <= i < |pieces| ==> NoneOf(pieces[i], cs)
    requires NoneOf(sep, cs)
    ensures NoneOf(Join(pieces, sep), cs)
    decreases |pieces|
  {
    if |pieces| > 1 {
      JoinNoneOf(pieces[1..], sep, cs);
      var j := Join(pieces, sep);
      assert j == pieces[0] + sep + Join(pieces[1..], sep);
      forall c | c in j ensures c !in cs {
        assert c in pieces[0] || c in sep || c in Join(pieces[1..], sep);
      }
    }
  }

  /** A join starts with the first piece and ends with the last one. */
  lemma {:induction false} JoinEnds(pieces: seq<string>, sep: string)
    requires |pieces| > 0
    ensures var j, first, last := Join(pieces, sep), pieces[0], pieces[|pieces| - 1];
      && |first| <= |j| && j[..|first|] == first
      && |last| <= |j| && j[|j| - |last|..] == last
    decreases |pieces|
  {
    if |pieces| > 1 {
      var rest := Join(pieces[1..], sep);
      JoinEnds(pieces[1..], sep);
      assert Join(pieces, sep) == pieces[0] + sep + rest;
      assert pieces[1..][|pieces| - 2] == pieces[|pieces| - 1];
    }
  }

  /** Nothing is cut from the left of a string that does not start with a character of `cs`. */
  lemma LStripStops(s: string, cs: set<char>)
    requires s == [] || s[0] !in cs
    ensures LStrip(s, cs) == s
  {
  }

  /** Nothing is cut from the right of a string that does not end with a character of `cs`. */
  lemma RStripStops(s: string, cs: set<char>)
    requires s == [] || s[|s| - 1] !in cs
    ensures RStrip(s, cs) == s
  {
  }

  /** A string that neither starts nor ends with a character of `cs` is its own strip. */
  lemma StripCharsTrimmed(s: string, cs: set<char>)
    requires s == [] || (s[0] !in cs && s[|s| - 1] !in cs)
    ensures StripChars(s, cs) == s
  {
  }

  /** Stripping twice is stripping once. */
  lemma StripCharsIdempotent(s: string, cs: set<char>)
    ensures StripChars(StripChars(s, cs), cs) == StripChars(s, cs)
  {
    StripCharsTrimmed(StripChars(s, cs), cs);
  }

  /** Index of the first occurrence of `c` in `s`. */
  function IndexOf(s: string, c: char): (i: nat)
    requires c in s
    ensures i < |s| && s[i] == c && c !in s[..i]
  {
    if s[0] == c then 0 else IndexOf(s[1..], c) + 1
  }

  /** `s.split(sep, 1)` on a string that holds `sep`: the text before its first
      occurrence and the text after it. */
  function SplitOnce(s: string, sep: char): (kv: (string, string))
    requires sep in s
    ensures sep !in kv.0
    ensures s == kv.0 + [sep] + kv.1
  {
    var i := IndexOf(s, sep);
    assert s == s[..i] + [sep] + s[i + 1..];
    (s[..i], s[i + 1..])
  }

  /** The first occurrence is the one with no earlier occurrence. */
  lemma {:induction false} IndexOfFirst(s: string, c: char, j: nat)
    requires j < |s| && s[j] == c && c !in s[..j]
    ensures IndexOf(s, c) == j
    decreases j
  {
    if j > 0 {
      assert s[0] in s[..j];
      assert s[1..][..j - 1] == s[1..j];
      assert forall x :: x in s[1..j] ==> x in s[..j];
      IndexOfFirst(s[1..], c, j - 1);
    }
  }

  /** `split(sep, 1)` undoes gluing two strings around `sep` when the first holds no `sep`. */
  lemma SplitOnceGlue(a: string, sep: char, b: string)
    requires sep !in a
    ensures SplitOnce(a + [sep] + b, sep) == (a, b)
  {
    var s := a + [sep] + b;
    assert s[..|a|] == a;
    IndexOfFirst(s, sep, |a|);
    assert s[|a| + 1..] == b;
  }

  /** What `k, v = c.split(sep, 1)` followed by `k.strip()` and `v.strip()` reads from a
      chunk; nothing when the chunk holds no `sep`. */
  function KeyValue(c: string, sep: char): (f: Option<(string, string)>)
    ensures f.None? <==> sep !in c
  {
    if sep in c then
      var kv := SplitOnce(c, sep);
      Some((Strip(kv.0), Strip(kv.1)))
    else None
  }

  /** A stripped key without `sep`, glued to a stripped value text, reads back as the two. */
  lemma KeyValueGlue(key: string, sep: char, text: string)
    requires Trimmed(key) && sep !in key && Trimmed(text)
    ensures KeyValue(key + [sep] + text, sep) == Some((key, text))
  {
    assert (key + [sep] + text)[|key|] == sep;
    SplitOnceGlue(key, sep, text);
    StripCharsTrimmed(key, Whitespace);
    StripCharsTrimmed(text, Whitespace);
  }
}
