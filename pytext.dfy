/** The few Python `str` operations the server code relies on: `strip()`,
    `startswith`/`endswith`, `lower()`, the substring test `a in b` and
    `split(' ')`. Strings are sequences of characters. */
module PyText {

  /** Python's `str.isspace()` on one character: the characters `str.strip()`
      with no argument removes. */
  predicate IsSpace(c: char)
    ensures c == ' ' || c == '\t' || c == '\n' || c == '\r' ==> IsSpace(c)
    ensures c == '`' || ('a' <= c <= 'z') || ('A' <= c <= 'Z') || ('0' <= c <= '9') ==> !IsSpace(c)
  {
    || ('\t' <= c <= '\r')
    || ('\U{1C}' <= c <= '\U{1F}')
    || c == ' '
    || c == '\U{85}'
    || c == '\U{A0}'
    || c == '\U{1680}'
    || ('\U{2000}' <= c <= '\U{200A}')
    || c == '\U{2028}'
    || c == '\U{2029}'
    || c == '\U{202F}'
    || c == '\U{205F}'
    || c == '\U{3000}'
  }

  ghost predicate AllSpace(t: string) {
    forall k :: 0 <= k < |t| ==> IsSpace(t[k])
  }

  /** No white space at either end. */
  predicate IsStripped(r: string) {
    r == [] || (!IsSpace(r[0]) && !IsSpace(r[|r| - 1]))
  }

  /** `r` is what `s.strip()` leaves: a slice of `s` with nothing but white
      space before and after it, and no white space at its own ends. */
  ghost predicate IsStripOf(s: string, r: string) {
    exists i, j :: StripAt(s, r, i, j)
  }

  /** `r` is the slice `s[i..j]`, and everything around it is white space. */
  ghost predicate StripAt(s: string, r: string, i: int, j: int) {
    0 <= i <= j <= |s| && r == s[i..j] && AllSpace(s[..i]) && AllSpace(s[j..]) && IsStripped(r)
  }

  /** `s.lstrip()`. */
  function LStrip(s: string): (r: string)
    ensures |r| <= |s| && r == s[|s| - |r|..]
    ensures forall k :: 0 <= k < |s| - |r| ==> IsSpace(s[k])
    ensures r == [] || !IsSpace(r[0])
  {
    if s != [] && IsSpace(s[0]) then LStrip(s[1..]) else s
  }

  /** `s.rstrip()`. */
  function RStrip(s: string): (r: string)
    ensures |r| <= |s| && r == s[..|r|]
    ensures AllSpace(s[|r|..])
    ensures r == [] || !IsSpace(r[|r| - 1])
  {
    if s != [] && IsSpace(s[|s| - 1]) then RStrip(s[..|s| - 1]) else s
  }

  /** `s.strip()`. */
  function Strip(s: string): (r: string)
    ensures IsStripped(r)
    ensures |r| <= |s|
  {
    RStrip(LStrip(s))
  }

  /** `strip()` keeps a slice of its argument and removes only white space. */
  lemma StripIsStripOf(s: string)
    ensures IsStripOf(s, Strip(s))
  {
    var l := LStrip(s);
    StripAtIntro(s, l, RStrip(l));
  }

  /** A white-space prefix cut off, then a white-space suffix: a strip. */
  lemma StripAtIntro(s: string, l: string, r: string)
    requires |l| <= |s| && l == s[|s| - |l|..] && AllSpace(s[..|s| - |l|])
    requires |r| <= |l| && r == l[..|r|] && AllSpace(l[|r|..])
    requires IsStripped(r)
    ensures StripAt(s, r, |s| - |l|, |s| - |l| + |r|)
  {
    var i := |s| - |l|;
    assert r == s[i..i + |r|];
    assert s[i + |r|..] == l[|r|..];
  }

  /** There is only one way to strip a string, so `IsStripOf` pins `Strip` down. */
  lemma StripUnique(s: string, r1: string, r2: string)
    requires IsStripOf(s, r1) && IsStripOf(s, r2)
    ensures r1 == r2
  {
    var i1, j1 :| StripAt(s, r1, i1, j1);
    var i2, j2 :| StripAt(s, r2, i2, j2);
    if r1 != [] {
      SpaceBeforeBound(s, i2, i1);
      SpaceAfterBound(s, j2, j1 - 1);
    }
    if r2 != [] {
      SpaceBeforeBound(s, i1, i2);
      SpaceAfterBound(s, j1, j2 - 1);
    }
  }

  /** A non-space character of `s` lies at or after the end of any white-space prefix. */
  lemma SpaceBeforeBound(s: string, i: nat, k: nat)
    requires i <= |s| && AllSpace(s[..i])
    requires k < |s| && !IsSpace(s[k])
    ensures i <= k
  {
  }

  /** A non-space character of `s` lies before the start of any white-space suffix. */
  lemma SpaceAfterBound(s: string, j: nat, k: nat)
    requires j <= |s| && AllSpace(s[j..])
    requires k < |s| && !IsSpace(s[k])
    ensures k < j
  {
  }

  /** Stripping a string with no white space at its ends gives it back. */
  lemma StripOfStripped(s: string)
    requires IsStripped(s)
    ensures Strip(s) == s
  {
    StripIsStripOf(s);
    assert StripAt(s, s, 0, |s|);
    StripUnique(s, s, Strip(s));
  }

  /** `lstrip()` of a concatenation: the second part is reached only when the
      first is all white space. */
  lemma {:induction false} LStripAppend(s: string, t: string)
    ensures LStrip(s + t) == if LStrip(s) == [] then LStrip(t) else LStrip(s) + t
  {
    if s == [] {
      assert s + t == t;
    } else {
      assert (s + t)[0] == s[0] && (s + t)[1..] == s[1..] + t;
      if IsSpace(s[0]) {
        LStripAppend(s[1..], t);
      }
    }
  }

  /** `rstrip()` of a string followed by white space. */
  lemma {:induction false} RStripTrailingSpace(s: string, w: string)
    requires AllSpace(w)
    ensures RStrip(s + w) == RStrip(s)
  {
    if w == [] {
      assert s + w == s;
    } else {
      var u := s + w[..|w| - 1];
      assert s + w == u + [w[|w| - 1]];
      assert (s + w)[..|s + w| - 1] == u;
      RStripTrailingSpace(s, w[..|w| - 1]);
    }
  }

  /** White space in front of a string does not survive `strip()`. */
  lemma StripLeadingSpace(w: string, s: string)
    requires AllSpace(w)
    ensures Strip(w + s) == Strip(s)
  {
    LStripAppend(w, s);
    assert LStrip(w) == [];
  }

  /** White space after a string does not survive `strip()`. */
  lemma StripTrailingSpace(s: string, w: string)
    requires AllSpace(w)
    ensures Strip(s + w) == Strip(s)
  {
    LStripAppend(s, w);
    if LStrip(s) == [] {
      assert LStrip(w) == [] by { LStripAppend(w, []); assert w + [] == w; }
    } else {
      RStripTrailingSpace(LStrip(s), w);
    }
  }

  /** `s.startswith(prefix)`: the first `|prefix|` characters are those of `prefix`. */
  predicate StartsWith(s: string, prefix: string)
    ensures StartsWith(s, prefix) <==> |prefix| <= |s| && forall k :: 0 <= k < |prefix| ==> s[k] == prefix[k]
  {
    |prefix| <= |s| && s[..|prefix|] == prefix
  }

  /** `s.endswith(suffix)`: the last `|suffix|` characters are those of `suffix`. */
  predicate EndsWith(s: string, suffix: string)
    ensures EndsWith(s, suffix) <==> |suffix| <= |s| && forall k :: 0 <= k < |suffix| ==> s[|s| - |suffix| + k] == suffix[k]
  {
    |suffix| <= |s| && s[|s| - |suffix|..] == suffix
  }

  /** `str.lower()` on one character, for the ASCII letters. */
  function LowerChar(c: char): (r: char)
    ensures !('A' <= r <= 'Z')
    ensures 'A' <= c <= 'Z' ==> 'a' <= r <= 'z' && r as int - c as int == 32
    ensures !('A' <= c <= 'Z') ==> r == c
  {
    if 'A' <= c <= 'Z' then (c as int + 32) as char else c
  }

  /** `s.lower()`, letter by letter. */
  function Lower(s: string): (r: string)
    ensures |r| == |s|
    ensures forall k :: 0 <= k < |r| ==> !('A' <= r[k] <= 'Z')
  {
    seq(|s|, k requires 0 <= k < |s| => LowerChar(s[k]))
  }

  /** `needle in hay`: the substring test, scanning the start positions of
      `hay` in turn (the empty string is in every string). */
  predicate Contains(hay: string, needle: string)
    ensures Contains(hay, needle) ==> |needle| <= |hay|
    ensures StartsWith(hay, needle) || needle == [] ==> Contains(hay, needle)
  {
    StartsWith(hay, needle) || (hay != [] && Contains(hay[1..], needle))
  }

  /** `Contains` holds exactly when the needle starts at some position. */
  lemma {:induction false} ContainsAt(hay: string, needle: string)
    ensures Contains(hay, needle) <==> exists i :: 0 <= i <= |hay| && StartsWith(hay[i..], needle)
  {
    assert hay[0..] == hay;
    if hay != [] {
      ContainsAt(hay[1..], needle);
      if Contains(hay[1..], needle) {
        var i :| 0 <= i <= |hay[1..]| && StartsWith(hay[1..][i..], needle);
        assert hay[1..][i..] == hay[i + 1..];
      }
      forall i | 1 <= i <= |hay| && StartsWith(hay[i..], needle)
        ensures Contains(hay[1..], needle)
      {
        assert hay[1..][i - 1..] == hay[i..];
      }
    }
  }

  /** `needle.lower() in hay.lower()`. */
  predicate ContainsIgnoringCase(hay: string, needle: string)
    ensures ContainsIgnoringCase(hay, needle) ==> |needle| <= |hay|
    ensures needle == [] ==> ContainsIgnoringCase(hay, needle)
  {
    Contains(Lower(hay), Lower(needle))
  }

  /** Lower-casing is idempotent. */
  lemma LowerIdempotent(s: string)
    ensures Lower(Lower(s)) == Lower(s)
  {
  }

  /** The case-insensitive test does not see the case of either argument. */
  lemma IgnoresCase(hay: string, needle: string)
    ensures ContainsIgnoringCase(Lower(hay), Lower(needle)) == ContainsIgnoringCase(hay, needle)
  {
    LowerIdempotent(hay);
    LowerIdempotent(needle);
  }

  /** `s.split(sep)` for a one-character separator: the (possibly empty) fields
      between the separators, so always at least one field. */
  function Split(s: string, sep: char): (fields: seq<string>)
    ensures |fields| >= 1
    ensures forall k :: 0 <= k < |fields| ==> sep !in fields[k]
  {
    if s == [] then [[]]
    else
      var rest := Split(s[1..], sep);
      if s[0] == sep then [[]] + rest else [[s[0]] + rest[0]] + rest[1..]
  }

  /** `sep.join(fields)`. */
  function Join(fields: seq<string>, sep: char): (r: string)
    requires |fields| >= 1
    ensures |fields[0]| <= |r| && r[..|fields[0]|] == fields[0]
    ensures |r| >= |fields| - 1
  {
    if |fields| == 1 then fields[0] else fields[0] + [sep] + Join(fields[1..], sep)
  }

  /** Splitting loses nothing: joining the fields back gives the string. */
  lemma {:induction false} JoinSplit(s: string, sep: char)
    ensures Join(Split(s, sep), sep) == s
  {
    if s != [] {
      var rest := Split(s[1..], sep);
      JoinSplit(s[1..], sep);
      if s[0] == sep {
        assert ([[]] + rest)[1..] == rest;
      } else if |rest| > 1 {
        assert ([[s[0]] + rest[0]] + rest[1..])[1..] == rest[1..];
      }
    }
  }

  /** A separator-free piece followed by the separator is exactly the first field. */
  lemma {:induction false} SplitAfterField(p: string, sep: char, t: string)
    requires sep !in p
    ensures Split(p + [sep] + t, sep) == [p] + Split(t, sep)
  {
    if p != [] {
      SplitAfterField(p[1..], sep, t);
      assert (p + [sep] + t)[1..] == p[1..] + [sep] + t;
      assert [p[0]] + p[1..] == p;
    } else {
      assert ([] + [sep] + t)[1..] == t;
    }
  }

  /** The first field of `s.split(sep)`: the longest separator-free prefix of `s`. */
  lemma {:induction false} FirstField(s: string, sep: char)
    ensures StartsWith(s, Split(s, sep)[0])
    ensures |Split(s, sep)[0]| == |s| || s[|Split(s, sep)[0]|] == sep
  {
    if s != [] && s[0] != sep {
      FirstField(s[1..], sep);
    }
  }
}
