/**
  String operations of Rust's `str` that the crawler relies on, written out
  on `seq<char>`: `split(c)`, joining with a separator, `trim_end_matches(c)`
  and `split_once(pat)`.
 */
module Strings {
  import opened Wrappers

  /** Joins `parts` with `sep` between consecutive parts. */
  function Join(parts: seq<string>, sep: char): string
  {
    if |parts| == 0 then ""
    else if |parts| == 1 then parts[0]
    else parts[0] + [sep] + Join(parts[1..], sep)
  }

  /** No part contains the separator. */
  ghost predicate SeparatorFree(parts: seq<string>, sep: char)
  {
    forall i :: 0 <= i < |parts| ==> sep !in parts[i]
  }

  /** Rust's `s.split(sep)`: the parts between separators, at least one. */
  function Split(s: string, sep: char): (parts: seq<string>)
    ensures |parts| >= 1
  {
    if |s| == 0 then [""]
    else
      var rest := Split(s[1..], sep);
      if s[0] == sep then [""] + rest
      else [[s[0]] + rest[0]] + rest[1..]
  }

  /**
    What `split` promises: no part contains the separator and joining the
    parts with it gives the string back; a string without the separator is
    its own single part.
   */
  lemma {:induction false} SplitJoinsBack(s: string, sep: char)
    ensures SeparatorFree(Split(s, sep), sep)
    ensures Join(Split(s, sep), sep) == s
    ensures sep !in s ==> Split(s, sep) == [s]
  {
    if |s| > 0 {
      var rest := Split(s[1..], sep);
      SplitJoinsBack(s[1..], sep);
      if s[0] == sep {
        assert s == [sep] + s[1..];
      } else {
        assert s == [s[0]] + s[1..];
        JoinConsHead(s[0], rest, sep);
      }
    }
  }

  lemma JoinConsHead(c: char, parts: seq<string>, sep: char)
    requires |parts| >= 1
    ensures Join([[c] + parts[0]] + parts[1..], sep) == [c] + Join(parts, sep)
  {
    var q := [[c] + parts[0]] + parts[1..];
    assert q[1..] == parts[1..];
  }

  /** How `Split` treats the first character. */
  lemma SplitCons(c: char, s: string, sep: char)
    ensures Split([c] + s, sep) ==
      if c == sep then [""] + Split(s, sep)
      else [[c] + Split(s, sep)[0]] + Split(s, sep)[1..]
  {
    assert ([c] + s)[0] == c && ([c] + s)[1..] == s;
  }

  /** Splitting at one separator splits each side independently. */
  lemma {:induction false} SplitAppend(a: string, b: string, sep: char)
    ensures Split(a + [sep] + b, sep) == Split(a, sep) + Split(b, sep)
  {
    if |a| == 0 {
      assert a + [sep] + b == [sep] + b;
      SplitCons(sep, b, sep);
    } else {
      var a' := a[1..];
      assert a == [a[0]] + a';
      assert a + [sep] + b == [a[0]] + (a' + [sep] + b);
      SplitAppend(a', b, sep);
      SplitAppendCons(a[0], a', b, sep);
    }
  }

  /** One more leading character keeps `SplitAppend` true. */
  lemma SplitAppendCons(c: char, a: string, b: string, sep: char)
    requires Split(a + [sep] + b, sep) == Split(a, sep) + Split(b, sep)
    ensures Split([c] + (a + [sep] + b), sep) == Split([c] + a, sep) + Split(b, sep)
  {
    SplitCons(c, a + [sep] + b, sep);
    SplitCons(c, a, sep);
    if c == sep {
      ConsAssoc("", Split(a, sep), Split(b, sep));
    } else {
      HeadExtend(c, Split(a + [sep] + b, sep), Split(a, sep), Split(b, sep));
    }
  }

  lemma ConsAssoc(x: string, q: seq<string>, r: seq<string>)
    ensures [x] + (q + r) == ([x] + q) + r
  {
  }

  /** Extending the first part of `q + r` is extending the first part of `q`, then appending `r`. */
  lemma HeadExtend(c: char, p: seq<string>, q: seq<string>, r: seq<string>)
    requires |q| >= 1 && p == q + r
    ensures [[c] + p[0]] + p[1..] == ([[c] + q[0]] + q[1..]) + r
  {
    assert p[0] == q[0] && p[1..] == q[1..] + r;
  }

  /** The other round trip: separator-free parts are recovered by splitting their join. */
  lemma {:induction false} SplitJoin(parts: seq<string>, sep: char)
    requires |parts| >= 1
    requires SeparatorFree(parts, sep)
    ensures Split(Join(parts, sep), sep) == parts
  {
    SplitJoinsBack(parts[0], sep);
    if |parts| > 1 {
      SplitJoin(parts[1..], sep);
      SplitAppend(parts[0], Join(parts[1..], sep), sep);
      assert parts == [parts[0]] + parts[1..];
    }
  }

  /** Joining two separated lists is joining their concatenation. */
  lemma {:induction false} JoinAppend(p: seq<string>, q: seq<string>, sep: char)
    requires |p| >= 1 && |q| >= 1
    ensures Join(p + q, sep) == Join(p, sep) + [sep] + Join(q, sep)
  {
    if |p| > 1 {
      assert (p + q)[1..] == p[1..] + q;
      JoinAppend(p[1..], q, sep);
    } else {
      assert (p + q)[1..] == q;
    }
  }

  /** `s.ends_with(c)` for one character. */
  predicate EndsWith(s: string, c: char)
  {
    |s| > 0 && s[|s| - 1] == c
  }

  /** `s.starts_with(p)`. */
  predicate StartsWith(s: string, p: string)
  {
    |p| <= |s| && s[..|p|] == p
  }

  /** `n` copies of `c`. */
  function Repeat(c: char, n: nat): (r: string)
    ensures |r| == n
    ensures forall i :: 0 <= i < n ==> r[i] == c
  {
    if n == 0 then "" else Repeat(c, n - 1) + [c]
  }

  /**
    Rust's `s.trim_end_matches(c)`: the longest prefix of `s` whose removal
    leaves only copies of `c`, so it no longer ends with `c`.
   */
  function TrimEnd(s: string, c: char): (r: string)
    ensures |r| <= |s| && r == s[..|r|]
    ensures !EndsWith(r, c)
    ensures forall i :: |r| <= i < |s| ==> s[i] == c
  {
    if EndsWith(s, c) then TrimEnd(s[..|s| - 1], c) else s
  }

  /** `TrimEnd` only removes trailing copies of `c`: `s` is the result followed by them. */
  lemma TrimEndRemovesOnlyTrail(s: string, c: char)
    ensures s == TrimEnd(s, c) + Repeat(c, |s| - |TrimEnd(s, c)|)
  {
    var r := TrimEnd(s, c);
    var t := Repeat(c, |s| - |r|);
    assert |r + t| == |s|;
    forall i | 0 <= i < |s| ensures (r + t)[i] == s[i] {
      if i >= |r| {
        assert (r + t)[i] == t[i - |r|];
      }
    }
  }

  /** Trimming is idempotent and ignores extra trailing copies of `c`. */
  lemma {:induction false} TrimEndRepeat(s: string, c: char, n: nat)
    ensures TrimEnd(s + Repeat(c, n), c) == TrimEnd(s, c)
  {
    if n == 0 {
      assert s + Repeat(c, n) == s;
    } else {
      var t := s + Repeat(c, n);
      assert EndsWith(t, c);
      assert t[..|t| - 1] == s + Repeat(c, n - 1);
      TrimEndRepeat(s, c, n - 1);
    }
  }

  /** Trimming never reaches into a prefix when the rest starts with another character. */
  lemma {:induction false} TrimEndPrefix(p: string, r: string, c: char)
    requires r != [] && r[0] != c
    ensures TrimEnd(p + r, c) == p + TrimEnd(r, c)
  {
    var t := p + r;
    assert t[..|t| - 1] == p + r[..|r| - 1];
    if EndsWith(r, c) {
      assert |r| > 1;
      TrimEndPrefix(p, r[..|r| - 1], c);
    }
  }

  /** `pat` occurs in `s` at position `i`. */
  predicate OccursAt(s: string, pat: string, i: nat)
  {
    i + |pat| <= |s| && s[i..i + |pat|] == pat
  }

  /** The first position at or after `from` where `pat` occurs in `s`. */
  function FindFrom(s: string, pat: string, from: nat): (r: Option<nat>)
    requires from <= |s|
    ensures r.Some? ==> from <= r.value && OccursAt(s, pat, r.value)
    ensures r.Some? ==> forall j :: from <= j < r.value ==> !OccursAt(s, pat, j)
    ensures r.None? ==> forall j :: from <= j <= |s| ==> !OccursAt(s, pat, j)
    decreases |s| - from
  {
    if OccursAt(s, pat, from) then Some(from)
    else if from == |s| then None
    else FindFrom(s, pat, from + 1)
  }

  /** Rust's `s.split_once(pat)`: the text before and after the first occurrence. */
  function SplitOnce(s: string, pat: string): (r: Option<(string, string)>)
    ensures r.None? ==> forall j :: 0 <= j <= |s| ==> !OccursAt(s, pat, j)
    ensures r.Some? ==> s == r.value.0 + pat + r.value.1
    ensures r.Some? ==> forall j :: 0 <= j < |r.value.0| ==> !OccursAt(s, pat, j)
  {
    match FindFrom(s, pat, 0)
    case None => None
    case Some(i) =>
      assert s == s[..i] + s[i..i + |pat|] + s[i + |pat|..];
      Some((s[..i], s[i + |pat|..]))
  }
}
