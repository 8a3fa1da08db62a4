/**
 * The Python string operations the scraper relies on, over `string`
 * (`seq<char>`): `str.strip()`, `startswith`/`endswith`, `str.replace(p, '')`,
 * `str.split(sep)` and `sep.join(parts)`.
 */
module PyStr {

  /** The characters for which Python's `str.isspace()` holds, and so the
      characters `str.strip()` with no argument removes. */
  predicate IsSpace(c: char) {
    || ('\t' <= c <= '\r')
    || ('\U{1C}' <= c <= ' ')
    || c == '\U{85}' || c == '\U{A0}' || c == '\U{1680}'
    || ('\U{2000}' <= c <= '\U{200A}')
    || c == '\U{2028}' || c == '\U{2029}' || c == '\U{202F}' || c == '\U{205F}' || c == '\U{3000}'
  }

  predicate AllSpace(s: string) {
    forall i :: 0 <= i < |s| ==> IsSpace(s[i])
  }

  /** Neither begins nor ends with whitespace. */
  predicate IsStripped(s: string) {
    s == [] || (!IsSpace(s[0]) && !IsSpace(s[|s| - 1]))
  }

  predicate StartsWith(s: string, prefix: string) {
    |prefix| <= |s| && s[..|prefix|] == prefix
  }

  predicate EndsWith(s: string, suffix: string) {
    |suffix| <= |s| && s[|s| - |suffix|..] == suffix
  }

  predicate OccursAt(s: string, pat: string, i: nat) {
    i + |pat| <= |s| && s[i..i + |pat|] == pat
  }

  predicate Contains(s: string, pat: string) {
    exists i: nat :: i <= |s| && OccursAt(s, pat, i)
  }

  /** `str.lstrip()`: drops the leading whitespace and nothing else. */
  function TrimStart(s: string): (r: string)
    ensures |r| <= |s| && r == s[|s| - |r|..]
    ensures AllSpace(s[..|s| - |r|])
    ensures r == [] || !IsSpace(r[0])
  {
    if |s| > 0 && IsSpace(s[0]) then
      var r := TrimStart(s[1..]);
      assert s[..|s| - |r|] == [s[0]] + s[1..][..|s| - 1 - |r|];
      r
    else s
  }

  /** `str.rstrip()`: drops the trailing whitespace and nothing else. */
  function TrimEnd(s: string): (r: string)
    ensures |r| <= |s| && r == s[..|r|]
    ensures AllSpace(s[|r|..])
    ensures r == [] || !IsSpace(r[|r| - 1])
  {
    if |s| > 0 && IsSpace(s[|s| - 1]) then
      var r := TrimEnd(s[..|s| - 1]);
      assert s[|r|..] == s[..|s| - 1][|r|..] + [s[|s| - 1]];
      r
    else s
  }

  /** `str.strip()` with no argument. */
  function Strip(s: string): (r: string)
    ensures IsStripped(r)
    ensures |r| <= |s|
  {
    TrimEnd(TrimStart(s))
  }

  /** Number of leading whitespace characters `Strip` removes. */
  function LeadingSpace(s: string): nat {
    |s| - |TrimStart(s)|
  }

  /** `Strip` only removes whitespace, from the two ends. */
  lemma StripRemovesOnlyEnds(s: string)
    ensures var k := LeadingSpace(s);
      && k + |Strip(s)| <= |s|
      && s == s[..k] + Strip(s) + s[k + |Strip(s)|..]
      && AllSpace(s[..k]) && AllSpace(s[k + |Strip(s)|..])
  {
    CutEnds(s, TrimStart(s), Strip(s));
  }

  /** A suffix `t` of `s` and a prefix `r` of `t` cut `s` into three parts. */
  lemma CutEnds(s: string, t: string, r: string)
    requires |t| <= |s| && t == s[|s| - |t|..] && AllSpace(s[..|s| - |t|])
    requires |r| <= |t| && r == t[..|r|] && AllSpace(t[|r|..])
    ensures var k := |s| - |t|;
      && k + |r| <= |s|
      && s == s[..k] + r + s[k + |r|..]
      && AllSpace(s[..k]) && AllSpace(s[k + |r|..])
  {
    var k := |s| - |t|;
    SuffixSlices(s, k, |r|);
    PrefixParts(s, k, |r|);
  }

  lemma SuffixSlices(s: string, k: nat, n: nat)
    requires k + n <= |s|
    ensures s[k..][..n] == s[k..k + n] && s[k..][n..] == s[k + n..]
  {
  }

  lemma PrefixParts(s: string, k: nat, n: nat)
    requires k + n <= |s|
    ensures s == s[..k] + s[k..k + n] + s[k + n..]
  {
  }

  lemma Regroup(a: string, b: string, c: string, d: string, e: string)
    ensures a + b + c + d + e == a + (b + (c + d + e))
  {
  }

  lemma Assoc(a: string, b: string, c: string)
    ensures a + b + c == a + (b + c)
  {
  }

  lemma HeadOfConcat(a: string, b: string)
    requires |a| > 0
    ensures (a + b)[0] == a[0]
  {
  }

  /** `p + rest` starts with `p`, and dropping `|p|` characters leaves `rest`. */
  lemma PrefixFacts(p: string, rest: string)
    ensures StartsWith(p + rest, p)
    ensures (p + rest)[|p|..] == rest
  {
    assert (p + rest)[..|p|] == p;
  }

  lemma {:induction false} TrimStartSkips(pre: string, rest: string)
    requires AllSpace(pre)
    ensures TrimStart(pre + rest) == TrimStart(rest)
  {
    if pre != [] {
      var s := pre + rest;
      assert s[0] == pre[0] && IsSpace(s[0]);
      assert TrimStart(s) == TrimStart(s[1..]);
      assert s[1..] == pre[1..] + rest;
      assert AllSpace(pre[1..]) by {
        forall i | 0 <= i < |pre| - 1 ensures IsSpace(pre[1..][i]) {
          assert pre[1..][i] == pre[i + 1];
        }
      }
      TrimStartSkips(pre[1..], rest);
    } else {
      assert pre + rest == rest;
    }
  }

  lemma {:induction false} TrimEndSkips(rest: string, post: string)
    requires AllSpace(post)
    ensures TrimEnd(rest + post) == TrimEnd(rest)
  {
    if post != [] {
      var s := rest + post;
      assert s[|s| - 1] == post[|post| - 1] && IsSpace(s[|s| - 1]);
      assert TrimEnd(s) == TrimEnd(s[..|s| - 1]);
      assert s[..|s| - 1] == rest + post[..|post| - 1];
      var p := post[..|post| - 1];
      assert AllSpace(p) by {
        forall i | 0 <= i < |p| ensures IsSpace(p[i]) {
          assert p[i] == post[i];
        }
      }
      TrimEndSkips(rest, post[..|post| - 1]);
    } else {
      assert rest + post == rest;
    }
  }

  /** `Strip` is exactly "remove surrounding whitespace": whatever whitespace
      pads a stripped core, stripping gives the core back. */
  lemma StripPadded(pre: string, core: string, post: string)
    requires AllSpace(pre) && AllSpace(post) && IsStripped(core)
    ensures Strip(pre + core + post) == core
  {
    assert pre + core + post == pre + (core + post);
    TrimStartSkips(pre, core + post);
    if core == [] {
      assert core + post == post + [];
      TrimStartSkips(post, []);
    } else {
      assert TrimStart(core + post) == core + post;
      TrimEndSkips(core, post);
    }
  }

  lemma AllSpaceConcat(a: string, b: string)
    requires AllSpace(a) && AllSpace(b)
    ensures AllSpace(a + b)
  {
    forall i | 0 <= i < |a + b| ensures IsSpace((a + b)[i]) {
      if i < |a| { assert (a + b)[i] == a[i]; } else { assert (a + b)[i] == b[i - |a|]; }
    }
  }

  lemma StripIdempotent(s: string)
    ensures Strip(Strip(s)) == Strip(s)
  {
    StripPadded([], Strip(s), []);
    assert [] + Strip(s) + [] == Strip(s);
  }

  /** `s.replace(pat, '')`: every non-overlapping occurrence of `pat`, found
      from left to right, is removed. */
  function RemoveAll(s: string, pat: string): (r: string)
    requires |pat| > 0
    ensures |r| <= |s|
    decreases |s|
  {
    if s == [] then []
    else if StartsWith(s, pat) then RemoveAll(s[|pat|..], pat)
    else [s[0]] + RemoveAll(s[1..], pat)
  }

  lemma {:induction false} RemoveAllAbsent(s: string, pat: string)
    requires |pat| > 0 && !Contains(s, pat)
    ensures RemoveAll(s, pat) == s
    decreases |s|
  {
    if s != [] {
      if StartsWith(s, pat) {
        assert OccursAt(s, pat, 0);
      }
      forall i: nat | OccursAt(s[1..], pat, i) ensures false {
        assert s[1..][i..i + |pat|] == s[i + 1..i + 1 + |pat|];
        assert OccursAt(s, pat, i + 1);
      }
      RemoveAllAbsent(s[1..], pat);
      assert s == [s[0]] + s[1..];
    }
  }

  /** A removal pattern found at the front is removed whole. */
  lemma RemoveAllFront(pat: string, s: string)
    requires |pat| > 0
    ensures RemoveAll(pat + s, pat) == RemoveAll(s, pat)
  {
    assert (pat + s)[..|pat|] == pat;
    assert (pat + s)[|pat|..] == s;
  }

  /** Removing a single character distributes over concatenation. */
  lemma {:induction false} RemoveCharConcat(a: string, b: string, c: char)
    ensures RemoveAll(a + b, [c]) == RemoveAll(a, [c]) + RemoveAll(b, [c])
    decreases |a|
  {
    if a != [] {
      var s := a + b;
      assert s[1..] == a[1..] + b;
      assert StartsWith(s, [c]) <==> a[0] == c by {
        assert s[..1] == [s[0]] && a[..1] == [a[0]];
      }
      assert StartsWith(a, [c]) <==> a[0] == c by {
        assert a[..1] == [a[0]];
      }
      RemoveCharConcat(a[1..], b, c);
      if a[0] == c {
        assert RemoveAll(s, [c]) == RemoveAll(s[1..], [c]);
        assert RemoveAll(a, [c]) == RemoveAll(a[1..], [c]);
      } else {
        assert RemoveAll(s, [c]) == [a[0]] + RemoveAll(s[1..], [c]);
        assert RemoveAll(a, [c]) == [a[0]] + RemoveAll(a[1..], [c]);
      }
    } else {
      assert a + b == b;
    }
  }

  /** After `s.replace(c, '')` no `c` is left. */
  lemma {:induction false} RemoveCharGone(s: string, c: char)
    ensures c !in RemoveAll(s, [c])
    decreases |s|
  {
    if s != [] {
      RemoveCharGone(s[1..], c);
    }
  }

  /** Removing a single character that does not occur changes nothing. */
  lemma {:induction false} RemoveCharAbsent(s: string, c: char)
    requires c !in s
    ensures RemoveAll(s, [c]) == s
    decreases |s|
  {
    if s != [] {
      assert s[0] != c;
      RemoveCharAbsent(s[1..], c);
      assert s == [s[0]] + s[1..];
    }
  }

  /** `sep.join(parts)`. */
  function Join(sep: string, parts: seq<string>): string
    decreases |parts|
  {
    if |parts| == 0 then []
    else if |parts| == 1 then parts[0]
    else parts[0] + sep + Join(sep, parts[1..])
  }

  /** The pieces of `s.split(sep)` when the piece being built so far is `cur`. */
  function SplitFrom(s: string, sep: string, cur: string): (r: seq<string>)
    requires |sep| > 0
    ensures |r| >= 1
    decreases |s|
  {
    if s == [] then [cur]
    else if StartsWith(s, sep) then [cur] + SplitFrom(s[|sep|..], sep, [])
    else SplitFrom(s[1..], sep, cur + [s[0]])
  }

  /** Joining non-empty trimmed pieces gives non-empty trimmed text. */
  lemma {:induction false} JoinStripped(sep: string, parts: seq<string>)
    requires |parts| > 0
    requires forall i :: 0 <= i < |parts| ==> parts[i] != [] && IsStripped(parts[i])
    ensures Join(sep, parts) != [] && IsStripped(Join(sep, parts))
    decreases |parts|
  {
    if |parts| > 1 {
      var rest := Join(sep, parts[1..]);
      JoinStripped(sep, parts[1..]);
      var j := parts[0] + sep + rest;
      assert j[0] == parts[0][0];
      assert j[|j| - 1] == rest[|rest| - 1];
    }
  }

  /** `s.split(sep)` for a non-empty separator: the pieces between the
      non-overlapping occurrences of `sep`, found from left to right. */
  function Split(s: string, sep: string): (r: seq<string>)
    requires |sep| > 0
    ensures |r| >= 1
  {
    SplitFrom(s, sep, [])
  }

  lemma {:induction false} JoinSplitFrom(s: string, sep: string, cur: string)
    requires |sep| > 0
    ensures Join(sep, SplitFrom(s, sep, cur)) == cur + s
    decreases |s|
  {
    if s == [] {
    } else if StartsWith(s, sep) {
      var rest := SplitFrom(s[|sep|..], sep, []);
      JoinSplitFrom(s[|sep|..], sep, []);
      assert ([cur] + rest)[1..] == rest;
      assert s == sep + s[|sep|..];
    } else {
      JoinSplitFrom(s[1..], sep, cur + [s[0]]);
      assert cur + [s[0]] + s[1..] == cur + s;
    }
  }

  /** Joining the pieces of a split with the same separator gives the text back. */
  lemma JoinSplit(s: string, sep: string)
    requires |sep| > 0
    ensures Join(sep, Split(s, sep)) == s
  {
    JoinSplitFrom(s, sep, []);
  }

  /** No occurrence of `sep` in `pre + sep + rest` starts inside `pre` and
      runs past its end. */
  predicate NoStraddle(pre: string, sep: string, rest: string) {
    forall i: nat :: i < |pre| < i + |sep| ==> !OccursAt(pre + sep + rest, sep, i)
  }

  /** A separator whose first character occurs nowhere else in it cannot
      overlap an occurrence of itself. */
  lemma NoStraddleFresh(pre: string, sep: string, rest: string)
    requires |sep| > 0
    requires forall k :: 0 < k < |sep| ==> sep[k] != sep[0]
    ensures NoStraddle(pre, sep, rest)
  {
    var s := pre + sep + rest;
    forall i: nat | i < |pre| < i + |sep| ensures !OccursAt(s, sep, i) {
      var k := |pre| - i;
      assert s[|pre|] == sep[0] != sep[k];
      assert s[i..i + |sep|][k] == s[|pre|];
    }
  }

  lemma {:induction false} SplitFromCut(pre: string, sep: string, rest: string, cur: string)
    requires |sep| > 0 && NoStraddle(pre, sep, rest)
    ensures SplitFrom(pre + sep + rest, sep, cur) == SplitFrom(pre, sep, cur) + SplitFrom(rest, sep, [])
    decreases |pre|
  {
    var s := pre + sep + rest;
    if pre == [] {
      assert s == sep + rest;
      assert StartsWith(s, sep);
      assert s[|sep|..] == rest;
    } else if StartsWith(s, sep) {
      assert OccursAt(s, sep, 0);
      assert |sep| <= |pre|;
      assert StartsWith(pre, sep);
      var pre' := pre[|sep|..];
      assert s[|sep|..] == pre' + sep + rest;
      NoStraddleShift(pre, sep, rest, |sep|);
      SplitFromCut(pre', sep, rest, []);
    } else {
      assert !StartsWith(pre, sep) by {
        if |sep| <= |pre| {
          assert s[..|sep|] == pre[..|sep|];
        }
      }
      var pre' := pre[1..];
      assert s[1..] == pre' + sep + rest;
      NoStraddleShift(pre, sep, rest, 1);
      SplitFromCut(pre', sep, rest, cur + [s[0]]);
    }
  }

  /** Dropping the first `d` characters of `pre` keeps the no-overlap
      condition. */
  lemma NoStraddleShift(pre: string, sep: string, rest: string, d: nat)
    requires d <= |pre| && NoStraddle(pre, sep, rest)
    ensures NoStraddle(pre[d..], sep, rest)
  {
    var s := pre + sep + rest;
    assert s[d..] == pre[d..] + sep + rest;
    forall i: nat | i < |pre[d..]| < i + |sep|
      ensures !OccursAt(pre[d..] + sep + rest, sep, i)
    {
      OccursShift(s, sep, d, i);
    }
  }

  lemma OccursShift(s: string, pat: string, d: nat, i: nat)
    requires d <= |s|
    ensures OccursAt(s[d..], pat, i) <==> OccursAt(s, pat, i + d)
  {
  }

  /** Splitting at a separator occurrence that nothing overlaps splits the
      two sides independently. */
  lemma SplitCut(pre: string, sep: string, rest: string)
    requires |sep| > 0 && NoStraddle(pre, sep, rest)
    ensures Split(pre + sep + rest, sep) == Split(pre, sep) + Split(rest, sep)
  {
    SplitFromCut(pre, sep, rest, []);
  }

  lemma {:induction false} SplitFromNoSep(s: string, sep: string, cur: string)
    requires |sep| > 0 && !Contains(s, sep)
    ensures SplitFrom(s, sep, cur) == [cur + s]
    decreases |s|
  {
    if s != [] {
      if StartsWith(s, sep) {
        assert OccursAt(s, sep, 0);
      }
      forall i: nat | OccursAt(s[1..], sep, i) ensures false {
        assert s[1..][i..i + |sep|] == s[i + 1..i + 1 + |sep|];
        assert OccursAt(s, sep, i + 1);
      }
      SplitFromNoSep(s[1..], sep, cur + [s[0]]);
      assert cur + [s[0]] + s[1..] == cur + s;
    } else {
      assert cur + s == cur;
    }
  }

  /** Text without the separator is one piece. */
  lemma SplitNoSep(s: string, sep: string)
    requires |sep| > 0 && !Contains(s, sep)
    ensures Split(s, sep) == [s]
  {
    SplitFromNoSep(s, sep, []);
    assert [] + s == s;
  }

  lemma ContainsChar(s: string, c: char)
    ensures Contains(s, [c]) <==> c in s
  {
    if c in s {
      var i :| 0 <= i < |s| && s[i] == c;
      assert s[i..i + 1] == [c];
      assert OccursAt(s, [c], i);
    }
    if Contains(s, [c]) {
      var i: nat :| i <= |s| && OccursAt(s, [c], i);
      assert s[i] == s[i..i + 1][0];
    }
  }

  /** The first piece of a split at a single character holds no such character. */
  lemma {:induction false} SplitFromFirstNoChar(s: string, c: char, cur: string)
    requires c !in cur
    ensures c !in SplitFrom(s, [c], cur)[0]
    decreases |s|
  {
    if s != [] && !StartsWith(s, [c]) {
      assert s[..1] == [s[0]];
      SplitFromFirstNoChar(s[1..], c, cur + [s[0]]);
    }
  }

  lemma SplitFirstNoChar(s: string, c: char)
    ensures c !in Split(s, [c])[0]
  {
    SplitFromFirstNoChar(s, c, []);
  }

  /** Removal keeps only characters that were there. */
  lemma {:induction false} RemoveAllKeeps(s: string, pat: string, c: char)
    requires |pat| > 0 && c in RemoveAll(s, pat)
    ensures c in s
    decreases |s|
  {
    if StartsWith(s, pat) {
      RemoveAllKeeps(s[|pat|..], pat, c);
    } else if c != s[0] {
      RemoveAllKeeps(s[1..], pat, c);
    }
  }
}
