/**
 * What `find_matching_amazon_images` (main.py) does with the text the
 * image-matching model sends back: trim it, strip one pair of surrounding
 * triple-backtick fences, strip a leading `json` tag, then parse it as JSON
 * (RFC 8259). Only the JSON values the rest of the pipeline can use are
 * modelled: an array of integers. A decode failure yields no indices.
 */
module OracleReply {
  import opened Wrappers
  import opened PyStr

  const Fence: string := "```"
  const JsonTag: string := "json"

  /** Python's `s[3:-3]`: empty when the text is shorter than six characters. */
  function InsideFences(s: string): string {
    if |s| >= 6 then s[3..|s| - 3] else []
  }

  /** Strips one pair of surrounding triple-backtick fences, if the text both
      starts and ends with one, and trims what was inside. */
  function Unfence(s: string): (r: string)
    ensures IsStripped(s) ==> IsStripped(r)
  {
    if StartsWith(s, Fence) && EndsWith(s, Fence) then Strip(InsideFences(s)) else s
  }

  /** Strips a leading `json` language tag, if any, and trims what follows. */
  function Untag(s: string): (r: string)
    ensures IsStripped(s) ==> IsStripped(r)
  {
    if StartsWith(s, JsonTag) then Strip(s[|JsonTag|..]) else s
  }

  /** The normalisation applied to the reply before it is parsed. */
  function Normalize(reply: string): (r: string)
    ensures IsStripped(r)
  {
    Untag(Unfence(Strip(reply)))
  }

  /** A reply that is neither fenced nor tagged is only trimmed. */
  lemma NormalizeUnfenced(pre: string, body: string, post: string)
    requires AllSpace(pre) && AllSpace(post) && IsStripped(body)
    requires !(StartsWith(body, Fence) && EndsWith(body, Fence))
    requires !StartsWith(body, JsonTag)
    ensures Normalize(pre + body + post) == body
  {
    StripPadded(pre, body, post);
  }

  lemma UnfenceFenced(inner: string)
    ensures Unfence(Fence + inner + Fence) == Strip(inner)
  {
    var x := Fence + inner + Fence;
    assert x[..3] == Fence;
    assert x[|x| - 3..] == Fence;
    assert x[3..|x| - 3] == inner;
  }

  /** The tag and the whitespace after it go; the body stays. */
  lemma UntagTagged(gap: string, body: string, gap2: string)
    requires AllSpace(gap) && AllSpace(gap2) && IsStripped(body)
    ensures Untag(Strip(JsonTag + gap + body + gap2)) == body
  {
    if body == [] {
      UntagTaggedEmpty(gap, gap2);
      EmptyMiddle(JsonTag + gap, gap2);
    } else {
      UntagTaggedBody(gap, body, gap2);
    }
  }

  lemma UntagTaggedEmpty(gap: string, gap2: string)
    requires AllSpace(gap) && AllSpace(gap2)
    ensures Untag(Strip(JsonTag + gap + gap2)) == []
  {
    var tag := JsonTag;
    AllSpaceConcat(gap, gap2);
    assert tag + gap + gap2 == [] + tag + (gap + gap2);
    StripPadded([], tag, gap + gap2);
    PrefixFacts(tag, []);
    assert tag + [] == tag;
    StripPadded([], [], []);
  }

  lemma UntagTaggedBody(gap: string, body: string, gap2: string)
    requires AllSpace(gap) && AllSpace(gap2) && IsStripped(body) && body != []
    ensures Untag(Strip(JsonTag + gap + body + gap2)) == body
  {
    var core := JsonTag + (gap + body);
    TaggedCore(gap, body, gap2);
    StripPadded([], core, gap2);
    PrefixFacts(JsonTag, gap + body);
    EmptyBack(gap + body);
    StripPadded(gap, body, []);
  }

  lemma TaggedCore(gap: string, body: string, gap2: string)
    requires IsStripped(body) && body != []
    ensures IsStripped(JsonTag + (gap + body))
    ensures JsonTag + gap + body + gap2 == [] + (JsonTag + (gap + body)) + gap2
  {
    var core := JsonTag + (gap + body);
    assert core[0] == 'j' && core[|core| - 1] == body[|body| - 1];
  }

  lemma EmptyMiddle(a: string, b: string)
    ensures a + [] + b == a + b
  {
  }

  lemma EmptyBack(s: string)
    ensures s == s + []
  {
  }

  /** A fenced reply, with or without the `json` tag after the opening fence,
      and with any whitespace around and inside the fences, gives back
      exactly the text between the fences. Without the tag the body itself
      must not start with `json`, which would be stripped. */
  lemma NormalizeFenced(pre: string, tag: string, gap1: string, body: string, gap2: string, post: string)
    requires tag == "" || tag == JsonTag
    requires AllSpace(pre) && AllSpace(gap1) && AllSpace(gap2) && AllSpace(post)
    requires IsStripped(body)
    requires tag == "" ==> !StartsWith(body, JsonTag)
    ensures Normalize(pre + Fence + tag + gap1 + body + gap2 + Fence + post) == body
  {
    FencedParts(pre, tag, gap1, body, gap2, post);
    if tag == "" {
      NormalizeFencedPlain(pre, gap1, body, gap2, post);
    } else {
      NormalizeFencedTagged(pre, gap1, body, gap2, post);
    }
  }

  lemma FencedParts(pre: string, tag: string, gap1: string, body: string, gap2: string, post: string)
    ensures pre + Fence + tag + gap1 + body + gap2 + Fence + post
      == pre + Fence + (tag + gap1 + body + gap2) + Fence + post
  {
  }

  lemma FencedText(pre: string, inner: string, post: string)
    ensures pre + Fence + inner + Fence + post == pre + (Fence + inner + Fence) + post
  {
  }

  lemma NormalizeFencedPlain(pre: string, gap1: string, body: string, gap2: string, post: string)
    requires AllSpace(pre) && AllSpace(gap1) && AllSpace(gap2) && AllSpace(post)
    requires IsStripped(body) && !StartsWith(body, JsonTag)
    ensures Normalize(pre + Fence + ("" + gap1 + body + gap2) + Fence + post) == body
  {
    var inner := "" + gap1 + body + gap2;
    StripFenced(pre, inner, post);
    EmptyFront(gap1, body, gap2);
    StripPadded(gap1, body, gap2);
    UntagPlain(body);
  }

  lemma EmptyFront(a: string, b: string, c: string)
    ensures "" + a + b + c == a + b + c
  {
  }

  lemma UntagPlain(s: string)
    requires !StartsWith(s, JsonTag)
    ensures Untag(s) == s
  {
  }

  lemma NormalizeFencedTagged(pre: string, gap1: string, body: string, gap2: string, post: string)
    requires AllSpace(pre) && AllSpace(gap1) && AllSpace(gap2) && AllSpace(post)
    requires IsStripped(body)
    ensures Normalize(pre + Fence + (JsonTag + gap1 + body + gap2) + Fence + post) == body
  {
    StripFenced(pre, JsonTag + gap1 + body + gap2, post);
    UntagTagged(gap1, body, gap2);
  }

  /** Trimming and unfencing a fenced reply leaves the trimmed inside. */
  lemma StripFenced(pre: string, inner: string, post: string)
    requires AllSpace(pre) && AllSpace(post)
    ensures Unfence(Strip(pre + Fence + inner + Fence + post)) == Strip(inner)
  {
    var x := Fence + inner + Fence;
    FencedText(pre, inner, post);
    assert x[0] == '`' && x[|x| - 1] == '`';
    StripPadded(pre, x, post);
    UnfenceFenced(inner);
  }

  /** The example reply from the matching model. */
  lemma NormalizeExample()
    ensures Normalize("```json\n[1,3]\n```") == "[1,3]"
  {
    ExampleFacts();
    NormalizeFenced("", JsonTag, "\n", "[1,3]", "\n", "");
  }

  lemma ExampleFacts()
    ensures AllSpace("") && AllSpace("\n") && IsStripped("[1,3]")
    ensures "" + Fence + JsonTag + "\n" + "[1,3]" + "\n" + Fence + "" == "```json\n[1,3]\n```"
  {
  }

  // ---------------------------------------------------------------------
  // JSON: an array of integers, with JSON whitespace between the tokens.

  predicate IsJsonSpace(c: char) {
    c == ' ' || c == '\t' || c == '\n' || c == '\r'
  }

  /** Skips JSON whitespace: what it drops is whitespace, and what it keeps
      does not start with whitespace. */
  function SkipWs(s: string): (r: string)
    ensures |r| <= |s| && r == s[|s| - |r|..]
    ensures AllJsonSpace(s[..|s| - |r|])
    ensures r == [] || !IsJsonSpace(r[0])
  {
    if |s| > 0 && IsJsonSpace(s[0]) then
      var r := SkipWs(s[1..]);
      SkipWsStep(s, r);
      r
    else s
  }

  lemma SkipWsStep(s: string, r: string)
    requires |s| > 0 && IsJsonSpace(s[0])
    requires |r| <= |s| - 1 && r == s[1..][|s| - 1 - |r|..]
    requires AllJsonSpace(s[1..][..|s| - 1 - |r|])
    ensures r == s[|s| - |r|..] && AllJsonSpace(s[..|s| - |r|])
  {
    var n := |s| - |r|;
    assert s[1..][n - 1..] == s[n..];
    assert forall i :: 1 <= i < n ==> s[..n][i] == s[1..][..n - 1][i - 1];
  }

  predicate IsDigit(c: char) {
    '0' <= c <= '9'
  }

  predicate AllDigits(s: string) {
    forall i :: 0 <= i < |s| ==> IsDigit(s[i])
  }

  function DigitValue(c: char): nat
    requires IsDigit(c)
  {
    (c as int) - ('0' as int)
  }

  function Digit(d: nat): (c: char)
    requires d < 10
    ensures IsDigit(c) && DigitValue(c) == d
  {
    (('0' as int) + d) as char
  }

  lemma SpanStep(s: string, ds: string, rest: string)
    requires |s| > 0 && IsDigit(s[0]) && AllDigits(ds) && ds + rest == s[1..]
    ensures [s[0]] + ds + rest == s && AllDigits([s[0]] + ds)
  {
    assert s == [s[0]] + s[1..];
    assert forall i :: 1 <= i < |ds| + 1 ==> ([s[0]] + ds)[i] == ds[i - 1];
  }

  /** The longest run of digits at the front of `s`, and what follows it. */
  function SpanDigits(s: string): (r: (string, string))
    ensures r.0 + r.1 == s && AllDigits(r.0)
    ensures r.1 == [] || !IsDigit(r.1[0])
  {
    if |s| > 0 && IsDigit(s[0]) then
      var (ds, rest) := SpanDigits(s[1..]);
      SpanStep(s, ds, rest);
      ([s[0]] + ds, rest)
    else ([], s)
  }

  function DigitsValue(ds: string): nat
    requires AllDigits(ds)
  {
    if ds == [] then 0 else DigitsValue(ds[..|ds| - 1]) * 10 + DigitValue(ds[|ds| - 1])
  }

  /** A JSON integer without sign, `0|[1-9][0-9]*`, at the front of `s`. */
  function ParseNat(s: string): (r: Option<(nat, string)>)
    ensures r.Some? ==> |r.value.1| < |s|
  {
    var span := SpanDigits(s);
    if span.0 == [] || (span.0[0] == '0' && |span.0| > 1) then None
    else Some((DigitsValue(span.0), span.1))
  }

  /** A JSON integer `-?(0|[1-9][0-9]*)` at the front of `s`. A fraction or an
      exponent after it is left in the rest, where it fails the array syntax. */
  function ParseInt(s: string): (r: Option<(int, string)>)
    ensures r.Some? ==> |r.value.1| < |s|
  {
    if |s| > 0 && s[0] == '-' then
      match ParseNat(s[1..])
      case None => None
      case Some((n, rest)) => Some((-(n as int), rest))
    else
      match ParseNat(s)
      case None => None
      case Some((n, rest)) => Some((n as int, rest))
  }

  /** The elements of a non-empty array and its closing bracket. */
  function ParseElements(s: string): (r: Option<(seq<int>, string)>)
    ensures r.Some? ==> |r.value.1| < |s| && |r.value.0| > 0
    decreases |s|, 1
  {
    match ParseInt(s)
    case None => None
    case Some((v, after)) => ElementsAfter(v, after)
  }

  /** What follows the element `v`: the closing bracket, or a comma and the
      remaining elements. */
  function ElementsAfter(v: int, after: string): (r: Option<(seq<int>, string)>)
    ensures r.Some? ==> |r.value.1| < |after| && |r.value.0| > 0
    decreases |after|, 0
  {
    var t := SkipWs(after);
    if |t| > 0 && t[0] == ']' then Some(([v], t[1..]))
    else if |t| > 0 && t[0] == ',' then
      match ParseElements(SkipWs(t[1..]))
      case None => None
      case Some((vs, rest)) => Some(([v] + vs, rest))
    else None
  }

  /** `json.loads(text)` when the text is an array of integers; `None` for any
      text that does not decode to one. */
  function ParseIndexList(text: string): Option<seq<int>> {
    var t := SkipWs(text);
    if |t| == 0 || t[0] != '[' then None else ParseArrayBody(SkipWs(t[1..]))
  }

  /** What follows the opening bracket of an integer array, up to the end of
      the text. */
  function ParseArrayBody(u: string): Option<seq<int>> {
    if |u| > 0 && u[0] == ']' then
      if SkipWs(u[1..]) == [] then Some([]) else None
    else
      match ParseElements(u)
      case None => None
      case Some((xs, rest)) => if SkipWs(rest) == [] then Some(xs) else None
  }

  /** The indices the pipeline goes on with: a reply that does not decode
      yields none, and no error is raised. */
  function DecodeReply(reply: string): seq<int> {
    match ParseIndexList(Normalize(reply))
    case None => []
    case Some(xs) => xs
  }

  // ---------------------------------------------------------------------
  // An independent printer for integer arrays, and the round trip.

  function NatToDigits(n: nat): (r: string)
    ensures |r| > 0 && AllDigits(r)
  {
    if n < 10 then [Digit(n)] else NatToDigits(n / 10) + [Digit(n % 10)]
  }

  function IntToJson(v: int): string {
    if v < 0 then "-" + NatToDigits(-v) else NatToDigits(v)
  }

  function ElementsToJson(xs: seq<int>): string
    requires |xs| > 0
  {
    if |xs| == 1 then IntToJson(xs[0]) else IntToJson(xs[0]) + "," + ElementsToJson(xs[1..])
  }

  /** The compact JSON text of an integer array, as `json.dumps` would give it
      without spaces. */
  function IndexListToJson(xs: seq<int>): string {
    if xs == [] then "[]" else "[" + ElementsToJson(xs) + "]"
  }

  lemma {:induction false} DigitsValueOfNat(n: nat)
    ensures DigitsValue(NatToDigits(n)) == n
    decreases n
  {
    var ds := NatToDigits(n);
    if n >= 10 {
      DigitsValueOfNat(n / 10);
      assert ds[..|ds| - 1] == NatToDigits(n / 10);
    }
  }

  /** No leading zero unless the number is zero itself. */
  lemma {:induction false} NatToDigitsNoLeadingZero(n: nat)
    ensures NatToDigits(n)[0] == '0' ==> n == 0 && |NatToDigits(n)| == 1
    decreases n
  {
    if n >= 10 {
      NatToDigitsNoLeadingZero(n / 10);
      assert NatToDigits(n)[0] == NatToDigits(n / 10)[0];
    }
  }

  lemma {:induction false} SpanDigitsOf(ds: string, rest: string)
    requires AllDigits(ds)
    requires rest == [] || !IsDigit(rest[0])
    ensures SpanDigits(ds + rest) == (ds, rest)
    decreases |ds|
  {
    if ds != [] {
      assert (ds + rest)[1..] == ds[1..] + rest;
      SpanDigitsOf(ds[1..], rest);
      assert [ds[0]] + ds[1..] == ds;
    } else {
      assert ds + rest == rest;
    }
  }

  lemma ParseNatOf(n: nat, rest: string)
    requires rest == [] || !IsDigit(rest[0])
    ensures ParseNat(NatToDigits(n) + rest) == Some((n, rest))
  {
    SpanDigitsOf(NatToDigits(n), rest);
    DigitsValueOfNat(n);
    NatToDigitsNoLeadingZero(n);
  }

  lemma ParseIntOf(v: int, rest: string)
    requires rest == [] || !IsDigit(rest[0])
    ensures ParseInt(IntToJson(v) + rest) == Some((v, rest))
  {
    if v < 0 { ParseNegativeOf(v, rest); } else { ParseNonNegativeOf(v, rest); }
  }

  lemma ParseNegativeOf(v: int, rest: string)
    requires v < 0
    requires rest == [] || !IsDigit(rest[0])
    ensures ParseInt(IntToJson(v) + rest) == Some((v, rest))
  {
    var ds := NatToDigits(-v);
    ParseNatOf(-v, rest);
    assert IntToJson(v) + rest == "-" + (ds + rest);
    assert ("-" + (ds + rest))[1..] == ds + rest;
  }

  lemma ParseNonNegativeOf(v: int, rest: string)
    requires v >= 0
    requires rest == [] || !IsDigit(rest[0])
    ensures ParseInt(IntToJson(v) + rest) == Some((v, rest))
  {
    var ds := NatToDigits(v);
    ParseNatOf(v, rest);
    assert (ds + rest)[0] == ds[0] && IsDigit(ds[0]);
  }

  lemma SkipWsNone(s: string)
    requires s == [] || !IsJsonSpace(s[0])
    ensures SkipWs(s) == s
  {
  }

  /** Printed numbers and arrays start with neither whitespace nor a digit-less sign. */
  lemma IntToJsonStart(v: int)
    ensures |IntToJson(v)| > 0 && (IntToJson(v)[0] == '-' || IsDigit(IntToJson(v)[0]))
  {
  }

  // ---------------------------------------------------------------------
  // The JSON text of an integer array (RFC 8259, sections 2, 5 and 6),
  // defined by how it is laid out, independently of how it is read.

  predicate AllJsonSpace(w: string) {
    forall i :: 0 <= i < |w| ==> IsJsonSpace(w[i])
  }

  /** A JSON number token for the integer `v`: an optional minus sign and
      digits without a leading zero. That is `v`'s printed digits, or `-0`
      when `v` is 0. */
  predicate IsIntToken(tok: string, v: int) {
    tok == IntToJson(v) || (v == 0 && tok == "-0")
  }

  /** One array element: the whitespace before its number, the number, and
      the whitespace after it. */
  datatype Element = Element(before: string, token: string, after: string)

  /** Where the text of an array puts its whitespace: before the `[`, inside
      an empty array, around each element, and after the `]`. */
  datatype Layout = Layout(lead: string, inner: string, elements: seq<Element>, trail: string)

  /** The elements separated by commas. */
  function ElementsText(es: seq<Element>): string
    requires |es| > 0
    decreases |es|, 1
  {
    es[0].before + (es[0].token + (es[0].after + MoreElements(es)))
  }

  /** What follows the first element: nothing, or a comma and the rest. */
  function MoreElements(es: seq<Element>): string
    requires |es| > 0
    decreases |es|, 0
  {
    if |es| == 1 then [] else "," + ElementsText(es[1..])
  }

  /** What lies between the brackets. */
  function BodyText(l: Layout): string {
    if l.elements == [] then l.inner else ElementsText(l.elements)
  }

  function Render(l: Layout): string {
    l.lead + ("[" + (BodyText(l) + ("]" + l.trail)))
  }

  predicate ElementsFit(es: seq<Element>, xs: seq<int>) {
    |es| == |xs| &&
    forall i :: 0 <= i < |es| ==>
      AllJsonSpace(es[i].before) && IsIntToken(es[i].token, xs[i]) && AllJsonSpace(es[i].after)
  }

  /** Every gap of the layout is JSON whitespace and the numbers are `xs`. */
  predicate Fits(l: Layout, xs: seq<int>) {
    AllJsonSpace(l.lead) && AllJsonSpace(l.inner) && AllJsonSpace(l.trail) && ElementsFit(l.elements, xs)
  }

  /** `s` is JSON text whose value is the integer array `xs`. */
  ghost predicate IsJsonIntArray(s: string, xs: seq<int>) {
    exists l :: Fits(l, xs) && Render(l) == s
  }

  /** Whitespace in front of text that does not start with whitespace is
      exactly what SkipWs drops. */
  lemma {:induction false} SkipWsPadded(w: string, r: string)
    requires AllJsonSpace(w)
    requires r == [] || !IsJsonSpace(r[0])
    ensures SkipWs(w + r) == r
    decreases |w|
  {
    if w == [] {
      assert w + r == r;
      SkipWsNone(r);
    } else {
      assert (w + r)[1..] == w[1..] + r;
      SkipWsPadded(w[1..], r);
    }
  }

  /** SkipWs splits its input into whitespace and what it keeps. */
  lemma SkipWsSplit(s: string) returns (w: string)
    ensures AllJsonSpace(w) && s == w + SkipWs(s)
  {
    w := s[..|s| - |SkipWs(s)|];
  }

  lemma DigitOfValue(c: char)
    requires IsDigit(c)
    ensures Digit(DigitValue(c)) == c
  {
  }

  lemma {:induction false} DigitsValuePositive(ds: string)
    requires AllDigits(ds) && |ds| > 0 && ds[0] != '0'
    ensures DigitsValue(ds) > 0
    decreases |ds|
  {
    if |ds| > 1 {
      DigitsValuePositive(ds[..|ds| - 1]);
    }
  }

  /** Digits without a leading zero are the printed form of their value. */
  lemma {:induction false} NatToDigitsOfValue(ds: string)
    requires AllDigits(ds) && |ds| > 0 && (ds[0] != '0' || |ds| == 1)
    ensures NatToDigits(DigitsValue(ds)) == ds
    decreases |ds|
  {
    var last := ds[|ds| - 1];
    var front := ds[..|ds| - 1];
    DigitOfValue(last);
    if |ds| == 1 {
      assert front == [];
      assert ds == [last];
    } else {
      NatToDigitsOfValue(front);
      DigitsValuePositive(front);
      var m := DigitsValue(front);
      var n := m * 10 + DigitValue(last);
      assert n / 10 == m && n % 10 == DigitValue(last);
      assert ds == front + [last];
    }
  }

  /** A number token followed by a non-digit is read as its value. */
  lemma TokenParses(tok: string, v: int, rest: string)
    requires IsIntToken(tok, v)
    requires rest == [] || !IsDigit(rest[0])
    ensures ParseInt(tok + rest) == Some((v, rest))
  {
    if tok == IntToJson(v) {
      ParseIntOf(v, rest);
    } else {
      ParseMinusZero(rest);
    }
  }

  lemma ParseMinusZero(rest: string)
    requires rest == [] || !IsDigit(rest[0])
    ensures ParseInt("-0" + rest) == Some((0, rest))
  {
    PrefixFacts("-", "0" + rest);
    SpanDigitsOf("0", rest);
  }

  /** Whatever ParseInt reads is a number token for the value it returns. */
  lemma ParseIntToken(s: string) returns (tok: string)
    requires ParseInt(s).Some?
    ensures s == tok + ParseInt(s).value.1 && IsIntToken(tok, ParseInt(s).value.0)
  {
    if |s| > 0 && s[0] == '-' {
      tok := NegativeToken(s);
    } else {
      tok := ParseNatDigits(s);
    }
  }

  /** A minus sign and the digits ParseNat reads after it. */
  lemma NegativeToken(s: string) returns (tok: string)
    requires |s| > 0 && s[0] == '-' && ParseNat(s[1..]).Some?
    ensures s == tok + ParseNat(s[1..]).value.1
    ensures IsIntToken(tok, -(ParseNat(s[1..]).value.0 as int))
  {
    var ds := ParseNatDigits(s[1..]);
    var n := ParseNat(s[1..]).value.0;
    tok := "-" + ds;
    assert s == [s[0]] + s[1..];
    if n == 0 {
      assert ds == [Digit(0)];
    }
  }

  /** The digits ParseNat reads print its value back. */
  lemma ParseNatDigits(s: string) returns (ds: string)
    requires ParseNat(s).Some?
    ensures s == ds + ParseNat(s).value.1 && ds == NatToDigits(ParseNat(s).value.0)
  {
    ds := SpanDigits(s).0;
    NatToDigitsOfValue(ds);
  }

  lemma TokenStart(tok: string, v: int)
    requires IsIntToken(tok, v)
    ensures |tok| > 0 && (tok[0] == '-' || IsDigit(tok[0]))
  {
    IntToJsonStart(v);
  }

  /** The text after a number, up to what follows the whitespace after it. */
  lemma AfterToken(after: string, next: string)
    requires AllJsonSpace(after)
    requires |next| > 0 && (next[0] == ']' || next[0] == ',')
    ensures SkipWs(after + next) == next
    ensures after + next == [] || !IsDigit((after + next)[0])
  {
    SkipWsPadded(after, next);
  }

  lemma MoreStart(es: seq<Element>, rest: string)
    requires |es| > 0
    ensures var t := MoreElements(es) + ("]" + rest);
      |t| > 0 && (t[0] == ']' || t[0] == ',')
  {
    if |es| > 1 {
      assert (MoreElements(es) + ("]" + rest))[0] == ',';
    }
  }

  /** Skipping the whitespace before the first element reaches its number. */
  lemma FirstToken(es: seq<Element>, xs: seq<int>, tail: string)
    requires |es| > 0 && ElementsFit(es, xs)
    ensures SkipWs(ElementsText(es) + tail) == es[0].token + (es[0].after + (MoreElements(es) + tail))
    ensures |es[0].token| > 0 && (es[0].token[0] == '-' || IsDigit(es[0].token[0]))
  {
    var e := es[0];
    var u := e.token + (e.after + (MoreElements(es) + tail));
    assert ElementsText(es) + tail == e.before + u;
    TokenStart(e.token, xs[0]);
    assert u[0] == e.token[0];
    SkipWsPadded(e.before, u);
  }

  lemma ParseElementsStep(s: string, v: int, after: string)
    requires ParseInt(s) == Some((v, after))
    ensures ParseElements(s) == ElementsAfter(v, after)
  {
  }

  /** After a number, text that skips to `]` ends the elements. */
  lemma CloseStep(v: int, after: string, rest: string)
    requires SkipWs(after) == "]" + rest
    ensures ElementsAfter(v, after) == Some(([v], rest))
  {
    PrefixFacts("]", rest);
  }

  /** After a number, text that skips to a comma goes on with more elements. */
  lemma CommaStep(v: int, after: string, tail: string, vs: seq<int>, rest: string)
    requires SkipWs(after) == "," + tail
    requires ParseElements(SkipWs(tail)) == Some((vs, rest))
    ensures ElementsAfter(v, after) == Some(([v] + vs, rest))
  {
    PrefixFacts(",", tail);
  }

  lemma MoreText(es: seq<Element>, rest: string)
    requires |es| > 1
    ensures MoreElements(es) + ("]" + rest) == "," + (ElementsText(es[1..]) + ("]" + rest))
  {
  }

  lemma FitsTail(es: seq<Element>, xs: seq<int>)
    requires |es| > 0 && ElementsFit(es, xs)
    ensures ElementsFit(es[1..], xs[1..])
    ensures AllJsonSpace(es[0].after) && IsIntToken(es[0].token, xs[0])
    ensures xs == [xs[0]] + xs[1..]
  {
  }

  /** Laid-out elements and their closing bracket are read back as `xs`. */
  lemma {:induction false} ParseElementsLaidOut(es: seq<Element>, xs: seq<int>, rest: string)
    requires |es| > 0 && ElementsFit(es, xs)
    ensures ParseElements(SkipWs(ElementsText(es) + ("]" + rest))) == Some((xs, rest))
    decreases |es|
  {
    var e := es[0];
    var next := MoreElements(es) + ("]" + rest);
    FitsTail(es, xs);
    FirstToken(es, xs, "]" + rest);
    MoreStart(es, rest);
    AfterToken(e.after, next);
    TokenParses(e.token, xs[0], e.after + next);
    var u := e.token + (e.after + next);
    ParseElementsStep(u, xs[0], e.after + next);
    if |es| == 1 {
      assert next == "]" + rest;
      assert [xs[0]] == xs;
      CloseStep(xs[0], e.after + next, rest);
    } else {
      MoreText(es, rest);
      ParseElementsLaidOut(es[1..], xs[1..], rest);
      CommaStep(xs[0], e.after + next, ElementsText(es[1..]) + ("]" + rest), xs[1..], rest);
    }
    assert ParseElements(u) == Some((xs, rest));
  }

  /** ParseIndexList on text that skips to an opening bracket. */
  lemma OpenStep(s: string, x: string)
    requires SkipWs(s) == "[" + x
    ensures ParseIndexList(s) == ParseArrayBody(SkipWs(x))
  {
    PrefixFacts("[", x);
  }

  lemma EmptyBodyStep(u: string, trail: string)
    requires u == "]" + trail && SkipWs(trail) == []
    ensures ParseArrayBody(u) == Some([])
  {
    PrefixFacts("]", trail);
  }

  lemma ElementsBodyStep(u: string, xs: seq<int>, rest: string)
    requires |u| > 0 && u[0] != ']'
    requires ParseElements(u) == Some((xs, rest)) && SkipWs(rest) == []
    ensures ParseArrayBody(u) == Some(xs)
  {
  }

  lemma SkipWsAll(w: string)
    requires AllJsonSpace(w)
    ensures SkipWs(w) == []
  {
    SkipWsPadded(w, []);
    assert w + [] == w;
  }

  /** What follows the opening bracket of a laid-out text parses to `xs`. */
  lemma BodyParses(l: Layout, xs: seq<int>)
    requires Fits(l, xs)
    ensures ParseArrayBody(SkipWs(BodyText(l) + ("]" + l.trail))) == Some(xs)
  {
    SkipWsAll(l.trail);
    if l.elements == [] {
      SkipWsPadded(l.inner, "]" + l.trail);
      EmptyBodyStep(SkipWs(l.inner + ("]" + l.trail)), l.trail);
    } else {
      var x := ElementsText(l.elements) + ("]" + l.trail);
      FirstToken(l.elements, xs, "]" + l.trail);
      ParseElementsLaidOut(l.elements, xs, l.trail);
      ElementsBodyStep(SkipWs(x), xs, l.trail);
    }
  }

  /** Every text laid out for `xs` parses to `xs`. */
  lemma ParseRendered(l: Layout, xs: seq<int>)
    requires Fits(l, xs)
    ensures ParseIndexList(Render(l)) == Some(xs)
  {
    var x := BodyText(l) + ("]" + l.trail);
    SkipWsPadded(l.lead, "[" + x);
    OpenStep(Render(l), x);
    BodyParses(l, xs);
  }

  /** Whitespace put in front of the first element. */
  lemma WithBefore(es: seq<Element>, w: string) returns (es': seq<Element>)
    requires |es| > 0 && es[0].before == []
    ensures es' == es[0 := es[0].(before := w)]
    ensures ElementsText(es') == w + ElementsText(es)
  {
    es' := es[0 := es[0].(before := w)];
    assert es'[1..] == es[1..];
    assert MoreElements(es') == MoreElements(es);
  }

  lemma FitsWithBefore(es: seq<Element>, xs: seq<int>, w: string)
    requires |es| > 0 && ElementsFit(es, xs) && AllJsonSpace(w)
    ensures ElementsFit(es[0 := es[0].(before := w)], xs)
  {
  }

  lemma FitsCons(tok: string, v: int, w: string, es: seq<Element>, xs: seq<int>)
    requires IsIntToken(tok, v) && AllJsonSpace(w) && ElementsFit(es, xs)
    ensures ElementsFit([Element([], tok, w)] + es, [v] + xs)
  {
  }

  /** A successful ParseElements reads a number, then what follows it. */
  lemma ParseElementsSplit(u: string)
    requires ParseElements(u).Some?
    ensures ParseInt(u).Some?
    ensures ParseElements(u) == ElementsAfter(ParseInt(u).value.0, ParseInt(u).value.1)
  {
  }

  /** A successful ElementsAfter meets `]`, or a comma and more elements. */
  lemma ElementsAfterCases(v: int, after: string)
    requires ElementsAfter(v, after).Some?
    ensures var t := SkipWs(after);
      |t| > 0 && (t[0] == ']' || (t[0] == ',' && ParseElements(SkipWs(t[1..])).Some?))
  {
  }

  /** One number, the whitespace after it, and the closing bracket. */
  lemma ShapeClose(u: string, tok: string, v: int, w: string, rest: string) returns (es: seq<Element>)
    requires u == tok + (w + ("]" + rest)) && IsIntToken(tok, v) && AllJsonSpace(w)
    ensures |es| > 0 && es[0].before == [] && ElementsFit(es, [v])
    ensures u == ElementsText(es) + ("]" + rest)
  {
    es := [Element([], tok, w)];
    assert MoreElements(es) == [];
  }

  /** One number, the whitespace after it, a comma, and more elements. */
  lemma ShapeComma(u: string, tok: string, v: int, w: string, w2: string, es2: seq<Element>, vs: seq<int>, rest: string)
    returns (es: seq<Element>)
    requires |es2| > 0 && es2[0].before == [] && ElementsFit(es2, vs)
    requires IsIntToken(tok, v) && AllJsonSpace(w) && AllJsonSpace(w2)
    requires u == tok + (w + ("," + (w2 + (ElementsText(es2) + ("]" + rest)))))
    ensures |es| > 0 && es[0].before == [] && ElementsFit(es, [v] + vs)
    ensures u == ElementsText(es) + ("]" + rest)
  {
    var es2' := WithBefore(es2, w2);
    FitsWithBefore(es2, vs, w2);
    FitsCons(tok, v, w, es2', vs);
    es := [Element([], tok, w)] + es2';
    assert es[1..] == es2';
    assert ElementsText(es) == tok + (w + ("," + (w2 + ElementsText(es2))));
    ShapeCons(tok, w, w2, ElementsText(es2), "]" + rest);
  }

  lemma ShapeCons(tok: string, w: string, w2: string, e: string, close: string)
    ensures tok + (w + ("," + (w2 + (e + close))))
      == tok + (w + ("," + (w2 + e))) + close
  {
  }

  /** Whatever ParseElements reads is laid-out elements and a closing bracket. */
  lemma {:induction false} ParseElementsShape(u: string) returns (es: seq<Element>)
    requires ParseElements(u).Some?
    ensures |es| > 0 && es[0].before == [] && ElementsFit(es, ParseElements(u).value.0)
    ensures u == ElementsText(es) + ("]" + ParseElements(u).value.1)
    decreases |u|, 1
  {
    ParseElementsSplit(u);
    var v := ParseInt(u).value.0;
    var after := ParseInt(u).value.1;
    ElementsAfterCases(v, after);
    var tok := ParseIntToken(u);
    var t := SkipWs(after);
    var w := SkipWsSplit(after);
    if t[0] == ']' {
      var rest := t[1..];
      assert t == "]" + rest;
      CloseStep(v, after, rest);
      es := ShapeClose(u, tok, v, w, rest);
    } else {
      es := CommaShape(u, tok, v, after, w);
    }
  }

  /** The case of ParseElementsShape where a comma follows the first number. */
  lemma {:induction false} CommaShape(u: string, tok: string, v: int, after: string, w: string)
    returns (es: seq<Element>)
    requires u == tok + after && IsIntToken(tok, v)
    requires AllJsonSpace(w) && after == w + SkipWs(after)
    requires var t := SkipWs(after); |t| > 0 && t[0] == ',' && ParseElements(SkipWs(t[1..])).Some?
    ensures ElementsAfter(v, after).Some?
    ensures |es| > 0 && es[0].before == [] && ElementsFit(es, ElementsAfter(v, after).value.0)
    ensures u == ElementsText(es) + ("]" + ElementsAfter(v, after).value.1)
    decreases |u|, 0
  {
    var t := SkipWs(after);
    var w2 := SkipWsSplit(t[1..]);
    var u2 := SkipWs(t[1..]);
    var vs := ParseElements(u2).value.0;
    var rest := ParseElements(u2).value.1;
    SomePairElements(ParseElements(u2));
    HeadTail(t, ',');
    CommaStep(v, after, t[1..], vs, rest);
    var es2 := ParseElementsShape(u2);
    es := ShapeComma(u, tok, v, w, w2, es2, vs, rest);
  }

  lemma HeadTail(t: string, c: char)
    requires |t| > 0 && t[0] == c
    ensures t == [c] + t[1..]
  {
  }

  lemma SomePairElements(r: Option<(seq<int>, string)>)
    requires r.Some?
    ensures r == Some((r.value.0, r.value.1))
  {
  }

  /** A successful ParseIndexList meets `[` after the leading whitespace. */
  lemma ParseIndexListSplit(s: string)
    requires ParseIndexList(s).Some?
    ensures var t := SkipWs(s);
      |t| > 0 && t[0] == '[' && ParseIndexList(s) == ParseArrayBody(SkipWs(t[1..]))
  {
  }

  /** Whatever ParseArrayBody accepts, after whitespace `w1`, is the text
      between and after the brackets of a layout. */
  lemma ArrayBodyShape(w1: string, u: string) returns (l: Layout)
    requires AllJsonSpace(w1) && ParseArrayBody(u).Some?
    ensures l.lead == [] && Fits(l, ParseArrayBody(u).value)
    ensures w1 + u == BodyText(l) + ("]" + l.trail)
  {
    if |u| > 0 && u[0] == ']' {
      var w2 := SkipWsSplit(u[1..]);
      assert w2 == u[1..];
      assert u == "]" + u[1..];
      l := Layout([], w1, [], u[1..]);
    } else {
      var xs := ParseElements(u).value.0;
      var rest := ParseElements(u).value.1;
      var w2 := SkipWsSplit(rest);
      assert w2 == rest;
      var es := ParseElementsShape(u);
      var es' := WithBefore(es, w1);
      FitsWithBefore(es, xs, w1);
      l := Layout([], [], es', rest);
      Assoc(w1, ElementsText(es), "]" + rest);
    }
  }

  /** Whatever ParseIndexList accepts is laid out as the array it returns. */
  lemma ParseIndexListShape(s: string) returns (l: Layout)
    requires ParseIndexList(s).Some?
    ensures Fits(l, ParseIndexList(s).value) && Render(l) == s
  {
    ParseIndexListSplit(s);
    var t := SkipWs(s);
    var w0 := SkipWsSplit(s);
    var u := SkipWs(t[1..]);
    var w1 := SkipWsSplit(t[1..]);
    var body := ArrayBodyShape(w1, u);
    HeadTail(t, '[');
    l := WithLead(body, w0);
  }

  /** A layout given the whitespace before its `[`. */
  lemma WithLead(body: Layout, w0: string) returns (l: Layout)
    requires body.lead == [] && AllJsonSpace(w0)
    ensures l == body.(lead := w0)
    ensures Render(l) == w0 + ("[" + (BodyText(body) + ("]" + body.trail)))
    ensures forall xs :: Fits(body, xs) ==> Fits(l, xs)
  {
    l := body.(lead := w0);
    assert BodyText(l) == BodyText(body);
  }

  /** The parser accepts exactly the JSON texts of integer arrays, and
      returns the array the text denotes. */
  lemma ParseIndexListIff(s: string, xs: seq<int>)
    ensures ParseIndexList(s) == Some(xs) <==> IsJsonIntArray(s, xs)
  {
    if ParseIndexList(s) == Some(xs) {
      var l := ParseIndexListShape(s);
      assert Fits(l, xs) && Render(l) == s;
    }
    if IsJsonIntArray(s, xs) {
      var l :| Fits(l, xs) && Render(l) == s;
      ParseRendered(l, xs);
    }
  }

  /** The layout of the compact text the printer gives: no whitespace. */
  function CompactElements(xs: seq<int>): seq<Element> {
    seq(|xs|, i requires 0 <= i < |xs| => Element([], IntToJson(xs[i]), []))
  }

  lemma {:induction false} CompactElementsText(xs: seq<int>)
    requires |xs| > 0
    ensures ElementsText(CompactElements(xs)) == ElementsToJson(xs)
    decreases |xs|
  {
    var es := CompactElements(xs);
    if |xs| > 1 {
      assert es[1..] == CompactElements(xs[1..]);
      CompactElementsText(xs[1..]);
    }
  }

  /** Parsing gives back every integer array the printer prints. */
  lemma ParseIndexListOf(xs: seq<int>)
    ensures ParseIndexList(IndexListToJson(xs)) == Some(xs)
  {
    var l := CompactLayout(xs);
    ParseRendered(l, xs);
  }

  /** The printer's text, as a layout with no whitespace. */
  lemma CompactLayout(xs: seq<int>) returns (l: Layout)
    ensures Fits(l, xs) && Render(l) == IndexListToJson(xs)
  {
    l := Layout([], [], CompactElements(xs), []);
    CompactFits(xs);
    if xs == [] {
      assert Render(l) == "[" + ([] + ("]" + []));
    } else {
      CompactRender(xs);
    }
  }

  lemma CompactFits(xs: seq<int>)
    ensures ElementsFit(CompactElements(xs), xs)
  {
    var es := CompactElements(xs);
    forall i | 0 <= i < |xs|
      ensures AllJsonSpace(es[i].before) && IsIntToken(es[i].token, xs[i]) && AllJsonSpace(es[i].after)
    {
      assert es[i] == Element([], IntToJson(xs[i]), []);
    }
  }

  lemma CompactRender(xs: seq<int>)
    requires xs != []
    ensures Render(Layout([], [], CompactElements(xs), [])) == IndexListToJson(xs)
  {
    CompactElementsText(xs);
    assert [] + ("[" + (ElementsToJson(xs) + ("]" + []))) == "[" + ElementsToJson(xs) + "]";
  }

  /** A reply whose normalised text is not the JSON text of any integer
      array decodes to no indices, rather than raising. */
  lemma DecodeNotJson(reply: string)
    ensures (forall xs :: !IsJsonIntArray(Normalize(reply), xs)) ==> DecodeReply(reply) == []
  {
    var r := ParseIndexList(Normalize(reply));
    if r.Some? {
      ParseIndexListIff(Normalize(reply), r.value);
    }
  }

  /** A reply whose normalised text is the JSON text of `xs` decodes to `xs`. */
  lemma DecodeJson(reply: string, xs: seq<int>)
    ensures IsJsonIntArray(Normalize(reply), xs) ==> DecodeReply(reply) == xs
  {
    ParseIndexListIff(Normalize(reply), xs);
  }

  /** The fenced example reply decodes to the indices 1 and 3. */
  lemma DecodeFencedExample()
    ensures DecodeReply("```json\n[1,3]\n```") == [1, 3]
  {
    NormalizeExample();
    ParseExample();
  }

  lemma ParseExample()
    ensures ParseIndexList("[1,3]") == Some([1, 3])
  {
    ParseIndexListOf([1, 3]);
    PrintExample();
  }

  lemma PrintExample()
    ensures IndexListToJson([1, 3]) == "[1,3]"
  {
    assert NatToDigits(1) == "1" && NatToDigits(3) == "3";
  }
}
