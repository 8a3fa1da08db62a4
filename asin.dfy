/**
 * `extract_asin` (main.py): the Amazon item identifier is the first run of
 * exactly ten upper-case letters or digits that follows a `/` and is followed
 * by `/`, `?` or the end of the URL (`re.search(r'/([A-Z0-9]{10})(?:[/?]|$)', url)`).
 */
module Asin {
  import opened Wrappers

  predicate IsAsinChar(c: char) {
    ('A' <= c <= 'Z') || ('0' <= c <= '9')
  }

  predicate IsAsin(s: string) {
    |s| == 10 && forall k :: 0 <= k < 10 ==> IsAsinChar(s[k])
  }

  /** Python's `$` (without MULTILINE) matches at the end of the text and
      also just before a newline that ends the text. */
  predicate AtEnd(url: string, j: nat) {
    j == |url| || (j + 1 == |url| && url[j] == '\n')
  }

  /** The pattern matches with its leading `/` at position `i`. */
  predicate MatchAt(url: string, i: nat) {
    && i + 11 <= |url|
    && url[i] == '/'
    && IsAsin(url[i + 1..i + 11])
    && (AtEnd(url, i + 11) || url[i + 11] == '/' || url[i + 11] == '?')
  }

  /** The leftmost match at or after position `i`, as `re.search` scans. */
  function FirstMatchFrom(url: string, i: nat): (r: Option<nat>)
    requires i <= |url|
    ensures r.Some? ==> i <= r.value < |url| && MatchAt(url, r.value)
    ensures r.Some? ==> forall j :: i <= j < r.value ==> !MatchAt(url, j)
    ensures r.None? ==> forall j :: i <= j < |url| ==> !MatchAt(url, j)
    decreases |url| - i
  {
    if i == |url| then None
    else if MatchAt(url, i) then Some(i)
    else FirstMatchFrom(url, i + 1)
  }

  /** `extract_asin(url)`: the captured group of the leftmost match, or `None`. */
  function ExtractAsin(url: string): (r: Option<string>)
    ensures r.None? <==> forall i :: 0 <= i < |url| ==> !MatchAt(url, i)
    ensures r.Some? ==> IsAsin(r.value)
    ensures r.Some? ==> exists i :: 0 <= i < |url| && MatchAt(url, i) && r.value == url[i + 1..i + 11]
                                 && forall j :: 0 <= j < i ==> !MatchAt(url, j)
  {
    match FirstMatchFrom(url, 0)
    case None => None
    case Some(i) => Some(url[i + 1..i + 11])
  }

  /** A URL whose text before the `/` holds no upper-case letter and no digit
      (such as "https://www.amazon.com/dp") yields the identifier that follows. */
  lemma ExtractAsinAfterPlainPrefix(prefix: string, asin: string, tail: string)
    requires forall k :: 0 <= k < |prefix| ==> !IsAsinChar(prefix[k])
    requires IsAsin(asin)
    requires tail == [] || tail[0] == '/' || tail[0] == '?'
    ensures ExtractAsin(prefix + "/" + asin + tail) == Some(asin)
  {
    var url := prefix + "/" + asin + tail;
    var p := |prefix|;
    forall j | 0 <= j < p ensures !MatchAt(url, j) {
      assert !IsAsinChar(url[j + 1]);
    }
    assert url[p] == '/';
    assert url[p + 1..p + 11] == asin;
    assert url[p + 11..] == tail;
    if tail != [] {
      assert url[p + 11] == tail[0];
    }
    assert MatchAt(url, p);
    assert FirstMatchFrom(url, p) == Some(p);
    FirstMatchSkips(url, 0, p);
  }

  lemma {:induction false} FirstMatchSkips(url: string, i: nat, p: nat)
    requires i <= p <= |url|
    requires forall j :: i <= j < p ==> !MatchAt(url, j)
    ensures FirstMatchFrom(url, i) == FirstMatchFrom(url, p)
    decreases p - i
  {
    if i < p {
      FirstMatchSkips(url, i + 1, p);
    }
  }

  /** The identifier of a product page URL of the form ".../dp/<ASIN>". */
  lemma ExtractAsinFromProductPage(asin: string)
    requires IsAsin(asin)
    ensures ExtractAsin("https://www.amazon.com/dp/" + asin) == Some(asin)
  {
    var prefix := "https://www.amazon.com/dp";
    assert forall k :: 0 <= k < |prefix| ==> !IsAsinChar(prefix[k]);
    ExtractAsinAfterPlainPrefix(prefix, asin, []);
    assert prefix + "/" + asin + [] == "https://www.amazon.com/dp/" + asin;
  }

  /** A URL with no slash never yields an identifier. */
  lemma NoSlashNoAsin(url: string)
    requires '/' !in url
    ensures ExtractAsin(url) == None
  {
    forall i | 0 <= i < |url| ensures !MatchAt(url, i) {
      assert url[i] in url;
    }
  }
}
