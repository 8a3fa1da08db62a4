/**
 * The string clean-up `scrape_walgreens_promotions_selenium` (main.py)
 * applies to what it reads off a Walgreens product page: the title, the two
 * prices and the image URLs. The HTML lookups themselves are left out; the
 * page is given as the texts and attributes those lookups return.
 */
module ListingFields {
  import opened Wrappers
  import opened PyStr

  const NoTitle: string := "No title found"
  const OldPriceLabel: string := "old price"
  const NoRegularPrice: string := "No regular price"
  const SalePriceLabel: string := "Sale price"
  const NoSalesPrice: string := "No sales price"
  const BackgroundMarker: string := "background-image"
  const UrlOpen: string := "url("
  const Https: string := "https:"

  /** What the page lookups return for one product detail page. */
  datatype DetailPage = DetailPage(
    heading: Option<seq<string>>,              // text pieces of `h1#productName`, if present
    regularPriceText: Option<string>,          // text of the regular-price `div`, if present
    salesPriceText: Option<string>,            // text of `span#sales-price`, if present
    divStyles: seq<Option<string>>,            // `style` attribute of every `div`, in page order
    thumbnails: Option<seq<Option<string>>>)   // per `li` of `ul#thumbnailImages`: its `img` `src`, if any

  /** The listing record the scraper builds. */
  datatype Listing = Listing(
    title: string,
    regularPrice: string,
    salesPrice: string,
    imageUrls: seq<string>,
    productUrl: string)

  // ---------------------------------------------------------------------
  // Title

  /** BeautifulSoup's `stripped_strings`: every text piece trimmed, blank
      pieces dropped. */
  function StrippedStrings(texts: seq<string>): (r: seq<string>)
    ensures forall i :: 0 <= i < |r| ==> r[i] != [] && IsStripped(r[i])
    ensures |r| <= |texts|
  {
    if texts == [] then []
    else
      var s := Strip(texts[0]);
      var rest := StrippedStrings(texts[1..]);
      if s == [] then rest
      else
        ConsStripped(s, rest);
        [s] + rest
  }

  lemma ConsStripped(s: string, rest: seq<string>)
    requires s != [] && IsStripped(s)
    requires forall i :: 0 <= i < |rest| ==> rest[i] != [] && IsStripped(rest[i])
    ensures forall i :: 0 <= i < |[s] + rest| ==> ([s] + rest)[i] != [] && IsStripped(([s] + rest)[i])
  {
    forall i | 0 <= i < |[s] + rest|
      ensures ([s] + rest)[i] != [] && IsStripped(([s] + rest)[i])
    {
      if i > 0 {
        assert ([s] + rest)[i] == rest[i - 1];
      }
    }
  }

  /** The listing title: the heading's pieces joined by single spaces, or a
      sentinel when the page has no heading. */
  function Title(heading: Option<seq<string>>): string {
    match heading
    case None => NoTitle
    case Some(texts) => Join(" ", StrippedStrings(texts))
  }

  /** A title never has whitespace at either end, whatever the heading held. */
  lemma TitleStripped(heading: Option<seq<string>>)
    ensures IsStripped(Title(heading))
  {
    match heading
    case None =>
      assert NoTitle[0] == 'N' && NoTitle[|NoTitle| - 1] == 'd';
    case Some(texts) =>
      var parts := StrippedStrings(texts);
      if parts != [] {
        JoinStripped(" ", parts);
      }
  }

  /** A heading with a single piece gives that piece, trimmed. */
  lemma TitleOfOnePiece(pre: string, name: string, post: string)
    requires AllSpace(pre) && AllSpace(post) && IsStripped(name) && name != []
    ensures Title(Some([pre + name + post])) == name
  {
    StripPadded(pre, name, post);
    StrippedStringsOne(pre + name + post);
  }

  /** One piece is kept trimmed, unless it is blank. */
  lemma StrippedStringsOne(text: string)
    ensures StrippedStrings([text]) == if Strip(text) == [] then [] else [Strip(text)]
  {
    assert [text][1..] == [];
  }

  /** The pieces are filtered one by one, in order. */
  lemma {:induction false} StrippedStringsConcat(a: seq<string>, b: seq<string>)
    ensures StrippedStrings(a + b) == StrippedStrings(a) + StrippedStrings(b)
    decreases |a|
  {
    if a == [] {
      assert a + b == b;
    } else {
      assert (a + b)[0] == a[0];
      assert (a + b)[1..] == a[1..] + b;
      StrippedStringsConcat(a[1..], b);
    }
  }

  /** A heading whose pieces are all blank gives the empty title, not the
      sentinel. */
  lemma {:induction false} TitleOfBlankHeading(texts: seq<string>)
    requires forall i :: 0 <= i < |texts| ==> AllSpace(texts[i])
    ensures StrippedStrings(texts) == []
    decreases |texts|
  {
    if texts != [] {
      StripPadded(texts[0], [], []);
      assert texts[0] + [] + [] == texts[0];
      TitleOfBlankHeading(texts[1..]);
    }
  }

  // ---------------------------------------------------------------------
  // Prices

  /** A price field: the text trimmed, every occurrence of its caption removed,
      and trimmed again; the sentinel when the element is missing. */
  function CleanPrice(text: Option<string>, caption: string, missing: string): (r: string)
    requires |caption| > 0
    ensures text.Some? ==> IsStripped(r)
    ensures text.None? ==> r == missing
  {
    match text
    case None => missing
    case Some(t) => Strip(RemoveAll(Strip(t), caption))
  }

  function RegularPrice(text: Option<string>): string {
    CleanPrice(text, OldPriceLabel, NoRegularPrice)
  }

  function SalesPrice(text: Option<string>): string {
    CleanPrice(text, SalePriceLabel, NoSalesPrice)
  }

  /** The price shown after its caption comes back exactly, whatever the
      whitespace around and between them. */
  lemma PriceAfterLabel(caption: string, pre: string, gap: string, amount: string, post: string)
    requires caption == OldPriceLabel || caption == SalePriceLabel
    requires AllSpace(pre) && AllSpace(gap) && AllSpace(post)
    requires IsStripped(amount) && !Contains(amount, caption)
    ensures CleanPrice(Some(pre + caption + gap + amount + post), caption, "") == amount
  {
    LabelFacts(caption);
    if amount == [] {
      PriceMissingAfterLabel(caption, pre, gap, post);
    } else {
      PricePresentAfterLabel(caption, pre, gap, amount, post);
    }
  }

  lemma PriceMissingAfterLabel(caption: string, pre: string, gap: string, post: string)
    requires |caption| > 0 && IsStripped(caption)
    requires AllSpace(pre) && AllSpace(gap) && AllSpace(post)
    ensures CleanPrice(Some(pre + caption + gap + [] + post), caption, "") == []
  {
    Regroup3(pre, caption, gap, post);
    AllSpaceConcat(gap, post);
    StripPadded(pre, caption, gap + post);
    RemoveAllFront(caption, []);
    EmptyAfter(caption);
  }

  lemma PricePresentAfterLabel(caption: string, pre: string, gap: string, amount: string, post: string)
    requires |caption| > 0 && IsStripped(caption) && !IsSpace(caption[0])
    requires AllSpace(pre) && AllSpace(gap) && AllSpace(post)
    requires IsStripped(amount) && amount != [] && !Contains(amount, caption)
    ensures CleanPrice(Some(pre + caption + gap + amount + post), caption, "") == amount
  {
    var inner := caption + (gap + amount);
    LabelledCore(caption, gap, amount);
    Regroup4(pre, caption, gap, amount, post);
    StripPadded(pre, inner, post);
    RemoveAllFront(caption, gap + amount);
    GapNoLabel(caption, gap, amount);
    RemoveAllAbsent(gap + amount, caption);
    EmptyAfter(gap + amount);
    StripPadded(gap, amount, []);
  }

  lemma LabelFacts(caption: string)
    requires caption == OldPriceLabel || caption == SalePriceLabel
    ensures |caption| > 0 && IsStripped(caption) && !IsSpace(caption[0])
  {
  }

  lemma LabelledCore(caption: string, gap: string, amount: string)
    requires |caption| > 0 && IsStripped(amount) && amount != []
    requires !IsSpace(caption[0])
    ensures IsStripped(caption + (gap + amount))
  {
    var s := caption + (gap + amount);
    assert s[0] == caption[0];
    assert s[|s| - 1] == amount[|amount| - 1];
  }

  lemma Regroup4(pre: string, caption: string, gap: string, amount: string, post: string)
    ensures pre + caption + gap + amount + post == pre + (caption + (gap + amount)) + post
  {
  }

  lemma EmptyAfter(s: string)
    ensures s + [] == s
  {
  }

  lemma Regroup3(pre: string, caption: string, gap: string, post: string)
    ensures pre + caption + gap + [] + post == pre + caption + (gap + post)
  {
  }

  /** A caption starting with a non-blank character cannot begin inside the
      blank gap. */
  lemma GapNoLabel(caption: string, gap: string, amount: string)
    requires |caption| > 0 && !IsSpace(caption[0])
    requires AllSpace(gap) && !Contains(amount, caption)
    ensures !Contains(gap + amount, caption)
  {
    var s := gap + amount;
    forall i: nat | i <= |s| && OccursAt(s, caption, i) ensures false {
      assert s[i..i + |caption|][0] == s[i];
      if i >= |gap| {
        assert s[i..i + |caption|] == amount[i - |gap|..i - |gap| + |caption|];
        assert OccursAt(amount, caption, i - |gap|);
      }
    }
  }

  // ---------------------------------------------------------------------
  // Image URLs

  /** The `style` of the first `div` whose style mentions `background-image`. */
  function FirstBackgroundStyle(styles: seq<Option<string>>): (r: Option<string>)
    ensures r.Some? ==> Contains(r.value, BackgroundMarker)
    ensures r.Some? ==> exists i :: (0 <= i < |styles| && styles[i] == r
      && forall j :: 0 <= j < i ==> !(styles[j].Some? && Contains(styles[j].value, BackgroundMarker)))
    ensures r.None? ==> forall j :: 0 <= j < |styles| ==> !(styles[j].Some? && Contains(styles[j].value, BackgroundMarker))
  {
    if styles == [] then None
    else if styles[0].Some? && Contains(styles[0].value, BackgroundMarker) then styles[0]
    else
      var r := FirstBackgroundStyle(styles[1..]);
      assert forall j :: 1 <= j < |styles| ==> styles[j] == styles[1..][j - 1];
      r
  }

  /** The URL of a background image: the text after the last `url(` up to
      the next `)`, without quotes, with `https:` put in front of a
      protocol-relative `//` URL. */
  function BackgroundImageUrl(style: string): (r: string)
    ensures !StartsWith(r, "//")
  {
    var pieces := Split(style, UrlOpen);
    var inner := Split(pieces[|pieces| - 1], ")")[0];
    var bare := RemoveAll(RemoveAll(inner, "\""), "'");
    if StartsWith(bare, "//") then
      var r := Https + bare;
      assert r[..2][0] == 'h';
      r
    else bare
  }

  /** No quote and no closing parenthesis survives in the background URL. */
  lemma BackgroundImageUrlClean(style: string)
    ensures '"' !in BackgroundImageUrl(style) && '\'' !in BackgroundImageUrl(style)
    ensures ')' !in BackgroundImageUrl(style)
  {
    var pieces := Split(style, UrlOpen);
    var inner := Split(pieces[|pieces| - 1], ")")[0];
    var once := RemoveAll(inner, "\"");
    var bare := RemoveAll(once, "'");
    SplitFirstNoChar(pieces[|pieces| - 1], ')');
    RemoveCharGone(inner, '"');
    RemoveCharGone(once, '\'');
    if '"' in bare { RemoveAllKeeps(once, "'", '"'); }
    if ')' in bare { RemoveAllKeeps(once, "'", ')'); RemoveAllKeeps(inner, "\"", ')'); }
    assert Https == ['h', 't', 't', 'p', 's', ':'];
  }

  /** For a style holding one `url(...)`, quoted with `'` or `"` or not at
      all, the URL inside comes back, made absolute if protocol-relative. */
  lemma BackgroundImageUrlOf(pre: string, quote: string, url: string, post: string)
    requires quote == "" || quote == "'" || quote == "\""
    requires '(' !in url && ')' !in url && '"' !in url && '\'' !in url
    requires !Contains(quote + url + quote + ")" + post, UrlOpen)
    ensures BackgroundImageUrl(pre + UrlOpen + (quote + url + quote + ")" + post))
      == if StartsWith(url, "//") then Https + url else url
  {
    var rest := quote + url + quote + ")" + post;
    UrlOpenFresh();
    NoStraddleFresh(pre, UrlOpen, rest);
    SplitCut(pre, UrlOpen, rest);
    SplitNoSep(rest, UrlOpen);
    var quoted := quote + url + quote;
    ContainsChar(quoted, ')');
    SplitCut(quoted, ")", post);
    SplitNoSep(quoted, ")");
    Unquote(quote, url);
  }

  lemma UrlOpenFresh()
    ensures |UrlOpen| > 0 && forall k :: 0 < k < |UrlOpen| ==> UrlOpen[k] != UrlOpen[0]
  {
  }

  /** Removing both kinds of quote from a quoted URL gives the URL. */
  lemma Unquote(quote: string, url: string)
    requires quote == "" || quote == "'" || quote == "\""
    requires '"' !in url && '\'' !in url && ')' !in url
    ensures ')' !in quote + url + quote
    ensures RemoveAll(RemoveAll(quote + url + quote, "\""), "'") == url
  {
    RemoveCharConcat(quote + url, quote, '"');
    RemoveCharConcat(quote, url, '"');
    RemoveCharAbsent(url, '"');
    var q1 := RemoveAll(quote, "\"");
    if quote == "\"" {
      RemoveAllFront("\"", []);
    } else {
      RemoveCharAbsent(quote, '"');
    }
    RemoveCharConcat(q1 + url, q1, '\'');
    RemoveCharConcat(q1, url, '\'');
    RemoveCharAbsent(url, '\'');
    if q1 == "'" {
      RemoveAllFront("'", []);
    } else {
      RemoveCharAbsent(q1, '\'');
    }
  }

  /** The thumbnail carousel's URLs: `https:` put in front of every
      non-empty `src`, in carousel order. */
  function ThumbnailUrls(srcs: seq<Option<string>>): (r: seq<string>)
    ensures |r| <= |srcs|
    ensures forall i :: 0 <= i < |r| ==> StartsWith(r[i], Https)
  {
    if srcs == [] then []
    else
      var first := if srcs[0].Some? && srcs[0].value != [] then [Https + srcs[0].value] else [];
      PrefixFacts(Https, if srcs[0].Some? then srcs[0].value else []);
      first + ThumbnailUrls(srcs[1..])
  }

  /** Thumbnail URLs of a concatenated carousel are those of its parts. */
  lemma {:induction false} ThumbnailUrlsConcat(a: seq<Option<string>>, b: seq<Option<string>>)
    ensures ThumbnailUrls(a + b) == ThumbnailUrls(a) + ThumbnailUrls(b)
    decreases |a|
  {
    if a == [] {
      assert a + b == b;
    } else {
      assert (a + b)[1..] == a[1..] + b;
      ThumbnailUrlsConcat(a[1..], b);
    }
  }

  /** One carousel item gives `https:` + its `src`, or nothing when it has
      no image or an empty `src`. */
  lemma ThumbnailUrlsOne(src: Option<string>)
    ensures ThumbnailUrls([src]) == if src.Some? && src.value != [] then [Https + src.value] else []
  {
    assert [src][1..] == [];
  }

  /** When every thumbnail has a `src`, each one gives exactly one URL, at
      the same position. */
  lemma {:induction false} ThumbnailUrlsAllPresent(srcs: seq<Option<string>>)
    requires forall i :: 0 <= i < |srcs| ==> srcs[i].Some? && srcs[i].value != []
    ensures |ThumbnailUrls(srcs)| == |srcs|
    ensures forall i :: 0 <= i < |srcs| ==> ThumbnailUrls(srcs)[i] == Https + srcs[i].value
    decreases |srcs|
  {
    if srcs != [] {
      ThumbnailUrlsAllPresent(srcs[1..]);
    }
  }

  /** Every image URL of a listing: the background image first, if there is
      one, then the thumbnails. */
  function ImageUrls(page: DetailPage): seq<string> {
    var background := FirstBackgroundStyle(page.divStyles);
    (if background.Some? then [BackgroundImageUrl(background.value)] else [])
      + (if page.thumbnails.Some? then ThumbnailUrls(page.thumbnails.value) else [])
  }

  /** No image URL of a listing is left protocol-relative. */
  lemma ImageUrlsHaveScheme(page: DetailPage)
    ensures forall i :: 0 <= i < |ImageUrls(page)| ==> !StartsWith(ImageUrls(page)[i], "//")
  {
    var urls := ImageUrls(page);
    var background := FirstBackgroundStyle(page.divStyles);
    var head := if background.Some? then [BackgroundImageUrl(background.value)] else [];
    var thumbs := if page.thumbnails.Some? then ThumbnailUrls(page.thumbnails.value) else [];
    forall i | 0 <= i < |urls| ensures !StartsWith(urls[i], "//") {
      if i >= |head| {
        assert urls[i] == thumbs[i - |head|];
        assert StartsWith(thumbs[i - |head|], Https);
        assert thumbs[i - |head|][0] == 'h';
      }
    }
  }

  /** A page with a background image lists it first. */
  lemma ImageUrlsBackgroundFirst(page: DetailPage, style: string)
    requires FirstBackgroundStyle(page.divStyles) == Some(style)
    ensures |ImageUrls(page)| > 0 && ImageUrls(page)[0] == BackgroundImageUrl(style)
  {
  }

  /** The `image_urls` loop of the scraper: the background image, then one
      URL per thumbnail with a non-empty `src`. */
  method CollectImageUrls(page: DetailPage) returns (urls: seq<string>)
    ensures urls == ImageUrls(page)
  {
    urls := [];
    var background := FirstBackgroundStyle(page.divStyles);
    if background.Some? {
      urls := urls + [BackgroundImageUrl(background.value)];
    }
    var head := urls;
    if page.thumbnails.Some? {
      var srcs := page.thumbnails.value;
      var i := 0;
      while i < |srcs|
        invariant 0 <= i <= |srcs|
        invariant urls == head + ThumbnailUrls(srcs[..i])
      {
        var src := srcs[i];
        ThumbnailUrlsConcat(srcs[..i], [src]);
        assert srcs[..i + 1] == srcs[..i] + [src];
        if src.Some? && src.value != [] {
          urls := urls + [Https + src.value];
        }
        i := i + 1;
      }
      assert srcs[..|srcs|] == srcs;
    }
  }

  /** The listing built from a detail page reached at `url`: a stripped
      title, or the sentinel without a heading; each price stripped, or its
      sentinel without its element; image URLs that are never
      protocol-relative, the background image first. */
  function ListingOf(page: DetailPage, url: string): (r: Listing)
    ensures r.productUrl == url
    ensures IsStripped(r.title) && (page.heading.None? ==> r.title == NoTitle)
    ensures page.regularPriceText.Some? ==> IsStripped(r.regularPrice)
    ensures page.regularPriceText.None? ==> r.regularPrice == NoRegularPrice
    ensures page.salesPriceText.Some? ==> IsStripped(r.salesPrice)
    ensures page.salesPriceText.None? ==> r.salesPrice == NoSalesPrice
    ensures forall i :: 0 <= i < |r.imageUrls| ==> !StartsWith(r.imageUrls[i], "//")
    ensures FirstBackgroundStyle(page.divStyles).Some? ==>
      |r.imageUrls| > 0 && r.imageUrls[0] == BackgroundImageUrl(FirstBackgroundStyle(page.divStyles).value)
  {
    TitleStripped(page.heading);
    ImageUrlsHaveScheme(page);
    if FirstBackgroundStyle(page.divStyles).Some? then
      ImageUrlsBackgroundFirst(page, FirstBackgroundStyle(page.divStyles).value);
      ListingFromParts(page, url)
    else ListingFromParts(page, url)
  }

  function ListingFromParts(page: DetailPage, url: string): Listing {
    Listing(Title(page.heading), RegularPrice(page.regularPriceText), SalesPrice(page.salesPriceText),
            ImageUrls(page), url)
  }
}
