/**
 * `scrape_walgreens_promotions_selenium` and `search_amazon_with_selenium`
 * (main.py): for each of the first ten tiles of the clearance page, skip a
 * product already stored, otherwise read its detail page, search Amazon for
 * its title, ask the image-matching model which results show the same
 * product, and store the listing with the matched results.
 *
 * The browser, the search and the model are parameters (`Env`): each gives
 * what the page or the service returned. A detail page that never shows its
 * thumbnails, a model call that raises, and a search whose browser set-up
 * (before its `try`) or closing `driver.close()` raises all end the whole
 * scrape through its outer `except`; a search that raises inside its `try`
 * gives no results and the tile goes on.
 */
module Pipeline {
  import opened Wrappers
  import opened Models
  import opened ListingFields
  import opened Catalog
  import opened Matching
  import opened IndexResolution

  const MaxTiles: nat := 10
  const MaxResults: nat := 10
  const WalgreensOrigin: string := "https://www.walgreens.com"

  /** `xs[:n]`. */
  function Take<T>(xs: seq<T>, n: nat): (r: seq<T>)
    ensures |r| <= n && r <= xs
    ensures |xs| <= n ==> r == xs
  {
    if |xs| <= n then xs else xs[..n]
  }

  // ---------------------------------------------------------------------
  // The Amazon search

  /** The search results that could be read, in page order; a result whose
      link or title is missing is skipped. */
  function KeptCandidates(items: seq<Option<Candidate>>): (r: seq<Candidate>)
    ensures |r| <= |items|
    ensures forall k :: 0 <= k < |r| ==> Some(r[k]) in items
    decreases |items|
  {
    if items == [] then []
    else
      var rest := KeptCandidates(items[1..]);
      assert forall k :: 0 <= k < |rest| ==> Some(rest[k]) in items by {
        forall k | 0 <= k < |rest| ensures Some(rest[k]) in items {
          var j :| 0 <= j < |items[1..]| && items[1..][j] == Some(rest[k]);
          assert items[j + 1] == Some(rest[k]);
        }
      }
      (if items[0].Some? then [items[0].value] else []) + rest
  }

  /** What the search gives back when it returns: nothing when it raised
      inside its `try`, otherwise the readable ones among the first ten
      result elements. */
  function SearchResults(found: Option<seq<Option<Candidate>>>): (r: seq<Candidate>)
    ensures |r| <= MaxResults
    ensures found.None? ==> r == []
  {
    match found
    case None => []
    case Some(items) => KeptCandidates(Take(items, MaxResults))
  }

  /** Where every element could be read, all are kept, in order. */
  lemma {:induction false} KeptAllReadable(items: seq<Option<Candidate>>)
    requires forall k :: 0 <= k < |items| ==> items[k].Some?
    ensures |KeptCandidates(items)| == |items|
    ensures forall k :: 0 <= k < |items| ==> KeptCandidates(items)[k] == items[k].value
    decreases |items|
  {
    if items != [] {
      KeptAllReadable(items[1..]);
    }
  }

  /** An element that could not be read takes no place in the results. */
  lemma UnreadableSkipped(a: seq<Option<Candidate>>, b: seq<Option<Candidate>>)
    ensures KeptCandidates(a + [None] + b) == KeptCandidates(a + b)
  {
    assert a + [None] + b == a + ([None] + b);
    KeptConcat(a, [None] + b);
    KeptConcat(a, b);
    assert KeptCandidates([None] + b) == KeptCandidates(b) by {
      assert ([None] + b)[1..] == b;
    }
  }

  lemma {:induction false} KeptConcat(a: seq<Option<Candidate>>, b: seq<Option<Candidate>>)
    ensures KeptCandidates(a + b) == KeptCandidates(a) + KeptCandidates(b)
    decreases |a|
  {
    if a == [] {
      assert a + b == b;
    } else {
      assert (a + b)[1..] == a[1..] + b;
      KeptConcat(a[1..], b);
    }
  }

  lemma KeptStep(items: seq<Option<Candidate>>, i: nat)
    requires i < |items|
    ensures KeptCandidates(items[i..]) ==
      (if items[i].Some? then [items[i].value] else []) + KeptCandidates(items[i + 1..])
  {
    assert items[i..][1..] == items[i + 1..];
  }

  lemma KeptAdvance(items: seq<Option<Candidate>>, i: nat, results: seq<Candidate>)
    requires i < |items|
    requires results + KeptCandidates(items[i..]) == KeptCandidates(items)
    ensures items[i].Some? ==> (results + [items[i].value]) + KeptCandidates(items[i + 1..]) == KeptCandidates(items)
    ensures items[i].None? ==> results + KeptCandidates(items[i + 1..]) == KeptCandidates(items)
  {
    KeptStep(items, i);
    if items[i].Some? {
      assert results + ([items[i].value] + KeptCandidates(items[i + 1..]))
        == (results + [items[i].value]) + KeptCandidates(items[i + 1..]);
    } else {
      assert [] + KeptCandidates(items[i + 1..]) == KeptCandidates(items[i + 1..]);
    }
  }

  /** The result loop of the search. */
  method CollectCandidates(found: Option<seq<Option<Candidate>>>) returns (results: seq<Candidate>)
    ensures results == SearchResults(found)
  {
    results := [];
    if found.None? {
      return;
    }
    var items := Take(found.value, MaxResults);
    var i := 0;
    while i < |items|
      invariant 0 <= i <= |items|
      invariant results + KeptCandidates(items[i..]) == KeptCandidates(items)
    {
      KeptAdvance(items, i, results);
      if items[i].Some? {
        results := results + [items[i].value];
      }
      i := i + 1;
    }
    KeptEnd(items, results);
  }

  lemma KeptEnd(items: seq<Option<Candidate>>, results: seq<Candidate>)
    requires results + KeptCandidates(items[|items|..]) == KeptCandidates(items)
    ensures results == KeptCandidates(items)
  {
    assert items[|items|..] == [];
    assert results + [] == results;
  }

  // ---------------------------------------------------------------------
  // The outside world

  /** The browser and the services, as the scraper sees them: the detail
      page behind a URL (`None` when its thumbnails never appear), the
      Amazon search for a title, and the model's reply (`None` when the
      call raised). The search is `None` when it raised outside its `try`
      (opening the tab, or closing it in the `finally`), which ends the
      scrape; otherwise `Some(found)`, where `found` is what `SearchResults`
      reads: `None` when the search raised inside its `try`, else the
      result elements. */
  datatype Env = Env(
    detailPage: string -> Option<DetailPage>,
    search: string -> Option<Option<seq<Option<Candidate>>>>,
    oracle: OracleRequest -> Option<string>)

  /** The clearance page: the product container never appeared, it is
      absent, or it holds tiles, each with the `href` of its first link. */
  datatype ListingPage = ContainerTimeout | NoContainer | Tiles(hrefs: seq<Option<string>>)

  function TileUrl(href: string): string {
    WalgreensOrigin + href
  }

  // ---------------------------------------------------------------------
  // One tile

  /** How one tile went: its product was already stored, the scrape ended
      with an error (after `partial` was added to the listings), or it was
      scraped and stored. */
  datatype TileOutcome = Known | Failed(partial: seq<Listing>) | Scraped(listing: Listing)

  function ScrapeTile(t: Tables, href: Option<string>, env: Env): (r: (Tables, TileOutcome))
    ensures Extends(t, r.0)
    ensures !r.1.Scraped? ==> r.0 == t
    ensures r.1.Known? <==> href.Some? && TileUrl(href.value) in ProductUrls(t.products)
    ensures r.1.Failed? ==> |r.1.partial| <= 1
    ensures r.1.Failed? ==> forall l :: l in r.1.partial ==> l.productUrl !in ProductUrls(t.products)
    ensures r.1.Scraped? ==> href.Some? && r.1.listing.productUrl == TileUrl(href.value)
    ensures r.1.Scraped? ==> r.1.listing.productUrl in ProductUrls(r.0.products)
  {
    match href
    case None => (t, Failed([]))
    case Some(h) =>
      var url := TileUrl(h);
      if url in ProductUrls(t.products) then (t, Known)
      else
        match env.detailPage(url)
        case None => (t, Failed([]))
        case Some(page) =>
          ScrapeListing(t, ListingOf(page, url), env)
  }

  /** The rest of a fresh tile once its listing is read: search Amazon for
      its title, ask the model, and store the listing with the matches. */
  function ScrapeListing(t: Tables, listing: Listing, env: Env): (r: (Tables, TileOutcome))
    ensures Extends(t, r.0)
    ensures r.1.Known? == false
    ensures r.1.Failed? ==> r.0 == t && r.1.partial == [listing]
    ensures r.1.Scraped? ==> r.1.listing == listing && listing.productUrl in ProductUrls(r.0.products)
  {
    match env.search(listing.title)
    case None => (t, Failed([listing]))
    case Some(found) =>
      var results := SearchResults(found);
      match MatchingIndexes(listing, results, env.oracle)
      case None => (t, Failed([listing]))
      case Some(indexes) =>
        var t1 := InsertData(t, listing, Resolve(results, indexes)).0;
        InsertDataStoresProduct(t, listing, Resolve(results, indexes));
        (t1, Scraped(listing))
  }

  /** After `insert_data_to_db` the listing's product is stored, whatever
      happened to the candidates. */
  lemma InsertDataStoresProduct(t: Tables, listing: Listing, cs: seq<Candidate>)
    ensures listing.productUrl in ProductUrls(InsertData(t, listing, cs).0.products)
  {
    var (t1, pid) := EnsureProduct(t, listing);
    if listing.productUrl !in ProductUrls(t.products) {
      assert ProductUrls(t1.products)[|t.products|] == listing.productUrl;
    }
  }

  // ---------------------------------------------------------------------
  // The tile loop

  /** The tables after a run, the listings it collected, and whether it
      ended with an error. */
  datatype Run = Run(tables: Tables, listings: seq<Listing>, aborted: bool)

  function ScrapeTiles(t: Tables, hrefs: seq<Option<string>>, env: Env): (r: Run)
    ensures Extends(t, r.tables)
    ensures |r.listings| <= |hrefs|
    decreases |hrefs|
  {
    if hrefs == [] then Run(t, [], false)
    else
      var (t1, outcome) := ScrapeTile(t, hrefs[0], env);
      match outcome
      case Known => ScrapeTiles(t, hrefs[1..], env)
      case Failed(partial) => Run(t, partial, true)
      case Scraped(listing) =>
        var rest := ScrapeTiles(t1, hrefs[1..], env);
        ExtendsTransitive(t, t1, rest.tables);
        Run(rest.tables, [listing] + rest.listings, rest.aborted)
  }

  /** `scrape_walgreens_promotions_selenium()` on the tables `t`: the tables
      after it, and the listings it returns (`None` where it ends in its
      `except` and returns nothing). */
  function ScrapeRun(t: Tables, page: ListingPage, env: Env): (r: (Tables, Option<seq<Listing>>))
    ensures Extends(t, r.0)
    ensures r.1.Some? ==> |r.1.value| <= MaxTiles
    ensures !page.Tiles? ==> r.0 == t
  {
    match page
    case ContainerTimeout => (t, None)
    case NoContainer => (t, Some([]))
    case Tiles(hrefs) =>
      var run := ScrapeTiles(t, Take(hrefs, MaxTiles), env);
      (run.tables, if run.aborted then None else Some(run.listings))
  }

  // ---------------------------------------------------------------------
  // Properties of a run

  lemma ScrapeTileValid(t: Tables, href: Option<string>, env: Env)
    requires Valid(t)
    ensures Valid(ScrapeTile(t, href, env).0)
  {
    if href.Some? && TileUrl(href.value) !in ProductUrls(t.products) {
      var url := TileUrl(href.value);
      if env.detailPage(url).Some? {
        ScrapeListingValid(t, ListingOf(env.detailPage(url).value, url), env);
      }
    }
  }

  lemma ScrapeListingValid(t: Tables, listing: Listing, env: Env)
    requires Valid(t)
    ensures Valid(ScrapeListing(t, listing, env).0)
  {
    if env.search(listing.title).Some? {
      var results := SearchResults(env.search(listing.title).value);
      var indexes := MatchingIndexes(listing, results, env.oracle);
      if indexes.Some? {
        InsertDataValid(t, listing, Resolve(results, indexes.value));
      }
    }
  }

  /** A run keeps every table constraint. */
  lemma {:induction false} ScrapeTilesValid(t: Tables, hrefs: seq<Option<string>>, env: Env)
    requires Valid(t)
    ensures Valid(ScrapeTiles(t, hrefs, env).tables)
    decreases |hrefs|
  {
    if hrefs != [] {
      ScrapeTileValid(t, hrefs[0], env);
      ScrapeTilesValid(ScrapeTile(t, hrefs[0], env).0, hrefs[1..], env);
    }
  }

  lemma ScrapeRunValid(t: Tables, page: ListingPage, env: Env)
    requires Valid(t)
    ensures Valid(ScrapeRun(t, page, env).0)
  {
    if page.Tiles? {
      ScrapeTilesValid(t, Take(page.hrefs, MaxTiles), env);
    }
  }

  /** A URL stored once stays stored. */
  lemma KnownStaysKnown(t: Tables, u: Tables, url: string)
    requires Extends(t, u) && url in ProductUrls(t.products)
    ensures url in ProductUrls(u.products)
  {
    KeysExtended(t, u);
  }

  /** The listings of run `r` from tables `t` are new products, no two of
      them the same, and, when the run ends normally, all of them are
      stored. */
  predicate FreshRun(t: Tables, r: Run) {
    && (forall i :: 0 <= i < |r.listings| ==> r.listings[i].productUrl !in ProductUrls(t.products))
    && (forall i, j :: 0 <= i < j < |r.listings| ==> r.listings[i].productUrl != r.listings[j].productUrl)
    && (!r.aborted ==> forall i :: 0 <= i < |r.listings| ==> r.listings[i].productUrl in ProductUrls(r.tables.products))
  }

  lemma {:induction false} ScrapeTilesFresh(t: Tables, hrefs: seq<Option<string>>, env: Env)
    ensures FreshRun(t, ScrapeTiles(t, hrefs, env))
    decreases |hrefs|
  {
    if hrefs != [] {
      var (t1, outcome) := ScrapeTile(t, hrefs[0], env);
      match outcome
      case Known =>
        assert ScrapeTiles(t, hrefs, env) == ScrapeTiles(t, hrefs[1..], env);
        ScrapeTilesFresh(t, hrefs[1..], env);
      case Failed(partial) =>
        assert ScrapeTiles(t, hrefs, env) == Run(t, partial, true);
      case Scraped(listing) =>
        var rest := ScrapeTiles(t1, hrefs[1..], env);
        assert ScrapeTiles(t, hrefs, env) == Prepend([listing], rest);
        ScrapeTilesFresh(t1, hrefs[1..], env);
        FreshAfterScraped(t, t1, listing, rest);
    }
  }

  /** The inductive step of `ScrapeTilesFresh` for a scraped tile. */
  lemma FreshAfterScraped(t: Tables, t1: Tables, listing: Listing, rest: Run)
    requires Extends(t, t1) && Extends(t1, rest.tables)
    requires listing.productUrl !in ProductUrls(t.products)
    requires listing.productUrl in ProductUrls(t1.products)
    requires FreshRun(t1, rest)
    ensures FreshRun(t, Prepend([listing], rest))
  {
    var ls := [listing] + rest.listings;
    forall i | 1 <= i < |ls| ensures ls[i].productUrl !in ProductUrls(t.products) {
      assert ls[i] == rest.listings[i - 1];
      if ls[i].productUrl in ProductUrls(t.products) {
        KnownStaysKnown(t, t1, ls[i].productUrl);
      }
    }
    forall i, j | 0 <= i < j < |ls| ensures ls[i].productUrl != ls[j].productUrl {
      assert ls[j] == rest.listings[j - 1];
      if i > 0 {
        assert ls[i] == rest.listings[i - 1];
      }
    }
    KnownStaysKnown(t1, rest.tables, listing.productUrl);
  }

  /** When a run ends normally, every tile it looked at names a product
      that is now stored. */
  lemma {:induction false} ScrapeTilesCovers(t: Tables, hrefs: seq<Option<string>>, env: Env)
    requires !ScrapeTiles(t, hrefs, env).aborted
    ensures AllStored(hrefs, ScrapeTiles(t, hrefs, env).tables)
    decreases |hrefs|
  {
    if hrefs != [] {
      var (t1, outcome) := ScrapeTile(t, hrefs[0], env);
      var r := ScrapeTiles(t, hrefs, env);
      ScrapeTilesCovers(t1, hrefs[1..], env);
      KnownStaysKnown(t1, r.tables, TileUrl(hrefs[0].value));
      AllStoredCons(hrefs, r.tables);
    }
  }

  /** Every tile has a link, and the product behind it is stored in `u`. */
  predicate AllStored(hrefs: seq<Option<string>>, u: Tables) {
    forall k :: 0 <= k < |hrefs| ==> hrefs[k].Some? && TileUrl(hrefs[k].value) in ProductUrls(u.products)
  }

  lemma AllStoredCons(hrefs: seq<Option<string>>, u: Tables)
    requires hrefs != [] && AllStored(hrefs[1..], u)
    requires hrefs[0].Some? && TileUrl(hrefs[0].value) in ProductUrls(u.products)
    ensures AllStored(hrefs, u)
  {
    forall k | 1 <= k < |hrefs|
      ensures hrefs[k].Some? && TileUrl(hrefs[k].value) in ProductUrls(u.products)
    {
      assert hrefs[1..][k - 1] == hrefs[k];
    }
  }

  /** Tiles whose products are all stored change nothing and yield nothing,
      whatever the pages and services would answer. */
  lemma {:induction false} AllKnownSkipped(t: Tables, hrefs: seq<Option<string>>, env: Env)
    requires AllStored(hrefs, t)
    ensures ScrapeTiles(t, hrefs, env) == Run(t, [], false)
    decreases |hrefs|
  {
    if hrefs != [] {
      assert AllStored(hrefs[1..], t) by {
        forall k | 0 <= k < |hrefs[1..]| ensures hrefs[1..][k] == hrefs[k + 1] { }
      }
      AllKnownSkipped(t, hrefs[1..], env);
    }
  }

  /** Scraping the same page again right after a run that ended normally
      stores nothing new and returns no listing. */
  lemma RerunAddsNothing(t: Tables, page: ListingPage, env: Env, env2: Env)
    requires ScrapeRun(t, page, env).1.Some?
    ensures var t1 := ScrapeRun(t, page, env).0;
      ScrapeRun(t1, page, env2) == (t1, Some([]))
  {
    if page.Tiles? {
      var tiles := Take(page.hrefs, MaxTiles);
      ScrapeTilesCovers(t, tiles, env);
      AllKnownSkipped(ScrapeTiles(t, tiles, env).tables, tiles, env2);
    }
  }

  /** The listings a run returns are new, distinct, and stored. */
  lemma ScrapeRunListings(t: Tables, page: ListingPage, env: Env)
    ensures var (t1, listings) := ScrapeRun(t, page, env);
      listings.Some? ==>
        && |listings.value| <= MaxTiles
        && (forall i :: 0 <= i < |listings.value| ==> listings.value[i].productUrl !in ProductUrls(t.products))
        && (forall i :: 0 <= i < |listings.value| ==> listings.value[i].productUrl in ProductUrls(t1.products))
        && (forall i, j :: 0 <= i < j < |listings.value| ==> listings.value[i].productUrl != listings.value[j].productUrl)
  {
    if page.Tiles? {
      ScrapeTilesFresh(t, Take(page.hrefs, MaxTiles), env);
      assert FreshRun(t, ScrapeTiles(t, Take(page.hrefs, MaxTiles), env));
    }
  }

  /** Only the first ten tiles are looked at. */
  lemma LaterTilesIgnored(t: Tables, hrefs: seq<Option<string>>, more: seq<Option<string>>, env: Env)
    requires |hrefs| >= MaxTiles
    ensures ScrapeRun(t, Tiles(hrefs + more), env) == ScrapeRun(t, Tiles(hrefs), env)
  {
    assert Take(hrefs + more, MaxTiles) == Take(hrefs, MaxTiles);
  }

  // ---------------------------------------------------------------------
  // One scraped tile end to end

  /** A fresh product whose Amazon search lists two readable results, one
      it cannot read and a third, and whose model reply is index 2, is
      stored with one Amazon product and one match: to the second result,
      `amazon_results[2 - 1]`. */
  lemma OneTileScenario(href: string, page: DetailPage, env: Env, c1: Candidate, c2: Candidate, c3: Candidate,
                        asin: string, reply: string)
    requires env.detailPage(TileUrl(href)) == Some(page)
    requires ImageUrls(page) != []
    requires env.search(ListingOf(page, TileUrl(href)).title) == Some(Some([Some(c1), Some(c2), None, Some(c3)]))
    requires forall req :: env.oracle(req) == Some(reply)
    requires OracleReply.DecodeReply(reply) == [2]
    requires Asin.ExtractAsin(c2.url) == Some(asin) && c2.imageUrl.Some?
    ensures var listing := ListingOf(page, TileUrl(href));
      ScrapeRun(Empty, Tiles([Some(href)]), env) ==
        (Tables([NewProduct(1, listing)],
                [NewAmazonProduct(1, asin, c2, c2.imageUrl.value)],
                [ProductMatch(1, 1, 1)]),
         Some([listing]))
  {
    var listing := ListingOf(page, TileUrl(href));
    var t1 := Tables([NewProduct(1, listing)], [NewAmazonProduct(1, asin, c2, c2.imageUrl.value)], [ProductMatch(1, 1, 1)]);
    ScenarioListing(listing, env, c1, c2, c3, asin, reply);
    ScenarioTile(href, page, env, t1);
    ScenarioRun(Empty, Some(href), env, t1, listing);
  }

  lemma ScenarioListing(listing: Listing, env: Env, c1: Candidate, c2: Candidate, c3: Candidate,
                        asin: string, reply: string)
    requires listing.imageUrls != []
    requires env.search(listing.title) == Some(Some([Some(c1), Some(c2), None, Some(c3)]))
    requires forall req :: env.oracle(req) == Some(reply)
    requires OracleReply.DecodeReply(reply) == [2]
    requires Asin.ExtractAsin(c2.url) == Some(asin) && c2.imageUrl.Some?
    ensures ScrapeListing(Empty, listing, env) ==
      (Tables([NewProduct(1, listing)], [NewAmazonProduct(1, asin, c2, c2.imageUrl.value)], [ProductMatch(1, 1, 1)]),
       Scraped(listing))
  {
    var results := [c1, c2, c3];
    ScenarioSearch(c1, c2, c3);
    ScenarioMatch(listing, results, env.oracle, reply);
    ScenarioResolve(results);
    ScrapeListingStored(Empty, listing, env, results, [2]);
    ScenarioInsert(listing, c2, asin);
  }

  lemma ScenarioResolve<T>(results: seq<T>)
    requires |results| >= 2
    ensures Resolve(results, [2]) == [results[1]]
  {
    assert [2][1..] == [];
  }

  /** The listing is stored with the results the model picked, once the
      search and the model have answered. */
  lemma ScrapeListingStored(t: Tables, listing: Listing, env: Env, results: seq<Candidate>, indexes: seq<int>)
    requires env.search(listing.title).Some? && SearchResults(env.search(listing.title).value) == results
    requires MatchingIndexes(listing, results, env.oracle) == Some(indexes)
    ensures ScrapeListing(t, listing, env) == (InsertData(t, listing, Resolve(results, indexes)).0, Scraped(listing))
  {
  }

  lemma ScenarioTile(href: string, page: DetailPage, env: Env, t1: Tables)
    requires env.detailPage(TileUrl(href)) == Some(page)
    requires ScrapeListing(Empty, ListingOf(page, TileUrl(href)), env) == (t1, Scraped(ListingOf(page, TileUrl(href))))
    ensures ScrapeTile(Empty, Some(href), env) == (t1, Scraped(ListingOf(page, TileUrl(href))))
  {
    assert TileUrl(href) !in ProductUrls(Empty.products);
  }

  lemma ScenarioSearch(c1: Candidate, c2: Candidate, c3: Candidate)
    ensures SearchResults(Some([Some(c1), Some(c2), None, Some(c3)])) == [c1, c2, c3]
  {
    var items := [Some(c1), Some(c2), None, Some(c3)];
    UnreadableSkipped([Some(c1), Some(c2)], [Some(c3)]);
    assert [Some(c1), Some(c2)] + [None] + [Some(c3)] == items;
    assert [Some(c1), Some(c2)] + [Some(c3)] == [Some(c1), Some(c2), Some(c3)];
    KeptAllReadable([Some(c1), Some(c2), Some(c3)]);
  }

  lemma ScenarioMatch(listing: Listing, results: seq<Candidate>, oracle: OracleRequest -> Option<string>, reply: string)
    requires listing.imageUrls != []
    requires forall req :: oracle(req) == Some(reply)
    requires OracleReply.DecodeReply(reply) == [2]
    ensures MatchingIndexes(listing, results, oracle) == Some([2])
  {
    assert oracle(OracleRequestFor(listing, results).value) == Some(reply);
  }

  lemma ScenarioInsert(listing: Listing, c: Candidate, asin: string)
    requires Asin.ExtractAsin(c.url) == Some(asin) && c.imageUrl.Some?
    ensures InsertData(Empty, listing, [c]).0 ==
      Tables([NewProduct(1, listing)], [NewAmazonProduct(1, asin, c, c.imageUrl.value)], [ProductMatch(1, 1, 1)])
  {
    var t1 := Tables([NewProduct(1, listing)], [], []);
    assert listing.productUrl !in ProductUrls(Empty.products);
    var e := EnsureProduct(Empty, listing);
    assert e.0.products == [] + [NewProduct(1, listing)] == t1.products;
    assert e == (t1, 1);
    ScenarioCandidate(t1, c, asin);
    InsertOneCandidate(t1, 1, c);
  }

  /** A candidate with a new ASIN, inserted next to the first product. */
  lemma ScenarioCandidate(t1: Tables, c: Candidate, asin: string)
    requires t1.amazonProducts == [] && t1.matches == []
    requires Asin.ExtractAsin(c.url) == Some(asin) && c.imageUrl.Some?
    ensures InsertCandidate(t1, 1, c) ==
      Some(t1.(amazonProducts := [NewAmazonProduct(1, asin, c, c.imageUrl.value)], matches := [ProductMatch(1, 1, 1)]))
  {
    var row := NewAmazonProduct(1, asin, c, c.imageUrl.value);
    var t2 := t1.(amazonProducts := [row]);
    assert FindFirst(Asins(t1.amazonProducts), asin) == None;
    assert t1.amazonProducts + [row] == [row];
    assert Asins(t2.amazonProducts) == [asin];
    assert LinkMatch(t2, 1, 1) == t2.(matches := t2.matches + [ProductMatch(1, 1, 1)]);
    assert t2.matches + [ProductMatch(1, 1, 1)] == [ProductMatch(1, 1, 1)];
    assert InsertCandidate(t1, 1, c) == Some(LinkMatch(t2, 1, 1));
  }

  /** The candidate loop over one candidate that inserts. */
  lemma InsertOneCandidate(t: Tables, pid: nat, c: Candidate)
    requires InsertCandidate(t, pid, c).Some?
    ensures InsertCandidates(t, pid, [c]) == (InsertCandidate(t, pid, c).value, Completed)
  {
    assert [c][0] == c && [c][1..] == [];
  }

  /** A page of one tile that is scraped returns that tile's listing. */
  lemma ScenarioRun(t: Tables, tile: Option<string>, env: Env, t1: Tables, listing: Listing)
    requires ScrapeTile(t, tile, env) == (t1, Scraped(listing))
    ensures ScrapeRun(t, Tiles([tile]), env) == (t1, Some([listing]))
  {
    var tiles := [tile];
    assert Take(tiles, MaxTiles) == tiles;
    assert tiles[0] == tile && tiles[1..] == [];
    assert ScrapeTiles(t1, tiles[1..], env) == Run(t1, [], false);
    assert ScrapeTiles(t, tiles, env) == Run(t1, [listing], false);
  }

  // ---------------------------------------------------------------------
  // The scraper over a mutable store

  /** One tile of the scraper's loop, on the store. */
  method ProcessTile(store: Store, href: Option<string>, env: Env) returns (outcome: TileOutcome)
    modifies store
    ensures (store.State(), outcome) == ScrapeTile(old(store.State()), href, env)
  {
    if href.None? {
      return Failed([]);
    }
    var url := TileUrl(href.value);
    var known := store.HasProduct(url);
    if known {
      return Known;
    }
    var page := env.detailPage(url);
    if page.None? {
      return Failed([]);
    }
    var images := CollectImageUrls(page.value);
    var listing := Listing(Title(page.value.heading), RegularPrice(page.value.regularPriceText),
                           SalesPrice(page.value.salesPriceText), images, url);
    var found := env.search(listing.title);
    if found.None? {
      return Failed([listing]);
    }
    var results := CollectCandidates(found.value);
    var indexes := FindMatchingAmazonImages(listing, results, env.oracle);
    if indexes.None? {
      return Failed([listing]);
    }
    var matched := ResolveMatches(results, indexes.value);
    var committed := store.InsertDataToDb(listing, matched);
    outcome := Scraped(listing);
  }

  /** `Run` with `acc` put before its listings. */
  function Prepend(acc: seq<Listing>, r: Run): Run {
    Run(r.tables, acc + r.listings, r.aborted)
  }

  lemma TilesStep(t: Tables, hrefs: seq<Option<string>>, i: nat, env: Env)
    requires i < |hrefs|
    ensures ScrapeTiles(t, hrefs[i..], env) ==
      match ScrapeTile(t, hrefs[i], env).1
      case Known => ScrapeTiles(t, hrefs[i + 1..], env)
      case Failed(partial) => Run(t, partial, true)
      case Scraped(listing) =>
        Prepend([listing], ScrapeTiles(ScrapeTile(t, hrefs[i], env).0, hrefs[i + 1..], env))
  {
    assert hrefs[i..][0] == hrefs[i] && hrefs[i..][1..] == hrefs[i + 1..];
  }

  lemma PrependTwice(acc: seq<Listing>, listing: Listing, r: Run)
    ensures Prepend(acc, Prepend([listing], r)) == Prepend(acc + [listing], r)
  {
    assert acc + ([listing] + r.listings) == (acc + [listing]) + r.listings;
  }

  /** `scrape_walgreens_promotions_selenium()` on the store. */
  method ScrapePromotions(store: Store, page: ListingPage, env: Env) returns (listings: Option<seq<Listing>>)
    modifies store
    ensures (store.State(), listings) == ScrapeRun(old(store.State()), page, env)
  {
    if page.ContainerTimeout? {
      return None;
    }
    if page.NoContainer? {
      return Some([]);
    }
    var tiles := Take(page.hrefs, MaxTiles);
    ghost var start := store.State();
    var scraped: seq<Listing> := [];
    var i := 0;
    while i < |tiles|
      invariant 0 <= i <= |tiles|
      invariant Prepend(scraped, ScrapeTiles(store.State(), tiles[i..], env)) == ScrapeTiles(start, tiles, env)
    {
      ghost var before := store.State();
      TilesStep(before, tiles, i, env);
      var outcome := ProcessTile(store, tiles[i], env);
      if outcome.Failed? {
        return None;
      }
      if outcome.Scraped? {
        PrependTwice(scraped, outcome.listing, ScrapeTiles(store.State(), tiles[i + 1..], env));
        scraped := scraped + [outcome.listing];
      }
      i := i + 1;
    }
    assert tiles[i..] == [];
    assert scraped + [] == scraped;
    listings := Some(scraped);
  }
}
