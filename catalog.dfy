/**
 * `insert_data_to_db` (main.py): store one listing and the search results
 * the oracle matched to it. Every table is insert-if-absent: the product by
 * its URL, each Amazon product by the ASIN of its URL, each match by its
 * (product, Amazon product) pair. Each row is committed on its own; the
 * first failing insert rolls back only itself and ends the loop.
 *
 * The store is given twice: as functions on `Tables`, which the lemmas
 * speak about, and as the `Store` class whose methods change its tables in
 * place and are proved to follow those functions.
 */
module Catalog {
  import opened Wrappers
  import opened Models
  import Asin
  import opened ListingFields

  /** One search result as the Amazon search builds it. */
  datatype Candidate = Candidate(url: string, title: string, imageUrl: Option<string>)

  /** How the candidate loop ended: every candidate handled, or the one at
      `at` failed to insert and the loop stopped there. */
  datatype Outcome = Completed | RolledBack(at: nat)

  function Shift(o: Outcome): Outcome {
    match o
    case Completed => Completed
    case RolledBack(k) => RolledBack(k + 1)
  }

  // ---------------------------------------------------------------------
  // The product row

  /** The row a new listing gets: `source` set, no price, not in stock. */
  function NewProduct(id: nat, listing: Listing): Product {
    Product(id, listing.title, listing.imageUrls, listing.productUrl, WalgreensSource, None, false)
  }

  /** Looks the listing's product up by URL and inserts it when absent; gives
      the tables after that and the product's id. */
  function EnsureProduct(t: Tables, listing: Listing): (r: (Tables, nat))
    ensures Extends(t, r.0)
    ensures r.0.amazonProducts == t.amazonProducts && r.0.matches == t.matches
    ensures listing.productUrl in ProductUrls(t.products) ==> r.0 == t
    ensures listing.productUrl !in ProductUrls(t.products) ==>
      r.0.products == t.products + [NewProduct(|t.products| + 1, listing)] && r.1 == |t.products| + 1
  {
    match FindFirst(ProductUrls(t.products), listing.productUrl)
    case Some(i) => (t, t.products[i].id)
    case None =>
      var id := |t.products| + 1;
      (t.(products := t.products + [NewProduct(id, listing)]), id)
  }

  // ---------------------------------------------------------------------
  // One candidate

  /** The id of the Amazon product stored under `asin`. */
  function AmazonId(t: Tables, asin: string): nat
    requires asin in Asins(t.amazonProducts)
  {
    t.amazonProducts[FindFirst(Asins(t.amazonProducts), asin).value].id
  }

  /** The candidate's Amazon product is stored and matched to product `pid`. */
  predicate Stored(t: Tables, pid: nat, c: Candidate) {
    var asin := Asin.ExtractAsin(c.url);
    && asin.Some?
    && asin.value in Asins(t.amazonProducts)
    && (pid, AmazonId(t, asin.value)) in Pairs(t.matches)
  }

  /** The match `(pid, aid)`, inserted when absent. */
  function LinkMatch(t: Tables, pid: nat, aid: nat): (r: Tables)
    ensures Extends(t, r) && r.products == t.products && r.amazonProducts == t.amazonProducts
    ensures (pid, aid) in Pairs(r.matches)
    ensures (pid, aid) in Pairs(t.matches) ==> r == t
    ensures (pid, aid) !in Pairs(t.matches) ==> r.matches == t.matches + [ProductMatch(|t.matches| + 1, pid, aid)]
  {
    if (pid, aid) in Pairs(t.matches) then t
    else
      var m := ProductMatch(|t.matches| + 1, pid, aid);
      assert Pairs(t.matches + [m])[|t.matches|] == (pid, aid);
      t.(matches := t.matches + [m])
  }

  /** A new Amazon product row; the buy-box count and the sellers stay unset. */
  function NewAmazonProduct(id: nat, asin: string, c: Candidate, image: string): AmazonProduct {
    AmazonProduct(id, asin, c.title, c.url, image, None, None)
  }

  /** One pass of the candidate loop: `None` where the insert raises, which
      happens when the URL has no ASIN (`asin` is NOT NULL) or when a new
      Amazon product has no image (`image_url` is NOT NULL). */
  function InsertCandidate(t: Tables, pid: nat, c: Candidate): (r: Option<Tables>)
    ensures r.None? <==> (Asin.ExtractAsin(c.url).None?
      || (Asin.ExtractAsin(c.url).value !in Asins(t.amazonProducts) && c.imageUrl.None?))
    ensures r.Some? ==> Extends(t, r.value) && r.value.products == t.products
    ensures r.Some? ==> var asin := Asin.ExtractAsin(c.url).value;
      && (asin in Asins(t.amazonProducts) ==> r.value.amazonProducts == t.amazonProducts)
      && (asin !in Asins(t.amazonProducts) ==>
            r.value.amazonProducts == t.amazonProducts + [NewAmazonProduct(|t.amazonProducts| + 1, asin, c, c.imageUrl.value)])
      && asin in Asins(r.value.amazonProducts)
      && LinkMatch(t, pid, AmazonId(r.value, asin)).matches == r.value.matches
  {
    match Asin.ExtractAsin(c.url)
    case None => None
    case Some(asin) =>
      match FindFirst(Asins(t.amazonProducts), asin)
      case Some(i) => Some(LinkMatch(t, pid, t.amazonProducts[i].id))
      case None =>
        match c.imageUrl
        case None => None
        case Some(image) =>
          var aid := |t.amazonProducts| + 1;
          var t1 := t.(amazonProducts := t.amazonProducts + [NewAmazonProduct(aid, asin, c, image)]);
          NewAmazonFound(t, asin, c, image);
          Some(LinkMatch(t1, pid, aid))
  }

  /** The row appended for a new ASIN is the one found under it. */
  lemma NewAmazonFound(t: Tables, asin: string, c: Candidate, image: string)
    requires asin !in Asins(t.amazonProducts)
    ensures var rows := t.amazonProducts + [NewAmazonProduct(|t.amazonProducts| + 1, asin, c, image)];
      Asins(rows) == Asins(t.amazonProducts) + [asin]
      && FindFirst(Asins(rows), asin) == Some(|t.amazonProducts|)
  {
    var rows := t.amazonProducts + [NewAmazonProduct(|t.amazonProducts| + 1, asin, c, image)];
    assert Asins(rows) == Asins(t.amazonProducts) + [asin];
    FindFirstAppended(Asins(t.amazonProducts), asin);
  }

  /** The candidate loop from `cs[0]` on. */
  function InsertCandidates(t: Tables, pid: nat, cs: seq<Candidate>): (r: (Tables, Outcome))
    ensures Extends(t, r.0) && r.0.products == t.products
    ensures r.1.RolledBack? ==> r.1.at < |cs|
    decreases |cs|
  {
    if cs == [] then (t, Completed)
    else
      match InsertCandidate(t, pid, cs[0])
      case None => (t, RolledBack(0))
      case Some(t1) =>
        var (t2, o) := InsertCandidates(t1, pid, cs[1..]);
        (t2, Shift(o))
  }

  /** `insert_data_to_db(listing, cs)` on the tables `t`. */
  function InsertData(t: Tables, listing: Listing, cs: seq<Candidate>): (r: (Tables, Outcome))
    ensures Extends(t, r.0)
  {
    var (t1, pid) := EnsureProduct(t, listing);
    ExtendsTransitive(t, t1, InsertCandidates(t1, pid, cs).0);
    InsertCandidates(t1, pid, cs)
  }

  // ---------------------------------------------------------------------
  // The tables stay valid

  lemma EnsureProductValid(t: Tables, listing: Listing)
    requires Valid(t)
    ensures var (t1, pid) := EnsureProduct(t, listing);
      && Valid(t1)
      && 1 <= pid <= |t1.products|
      && t1.products[pid - 1].productUrl == listing.productUrl
  {
    var urls := ProductUrls(t.products);
    var (t1, pid) := EnsureProduct(t, listing);
    if listing.productUrl !in urls {
      assert ProductUrls(t1.products) == urls + [listing.productUrl];
      UniqueAppend(urls, listing.productUrl);
    }
  }

  lemma LinkMatchValid(t: Tables, pid: nat, aid: nat)
    requires Valid(t) && 1 <= pid <= |t.products| && 1 <= aid <= |t.amazonProducts|
    ensures Valid(LinkMatch(t, pid, aid))
  {
    var pairs := Pairs(t.matches);
    if (pid, aid) !in pairs {
      var m := ProductMatch(|t.matches| + 1, pid, aid);
      assert Pairs(t.matches + [m]) == pairs + [(pid, aid)];
      UniqueAppend(pairs, (pid, aid));
    }
  }

  /** A new Amazon product keeps both its keys unique: its ASIN is absent,
      and so is its URL, since any row with that URL would carry the same
      ASIN. */
  lemma AddAmazonValid(t: Tables, asin: string, c: Candidate, image: string)
    requires Valid(t)
    requires Asin.ExtractAsin(c.url) == Some(asin) && asin !in Asins(t.amazonProducts)
    ensures var row := NewAmazonProduct(|t.amazonProducts| + 1, asin, c, image);
      Valid(t.(amazonProducts := t.amazonProducts + [row]))
  {
    var rows := t.amazonProducts;
    var row := NewAmazonProduct(|rows| + 1, asin, c, image);
    var all := rows + [row];
    assert Asins(all) == Asins(rows) + [asin];
    UniqueAppend(Asins(rows), asin);
    forall i | 0 <= i < |rows| ensures all[i].productUrl != c.url {
      assert Asins(rows)[i] == rows[i].asin;
    }
  }

  lemma InsertCandidateValid(t: Tables, pid: nat, c: Candidate)
    requires Valid(t) && 1 <= pid <= |t.products|
    requires InsertCandidate(t, pid, c).Some?
    ensures Valid(InsertCandidate(t, pid, c).value)
  {
    var asin := Asin.ExtractAsin(c.url).value;
    var found := FindFirst(Asins(t.amazonProducts), asin);
    if found.Some? {
      LinkMatchValid(t, pid, t.amazonProducts[found.value].id);
    } else {
      var aid := |t.amazonProducts| + 1;
      var image := c.imageUrl.value;
      var t1 := t.(amazonProducts := t.amazonProducts + [NewAmazonProduct(aid, asin, c, image)]);
      AddAmazonValid(t, asin, c, image);
      LinkMatchValid(t1, pid, aid);
    }
  }

  lemma {:induction false} InsertCandidatesValid(t: Tables, pid: nat, cs: seq<Candidate>)
    requires Valid(t) && 1 <= pid <= |t.products|
    ensures Valid(InsertCandidates(t, pid, cs).0)
    decreases |cs|
  {
    if cs != [] {
      var r := InsertCandidate(t, pid, cs[0]);
      if r.Some? {
        InsertCandidateValid(t, pid, cs[0]);
        InsertCandidatesValid(r.value, pid, cs[1..]);
      }
    }
  }

  /** Storing a listing keeps every table constraint. */
  lemma InsertDataValid(t: Tables, listing: Listing, cs: seq<Candidate>)
    requires Valid(t)
    ensures Valid(InsertData(t, listing, cs).0)
  {
    EnsureProductValid(t, listing);
    var (t1, pid) := EnsureProduct(t, listing);
    InsertCandidatesValid(t1, pid, cs);
  }

  // ---------------------------------------------------------------------
  // New rows get the defaults of the schema

  /** Every row of `t2` past the rows of `t1` has the values the insert path
      leaves at their defaults: products from the scraper with no price and
      not in stock, Amazon products with no buy-box count and no sellers. */
  predicate NewRowsDefaulted(t1: Tables, t2: Tables) {
    && (forall i :: |t1.products| <= i < |t2.products| ==>
          t2.products[i].source == WalgreensSource && t2.products[i].lastSeenPrice.None? && !t2.products[i].inStock)
    && (forall i :: |t1.amazonProducts| <= i < |t2.amazonProducts| ==>
          t2.amazonProducts[i].amazonBuyBoxCount.None? && t2.amazonProducts[i].currentSellers.None?)
  }

  lemma InsertCandidateDefaults(t: Tables, pid: nat, c: Candidate)
    requires InsertCandidate(t, pid, c).Some?
    ensures NewRowsDefaulted(t, InsertCandidate(t, pid, c).value)
  {
  }

  lemma {:induction false} InsertCandidatesDefaults(t: Tables, pid: nat, cs: seq<Candidate>)
    ensures NewRowsDefaulted(t, InsertCandidates(t, pid, cs).0)
    decreases |cs|
  {
    if cs != [] {
      var r := InsertCandidate(t, pid, cs[0]);
      if r.Some? {
        InsertCandidateDefaults(t, pid, cs[0]);
        InsertCandidatesDefaults(r.value, pid, cs[1..]);
      }
    }
  }

  lemma InsertDataDefaults(t: Tables, listing: Listing, cs: seq<Candidate>)
    ensures NewRowsDefaulted(t, InsertData(t, listing, cs).0)
  {
    var (t1, pid) := EnsureProduct(t, listing);
    InsertCandidatesDefaults(t1, pid, cs);
  }

  // ---------------------------------------------------------------------
  // Replaying a call changes nothing

  /** What is stored stays stored as the tables grow. */
  lemma StoredExtended(t: Tables, u: Tables, pid: nat, c: Candidate)
    requires Stored(t, pid, c) && Extends(t, u)
    ensures Stored(u, pid, c)
  {
    var asin := Asin.ExtractAsin(c.url).value;
    var a1 := Asins(t.amazonProducts);
    KeysExtended(t, u);
    FindFirstExtended(a1, Asins(u.amazonProducts)[|a1|..], asin);
    var i := FindFirst(a1, asin).value;
    assert u.amazonProducts[i] == t.amazonProducts[i];
    var p1 := Pairs(t.matches);
    assert Pairs(u.matches)[..|p1|] == p1;
  }

  /** A candidate that is stored already is a no-op. */
  lemma InsertCandidateStored(t: Tables, pid: nat, c: Candidate)
    requires Stored(t, pid, c)
    ensures InsertCandidate(t, pid, c) == Some(t)
  {
  }

  /** A successful insert leaves the candidate stored. */
  lemma InsertCandidateStores(t: Tables, pid: nat, c: Candidate)
    requires InsertCandidate(t, pid, c).Some?
    ensures Stored(InsertCandidate(t, pid, c).value, pid, c)
  {
    var asin := Asin.ExtractAsin(c.url).value;
    var keys := Asins(t.amazonProducts);
    if asin !in keys {
      var aid := |t.amazonProducts| + 1;
      var image := c.imageUrl.value;
      var row := NewAmazonProduct(aid, asin, c, image);
      assert Asins(t.amazonProducts + [row]) == keys + [asin];
      FindFirstAppended(keys, asin);
    }
  }

  /** Once a candidate loop has completed, running it again on the resulting
      tables, or on any extension of them, inserts nothing. */
  lemma {:induction false} ReplayCompleted(t: Tables, u: Tables, pid: nat, cs: seq<Candidate>)
    requires InsertCandidates(t, pid, cs).1 == Completed
    requires Extends(InsertCandidates(t, pid, cs).0, u)
    ensures InsertCandidates(u, pid, cs) == (u, Completed)
    decreases |cs|
  {
    if cs != [] {
      var t1 := InsertCandidate(t, pid, cs[0]).value;
      InsertCandidateStores(t, pid, cs[0]);
      ExtendsTransitive(t1, InsertCandidates(t, pid, cs).0, u);
      StoredExtended(t1, u, pid, cs[0]);
      InsertCandidateStored(u, pid, cs[0]);
      ReplayCompleted(t1, u, pid, cs[1..]);
    }
  }

  /** A loop that stopped at a failing candidate stops at the same one, with
      nothing new inserted, when run again on its result. */
  lemma {:induction false} ReplayRolledBack(t: Tables, pid: nat, cs: seq<Candidate>)
    requires InsertCandidates(t, pid, cs).1.RolledBack?
    ensures var r := InsertCandidates(t, pid, cs);
      InsertCandidates(r.0, pid, cs) == r
    decreases |cs|
  {
    var r := InsertCandidates(t, pid, cs);
    var first := InsertCandidate(t, pid, cs[0]);
    if first.Some? {
      var t1 := first.value;
      InsertCandidateStores(t, pid, cs[0]);
      StoredExtended(t1, r.0, pid, cs[0]);
      InsertCandidateStored(r.0, pid, cs[0]);
      ReplayRolledBack(t1, pid, cs[1..]);
    }
  }

  lemma InsertCandidatesReplay(t: Tables, pid: nat, cs: seq<Candidate>)
    ensures var r := InsertCandidates(t, pid, cs);
      InsertCandidates(r.0, pid, cs) == r
  {
    var r := InsertCandidates(t, pid, cs);
    if r.1 == Completed {
      ReplayCompleted(t, r.0, pid, cs);
    } else {
      ReplayRolledBack(t, pid, cs);
    }
  }

  /** The product looked up again after the candidate loop is the same row. */
  lemma EnsureProductAgain(t: Tables, u: Tables, listing: Listing)
    requires Extends(EnsureProduct(t, listing).0, u)
    ensures EnsureProduct(u, listing) == (u, EnsureProduct(t, listing).1)
  {
    var (t1, pid) := EnsureProduct(t, listing);
    var urls := ProductUrls(t1.products);
    assert listing.productUrl in urls by {
      if listing.productUrl !in ProductUrls(t.products) {
        assert urls[|t.products|] == listing.productUrl;
      }
    }
    KeysExtended(t1, u);
    FindFirstExtended(urls, ProductUrls(u.products)[|urls|..], listing.productUrl);
    var i := FindFirst(urls, listing.productUrl).value;
    assert u.products[i] == t1.products[i];
    if listing.productUrl !in ProductUrls(t.products) {
      FindFirstAppended(ProductUrls(t.products), listing.productUrl);
      assert urls == ProductUrls(t.products) + [listing.productUrl];
    }
  }

  /** Storing the same listing with the same candidates twice leaves the
      tables as the first call left them, and ends the same way. */
  lemma InsertDataIdempotent(t: Tables, listing: Listing, cs: seq<Candidate>)
    ensures var r := InsertData(t, listing, cs);
      InsertData(r.0, listing, cs) == r
  {
    var (t1, pid) := EnsureProduct(t, listing);
    var r := InsertCandidates(t1, pid, cs);
    EnsureProductAgain(t, r.0, listing);
    InsertCandidatesReplay(t1, pid, cs);
  }

  // ---------------------------------------------------------------------
  // Duplicate candidates and the rollback path

  /** The loop over `a + b` is the loop over `a`, then, if that completed,
      the loop over `b` on its result. */
  lemma {:induction false} InsertCandidatesAppend(t: Tables, pid: nat, a: seq<Candidate>, b: seq<Candidate>)
    ensures var (t1, o) := InsertCandidates(t, pid, a);
      InsertCandidates(t, pid, a + b) ==
        if o.Completed? then ShiftBy(InsertCandidates(t1, pid, b), |a|) else (t1, o)
    decreases |a|
  {
    if a == [] {
      assert a + b == b;
    } else {
      assert (a + b)[0] == a[0] && (a + b)[1..] == a[1..] + b;
      var first := InsertCandidate(t, pid, a[0]);
      if first.Some? {
        InsertCandidatesAppend(first.value, pid, a[1..], b);
      }
    }
  }

  function ShiftBy(r: (Tables, Outcome), n: nat): (Tables, Outcome) {
    match r.1
    case Completed => r
    case RolledBack(k) => (r.0, RolledBack(k + n))
  }

  /** Passing every candidate twice stores exactly what passing them once
      stores. */
  lemma InsertCandidatesTwice(t: Tables, pid: nat, cs: seq<Candidate>)
    ensures InsertCandidates(t, pid, cs + cs) == InsertCandidates(t, pid, cs)
  {
    var (t1, o) := InsertCandidates(t, pid, cs);
    InsertCandidatesAppend(t, pid, cs, cs);
    if o.Completed? {
      ReplayCompleted(t, t1, pid, cs);
    }
  }

  lemma InsertCandidatesCons(t: Tables, pid: nat, cs: seq<Candidate>)
    requires cs != [] && InsertCandidate(t, pid, cs[0]).Some?
    ensures var rest := InsertCandidates(InsertCandidate(t, pid, cs[0]).value, pid, cs[1..]);
      InsertCandidates(t, pid, cs) == (rest.0, Shift(rest.1))
  {
  }

  /** A loop that stopped at candidate `k` leaves exactly what the first `k`
      candidates committed, and candidate `k` is one whose insert raises. */
  lemma {:induction false} RolledBackKeepsCommitted(t: Tables, pid: nat, cs: seq<Candidate>)
    requires InsertCandidates(t, pid, cs).1.RolledBack?
    ensures var r := InsertCandidates(t, pid, cs);
      && InsertCandidates(t, pid, cs[..r.1.at]) == (r.0, Completed)
      && InsertCandidate(r.0, pid, cs[r.1.at]).None?
    decreases |cs|
  {
    var first := InsertCandidate(t, pid, cs[0]);
    if first.Some? {
      var rest := InsertCandidates(first.value, pid, cs[1..]);
      InsertCandidatesCons(t, pid, cs);
      RolledBackKeepsCommitted(first.value, pid, cs[1..]);
      var k := rest.1.at + 1;
      assert cs[..k][0] == cs[0] && cs[..k][1..] == cs[1..][..k - 1];
      InsertCandidatesCons(t, pid, cs[..k]);
    } else {
      assert cs[..0] == [];
    }
  }

  /** After a completed loop every candidate is stored and matched to the
      listing's product. */
  lemma {:induction false} CompletedStoresAll(t: Tables, pid: nat, cs: seq<Candidate>)
    requires InsertCandidates(t, pid, cs).1 == Completed
    ensures forall i :: 0 <= i < |cs| ==> Stored(InsertCandidates(t, pid, cs).0, pid, cs[i])
    decreases |cs|
  {
    if cs != [] {
      var t1 := InsertCandidate(t, pid, cs[0]).value;
      var u := InsertCandidates(t, pid, cs).0;
      InsertCandidateStores(t, pid, cs[0]);
      StoredExtended(t1, u, pid, cs[0]);
      CompletedStoresAll(t1, pid, cs[1..]);
      forall i | 1 <= i < |cs| ensures Stored(u, pid, cs[i]) {
        assert cs[i] == cs[1..][i - 1];
      }
    }
  }

  // ---------------------------------------------------------------------
  // The tables as a mutable store

  class Store {
    var products: seq<Product>
    var amazonProducts: seq<AmazonProduct>
    var matches: seq<ProductMatch>

    function State(): Tables
      reads this
    {
      Tables(products, amazonProducts, matches)
    }

    constructor()
      ensures State() == Empty
    {
      products := [];
      amazonProducts := [];
      matches := [];
    }

    /** Is a product with this URL stored? */
    method HasProduct(url: string) returns (found: bool)
      ensures found <==> url in ProductUrls(State().products)
    {
      found := FindFirst(ProductUrls(products), url).Some?;
    }

    /** The product lookup and insert of `insert_data_to_db`. */
    method FindOrAddProduct(listing: Listing) returns (pid: nat)
      modifies this
      ensures (State(), pid) == EnsureProduct(old(State()), listing)
    {
      var found := FindFirst(ProductUrls(products), listing.productUrl);
      if found.Some? {
        pid := products[found.value].id;
      } else {
        pid := |products| + 1;
        products := products + [NewProduct(pid, listing)];
      }
    }

    /** One pass of the candidate loop; `false` where the insert raises and
        nothing changes. */
    method AddCandidate(pid: nat, c: Candidate) returns (ok: bool)
      modifies this
      ensures var r := InsertCandidate(old(State()), pid, c);
        ok == r.Some? && State() == (if ok then r.value else old(State()))
    {
      var asin := Asin.ExtractAsin(c.url);
      if asin.None? {
        return false;
      }
      var aid: nat;
      var found := FindFirst(Asins(amazonProducts), asin.value);
      if found.Some? {
        aid := amazonProducts[found.value].id;
      } else {
        if c.imageUrl.None? {
          return false;
        }
        aid := |amazonProducts| + 1;
        amazonProducts := amazonProducts + [NewAmazonProduct(aid, asin.value, c, c.imageUrl.value)];
      }
      if (pid, aid) !in Pairs(matches) {
        matches := matches + [ProductMatch(|matches| + 1, pid, aid)];
      }
      ok := true;
    }

    /** `insert_data_to_db(listing, cs)`. */
    method InsertDataToDb(listing: Listing, cs: seq<Candidate>) returns (outcome: Outcome)
      modifies this
      ensures (State(), outcome) == InsertData(old(State()), listing, cs)
      ensures Valid(old(State())) ==> Valid(State())
    {
      if Valid(State()) {
        InsertDataValid(State(), listing, cs);
      }
      var pid := FindOrAddProduct(listing);
      ghost var start := State();
      var i := 0;
      outcome := Completed;
      while i < |cs|
        invariant 0 <= i <= |cs|
        invariant ShiftBy(InsertCandidates(State(), pid, cs[i..]), i) == InsertCandidates(start, pid, cs)
      {
        ghost var before := State();
        LoopStep(before, pid, cs, i);
        var ok := AddCandidate(pid, cs[i]);
        if !ok {
          outcome := RolledBack(i);
          return;
        }
        ShiftByShift(InsertCandidates(State(), pid, cs[i + 1..]), i);
        i := i + 1;
      }
      assert cs[i..] == [];
    }
  }

  lemma LoopStep(t: Tables, pid: nat, cs: seq<Candidate>, i: nat)
    requires i < |cs|
    ensures InsertCandidates(t, pid, cs[i..]) ==
      match InsertCandidate(t, pid, cs[i])
      case None => (t, RolledBack(0))
      case Some(t1) => (InsertCandidates(t1, pid, cs[i + 1..]).0, Shift(InsertCandidates(t1, pid, cs[i + 1..]).1))
  {
    assert cs[i..][0] == cs[i] && cs[i..][1..] == cs[i + 1..];
  }

  lemma ShiftByShift(r: (Tables, Outcome), i: nat)
    ensures ShiftBy((r.0, Shift(r.1)), i) == ShiftBy(r, i + 1)
  {
  }
}
