/**
 * The three tables of app/models.py and the constraints they declare:
 * `products` keyed by a unique `product_url`, `amazon_products` keyed by a
 * unique `asin` with a unique `product_url`, and `product_matches` with a
 * unique (product, Amazon product) pair whose columns reference rows of the
 * two other tables. Ids are the autoincrement keys, handed out in insertion
 * order; timestamps are left out.
 */
module Models {
  import opened Wrappers
  import Asin

  const WalgreensSource: string := "walgreens"

  datatype Product = Product(
    id: nat,
    title: string,
    imageUrls: seq<string>,
    productUrl: string,
    source: string,
    lastSeenPrice: Option<string>,
    inStock: bool)

  datatype AmazonProduct = AmazonProduct(
    id: nat,
    asin: string,
    title: string,
    productUrl: string,
    imageUrl: string,
    amazonBuyBoxCount: Option<int>,
    currentSellers: Option<int>)

  datatype ProductMatch = ProductMatch(id: nat, productId: nat, amazonProductId: nat)

  datatype Tables = Tables(
    products: seq<Product>,
    amazonProducts: seq<AmazonProduct>,
    matches: seq<ProductMatch>)

  const Empty: Tables := Tables([], [], [])

  // ---------------------------------------------------------------------
  // Key columns and lookups

  function ProductUrls(ps: seq<Product>): (r: seq<string>)
    ensures |r| == |ps| && forall i :: 0 <= i < |ps| ==> r[i] == ps[i].productUrl
  {
    seq(|ps|, i requires 0 <= i < |ps| => ps[i].productUrl)
  }

  function Asins(rows: seq<AmazonProduct>): (r: seq<string>)
    ensures |r| == |rows| && forall i :: 0 <= i < |rows| ==> r[i] == rows[i].asin
  {
    seq(|rows|, i requires 0 <= i < |rows| => rows[i].asin)
  }

  function Pairs(ms: seq<ProductMatch>): (r: seq<(nat, nat)>)
    ensures |r| == |ms| && forall i :: 0 <= i < |ms| ==> r[i] == (ms[i].productId, ms[i].amazonProductId)
  {
    seq(|ms|, i requires 0 <= i < |ms| => (ms[i].productId, ms[i].amazonProductId))
  }

  /** `query(...).filter_by(key=k).first()`: the first row whose key is `k`. */
  function FindFirst<K(==)>(keys: seq<K>, k: K): (r: Option<nat>)
    ensures r.None? <==> k !in keys
    ensures r.Some? ==> r.value < |keys| && keys[r.value] == k && k !in keys[..r.value]
  {
    if keys == [] then None
    else
      var n := |keys| - 1;
      var r := FindFirst(keys[..n], k);
      assert keys == keys[..n] + [keys[n]];
      if r.Some? then
        assert keys[..n][..r.value] == keys[..r.value];
        r
      else if keys[n] == k then Some(n)
      else None
  }

  /** A row found in a table is still the one found after more rows are added. */
  lemma {:induction false} FindFirstExtended<K>(keys: seq<K>, more: seq<K>, k: K)
    requires k in keys
    ensures FindFirst(keys + more, k) == FindFirst(keys, k)
    decreases |more|
  {
    if more == [] {
      assert keys + more == keys;
    } else {
      var all := keys + more;
      var n := |all| - 1;
      assert all[..n] == keys + more[..|more| - 1];
      FindFirstExtended(keys, more[..|more| - 1], k);
    }
  }

  /** A key appended to a table that lacked it is found in the new last row. */
  lemma FindFirstAppended<K>(keys: seq<K>, k: K)
    requires k !in keys
    ensures FindFirst(keys + [k], k) == Some(|keys|)
  {
    assert (keys + [k])[..|keys|] == keys;
  }

  predicate Unique<K(==)>(keys: seq<K>) {
    forall i, j :: 0 <= i < j < |keys| ==> keys[i] != keys[j]
  }

  lemma UniqueAppend<K>(keys: seq<K>, k: K)
    requires Unique(keys) && k !in keys
    ensures Unique(keys + [k])
  {
    var all := keys + [k];
    forall i, j | 0 <= i < j < |all| ensures all[i] != all[j] {
      if j == |keys| {
        assert all[i] == keys[i];
      }
    }
  }

  // ---------------------------------------------------------------------
  // Table constraints

  /** Products: ids in insertion order, `product_url` unique
      (app/models.py:10, 13). */
  predicate ProductsValid(ps: seq<Product>) {
    && (forall i :: 0 <= i < |ps| ==> ps[i].id == i + 1)
    && Unique(ProductUrls(ps))
  }

  /** Amazon products: ids in insertion order, `asin` and `product_url`
      unique (app/models.py:30-33), and every `asin` the one the row's URL
      carries, as the insert path computes it. */
  predicate AmazonValid(rows: seq<AmazonProduct>) {
    && (forall i :: 0 <= i < |rows| ==> rows[i].id == i + 1)
    && Unique(Asins(rows))
    && (forall i, j :: 0 <= i < j < |rows| ==> rows[i].productUrl != rows[j].productUrl)
    && (forall i :: 0 <= i < |rows| ==> Asin.ExtractAsin(rows[i].productUrl) == Some(rows[i].asin))
  }

  /** Matches: ids in insertion order, the pair unique, and both columns
      referencing existing rows (app/models.py:47-53). */
  predicate MatchesValid(ms: seq<ProductMatch>, productCount: nat, amazonCount: nat) {
    && (forall i :: 0 <= i < |ms| ==> ms[i].id == i + 1)
    && Unique(Pairs(ms))
    && (forall i :: 0 <= i < |ms| ==> 1 <= ms[i].productId <= productCount)
    && (forall i :: 0 <= i < |ms| ==> 1 <= ms[i].amazonProductId <= amazonCount)
  }

  predicate Valid(t: Tables) {
    && ProductsValid(t.products)
    && AmazonValid(t.amazonProducts)
    && MatchesValid(t.matches, |t.products|, |t.amazonProducts|)
  }

  /** `t2` holds every row of `t1` unchanged, and possibly more after them. */
  predicate Extends(t1: Tables, t2: Tables) {
    && t1.products <= t2.products
    && t1.amazonProducts <= t2.amazonProducts
    && t1.matches <= t2.matches
  }

  lemma ExtendsTransitive(t1: Tables, t2: Tables, t3: Tables)
    requires Extends(t1, t2) && Extends(t2, t3)
    ensures Extends(t1, t3)
  {
  }

  lemma EmptyValid()
    ensures Valid(Empty)
  {
  }

  /** Growing a table keeps its key column a prefix of the new one. */
  lemma KeysExtended(t1: Tables, t2: Tables)
    requires Extends(t1, t2)
    ensures ProductUrls(t2.products) == ProductUrls(t1.products) + ProductUrls(t2.products)[|t1.products|..]
    ensures Asins(t2.amazonProducts) == Asins(t1.amazonProducts) + Asins(t2.amazonProducts)[|t1.amazonProducts|..]
    ensures Pairs(t2.matches) == Pairs(t1.matches) + Pairs(t2.matches)[|t1.matches|..]
  {
    var u1 := ProductUrls(t1.products);
    var u2 := ProductUrls(t2.products);
    assert u2 == u1 + u2[|u1|..] by {
      forall i | 0 <= i < |u1| ensures u2[i] == u1[i] {
        assert t2.products[i] == t1.products[i];
      }
    }
    var a1 := Asins(t1.amazonProducts);
    var a2 := Asins(t2.amazonProducts);
    assert a2 == a1 + a2[|a1|..] by {
      forall i | 0 <= i < |a1| ensures a2[i] == a1[i] {
        assert t2.amazonProducts[i] == t1.amazonProducts[i];
      }
    }
    var p1 := Pairs(t1.matches);
    var p2 := Pairs(t2.matches);
    assert p2 == p1 + p2[|p1|..] by {
      forall i | 0 <= i < |p1| ensures p2[i] == p1[i] {
        assert t2.matches[i] == t1.matches[i];
      }
    }
  }
}
