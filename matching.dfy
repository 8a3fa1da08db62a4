/**
 * `find_matching_amazon_images` (main.py): ask the image-matching model
 * which search results show the listing's product. The request carries the
 * listing's first image and then every result's image, in result order, so
 * that image `k` of the request is result `k - 1`. The model itself is a
 * parameter: it either answers with text or raises.
 */
module Matching {
  import opened Wrappers
  import opened ListingFields
  import opened Catalog
  import opened OracleReply
  import opened PyStr

  const MatchPrompt: string := "In the first image i have a product, check if the produt is present in any othe other images make sure is the same product with teh same colors and details. return just an array and nothing else with the list of integer indexes of images that match the first image."

  /** The one user message sent: the prompt and the image URLs, the
      reference image first. A result without an image contributes `None`. */
  datatype OracleRequest = OracleRequest(prompt: string, images: seq<Option<string>>)

  /** The image of every result, in result order. */
  function CandidateImages(results: seq<Candidate>): (r: seq<Option<string>>)
    ensures |r| == |results| && forall k :: 0 <= k < |results| ==> r[k] == results[k].imageUrl
  {
    seq(|results|, k requires 0 <= k < |results| => results[k].imageUrl)
  }

  /** The request for a listing; none when the listing has no image, since
      then the model is not asked at all. */
  function OracleRequestFor(listing: Listing, results: seq<Candidate>): (r: Option<OracleRequest>)
    ensures r.None? <==> listing.imageUrls == []
    ensures r.Some? ==> r.value.prompt == MatchPrompt && |r.value.images| == |results| + 1
    ensures r.Some? ==> r.value.images[0] == Some(listing.imageUrls[0])
    ensures r.Some? ==> forall k :: 1 <= k <= |results| ==> r.value.images[k] == results[k - 1].imageUrl
  {
    if listing.imageUrls == [] then None
    else Some(OracleRequest(MatchPrompt, [Some(listing.imageUrls[0])] + CandidateImages(results)))
  }

  /** The request as the source assembles it: the reference image, then one
      image per result appended in a loop. */
  method BuildOracleRequest(listing: Listing, results: seq<Candidate>) returns (req: Option<OracleRequest>)
    ensures req == OracleRequestFor(listing, results)
  {
    if listing.imageUrls == [] {
      return None;
    }
    var images := [Some(listing.imageUrls[0])];
    var i := 0;
    while i < |results|
      invariant 0 <= i <= |results|
      invariant images == [Some(listing.imageUrls[0])] + CandidateImages(results[..i])
    {
      assert CandidateImages(results[..i + 1]) == CandidateImages(results[..i]) + [results[i].imageUrl];
      images := images + [results[i].imageUrl];
      i := i + 1;
    }
    assert results[..i] == results;
    req := Some(OracleRequest(MatchPrompt, images));
  }

  /** The indices the model picks: `Some([])` without asking it when the
      listing has no image, `None` when it raises, and otherwise its reply
      decoded, a reply that is not JSON giving no index. */
  function MatchingIndexes(listing: Listing, results: seq<Candidate>, oracle: OracleRequest -> Option<string>): Option<seq<int>> {
    match OracleRequestFor(listing, results)
    case None => Some([])
    case Some(req) =>
      match oracle(req)
      case None => None
      case Some(reply) => Some(DecodeReply(reply))
  }

  method FindMatchingAmazonImages(listing: Listing, results: seq<Candidate>, oracle: OracleRequest -> Option<string>)
    returns (indexes: Option<seq<int>>)
    ensures indexes == MatchingIndexes(listing, results, oracle)
  {
    var req := BuildOracleRequest(listing, results);
    if req.None? {
      return Some([]);
    }
    var reply := oracle(req.value);
    if reply.None? {
      return None;
    }
    indexes := Some(DecodeReply(reply.value));
  }

  /** A listing without images yields no index, whatever the model would say. */
  lemma NoImagesNoIndexes(listing: Listing, results: seq<Candidate>, oracle: OracleRequest -> Option<string>)
    requires listing.imageUrls == []
    ensures MatchingIndexes(listing, results, oracle) == Some([])
  {
  }

  /** A reply that is the compact JSON array of some indices, fenced and
      tagged as the model tends to write it, gives back those indices. */
  lemma FencedReplyIndexes(listing: Listing, results: seq<Candidate>, oracle: OracleRequest -> Option<string>,
                           pre: string, gap1: string, xs: seq<int>, gap2: string, post: string)
    requires listing.imageUrls != []
    requires AllSpace(pre) && AllSpace(gap1) && AllSpace(gap2) && AllSpace(post)
    requires oracle(OracleRequestFor(listing, results).value)
      == Some(pre + Fence + JsonTag + gap1 + IndexListToJson(xs) + gap2 + Fence + post)
    ensures MatchingIndexes(listing, results, oracle) == Some(xs)
  {
    var body := IndexListToJson(xs);
    JsonStripped(xs);
    NormalizeFenced(pre, JsonTag, gap1, body, gap2, post);
    ParseIndexListOf(xs);
  }

  lemma JsonStripped(xs: seq<int>)
    ensures IsStripped(IndexListToJson(xs))
  {
    var s := IndexListToJson(xs);
    assert s[0] == '[' && s[|s| - 1] == ']';
  }

  /** A reply whose normalised text is not the JSON text of an integer array
      gives no index and does not raise. */
  lemma NotJsonReplyIndexes(listing: Listing, results: seq<Candidate>, oracle: OracleRequest -> Option<string>, reply: string)
    requires listing.imageUrls != []
    requires oracle(OracleRequestFor(listing, results).value) == Some(reply)
    ensures (forall xs :: !IsJsonIntArray(Normalize(reply), xs)) ==> MatchingIndexes(listing, results, oracle) == Some([])
  {
    DecodeNotJson(reply);
  }

  /** A reply whose normalised text is the JSON text of `xs` gives `xs`. */
  lemma JsonReplyIndexes(listing: Listing, results: seq<Candidate>, oracle: OracleRequest -> Option<string>, reply: string, xs: seq<int>)
    requires listing.imageUrls != []
    requires oracle(OracleRequestFor(listing, results).value) == Some(reply)
    ensures IsJsonIntArray(Normalize(reply), xs) ==> MatchingIndexes(listing, results, oracle) == Some(xs)
  {
    DecodeJson(reply, xs);
  }
}
