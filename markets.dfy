/** Market discovery against the venue's Gamma API (`getTrendingMarkets` and
    `getMarket` in `src/services/polymarket.ts`): which listed markets the bot
    offers for trading, and how a market is looked up by its condition id. */
module Markets {
  import opened Common

  /** One element of the Gamma `/markets` response. The three JSON-encoded
      list fields are given already parsed; `None` stands for a missing or
      empty field. A missing or empty `volume`/`liquidity` is `None` too. */
  datatype RawMarket = RawMarket(
    id: string,
    question: string,
    conditionId: string,
    slug: string,
    outcomes: Option<seq<string>>,
    outcomePrices: Option<seq<string>>,
    volume: Option<string>,
    liquidity: Option<string>,
    clobTokenIds: Option<seq<string>>,
    active: bool,
    closed: bool,
    enableOrderBook: bool)

  /** The market as the bot hands it on. */
  datatype GammaMarket = GammaMarket(
    id: string,
    question: string,
    conditionId: string,
    slug: string,
    outcomes: seq<string>,
    outcomePrices: seq<string>,
    volume: string,
    liquidity: string,
    clobTokenIds: seq<string>,
    active: bool,
    closed: bool)

  /** Markets are fetched in pages of 50, at most 10 pages per call. */
  const BATCH_SIZE: nat := 50
  const MAX_ITERATIONS: nat := 10

  function ListOr(v: Option<seq<string>>, default: seq<string>): seq<string> {
    if v.Some? then v.value else default
  }

  /** `s || '0'`: a missing or empty string becomes "0". */
  function TextOr(v: Option<string>, default: string): (s: string)
    ensures v.Some? && v.value != "" ==> s == v.value
    ensures v.None? || v.value == "" ==> s == default
  {
    if v.Some? && v.value != "" then v.value else default
  }

  function TokenIds(m: RawMarket): seq<string> {
    ListOr(m.clobTokenIds, [])
  }

  /** The defaults applied when building a `GammaMarket` from a raw entry. */
  function ToGamma(m: RawMarket): (g: GammaMarket)
    ensures g.conditionId == m.conditionId && g.id == m.id && g.closed == m.closed
    ensures g.question == m.question && g.slug == m.slug && g.active == m.active
    ensures g.clobTokenIds == TokenIds(m)
    // present lists are copied; missing ones get the two-outcome defaults
    ensures m.outcomes.Some? ==> g.outcomes == m.outcomes.value
    ensures m.outcomes.None? ==> g.outcomes == ["Yes", "No"]
    ensures m.outcomePrices.Some? ==> g.outcomePrices == m.outcomePrices.value
    ensures m.outcomePrices.None? ==> g.outcomePrices == ["0.5", "0.5"]
    // a present, non-empty volume or liquidity is copied; otherwise it reads "0"
    ensures m.volume.Some? && m.volume.value != "" ==> g.volume == m.volume.value
    ensures m.volume.None? || m.volume.value == "" ==> g.volume == "0"
    ensures m.liquidity.Some? && m.liquidity.value != "" ==> g.liquidity == m.liquidity.value
    ensures m.liquidity.None? || m.liquidity.value == "" ==> g.liquidity == "0"
  {
    GammaMarket(m.id, m.question, m.conditionId, m.slug,
                ListOr(m.outcomes, ["Yes", "No"]), ListOr(m.outcomePrices, ["0.5", "0.5"]),
                TextOr(m.volume, "0"), TextOr(m.liquidity, "0"),
                TokenIds(m), m.active, m.closed)
  }

  /** A listed market the bot offers: order book enabled, not closed, and at
      least two outcome tokens on the order book. */
  predicate Tradeable(m: RawMarket) {
    m.enableOrderBook && !m.closed && |TokenIds(m)| >= 2
  }

  /** The tradeable markets of a listing, converted, in listing order. */
  function Tradeables(ms: seq<RawMarket>): (r: seq<GammaMarket>)
    ensures |r| <= |ms|
  {
    if ms == [] then []
    else (if Tradeable(ms[0]) then [ToGamma(ms[0])] else []) + Tradeables(ms[1..])
  }

  /** The indices, from `from` on, of the tradeable entries, increasing: an
      independent account of which entries `Tradeables` keeps and in which order. */
  function TradeableIndices(ms: seq<RawMarket>, from: nat): (idx: seq<nat>)
    requires from <= |ms|
    ensures |idx| == |Tradeables(ms[from..])|
    ensures forall k :: 0 <= k < |idx| ==> from <= idx[k] < |ms| && Tradeable(ms[idx[k]])
    ensures forall k :: 0 <= k < |idx| ==> Tradeables(ms[from..])[k] == ToGamma(ms[idx[k]])
    ensures forall k :: 0 <= k < |idx| - 1 ==> idx[k] < idx[k + 1]
    ensures forall j :: from <= j < |ms| && Tradeable(ms[j]) ==> j in idx
    decreases |ms| - from
  {
    if from == |ms| then []
    else
      assert ms[from..][1..] == ms[from + 1..];
      var rest := TradeableIndices(ms, from + 1);
      assert Tradeables(ms[from..])
             == (if Tradeable(ms[from]) then [ToGamma(ms[from])] else []) + Tradeables(ms[from + 1..]);
      IndicesStep(ms, from, rest, Tradeables(ms[from + 1..]));
      (if Tradeable(ms[from]) then [from] else []) + rest
  }

  /** One step of `TradeableIndices`: the entry at `from` goes in front of the
      indices of the entries after it when it is tradeable. */
  lemma IndicesStep(ms: seq<RawMarket>, from: nat, rest: seq<nat>, kept: seq<GammaMarket>)
    requires from < |ms| && |rest| == |kept|
    requires forall k :: 0 <= k < |rest| ==> from < rest[k] < |ms| && Tradeable(ms[rest[k]])
    requires forall k :: 0 <= k < |rest| ==> kept[k] == ToGamma(ms[rest[k]])
    requires forall k :: 0 <= k < |rest| - 1 ==> rest[k] < rest[k + 1]
    requires forall j :: from < j < |ms| && Tradeable(ms[j]) ==> j in rest
    ensures var idx := (if Tradeable(ms[from]) then [from] else []) + rest;
            var all := (if Tradeable(ms[from]) then [ToGamma(ms[from])] else []) + kept;
            && |idx| == |all|
            && (forall k :: 0 <= k < |idx| ==> from <= idx[k] < |ms| && Tradeable(ms[idx[k]]))
            && (forall k :: 0 <= k < |idx| ==> all[k] == ToGamma(ms[idx[k]]))
            && (forall k :: 0 <= k < |idx| - 1 ==> idx[k] < idx[k + 1])
            && (forall j :: from <= j < |ms| && Tradeable(ms[j]) ==> j in idx)
  {
    if Tradeable(ms[from]) {
      IndicesConsOrdered(ms, from, rest, kept);
      IndicesConsComplete(ms, from, rest);
    } else {
      assert [] + rest == rest;
      assert [] + kept == kept;
    }
  }

  /** Putting a tradeable entry in front keeps the indices increasing and
      matched with the converted markets. */
  lemma IndicesConsOrdered(ms: seq<RawMarket>, from: nat, rest: seq<nat>, kept: seq<GammaMarket>)
    requires from < |ms| && Tradeable(ms[from]) && |rest| == |kept|
    requires forall k :: 0 <= k < |rest| ==> from < rest[k] < |ms| && Tradeable(ms[rest[k]])
    requires forall k :: 0 <= k < |rest| ==> kept[k] == ToGamma(ms[rest[k]])
    requires forall k :: 0 <= k < |rest| - 1 ==> rest[k] < rest[k + 1]
    ensures var idx := [from] + rest;
            var all := [ToGamma(ms[from])] + kept;
            && (forall k :: 0 <= k < |idx| ==> from <= idx[k] < |ms| && Tradeable(ms[idx[k]]))
            && (forall k :: 0 <= k < |idx| ==> all[k] == ToGamma(ms[idx[k]]))
            && (forall k :: 0 <= k < |idx| - 1 ==> idx[k] < idx[k + 1])
  {
    var idx := [from] + rest;
    var all := [ToGamma(ms[from])] + kept;
    forall k | 1 <= k < |idx|
      ensures idx[k] == rest[k - 1] && all[k] == kept[k - 1]
    {
    }
  }

  /** Putting a tradeable entry in front keeps every tradeable entry from it on listed. */
  lemma IndicesConsComplete(ms: seq<RawMarket>, from: nat, rest: seq<nat>)
    requires from < |ms| && Tradeable(ms[from])
    requires forall j :: from < j < |ms| && Tradeable(ms[j]) ==> j in rest
    ensures forall j :: from <= j < |ms| && Tradeable(ms[j]) ==> j in [from] + rest
  {
    forall j | from <= j < |ms| && Tradeable(ms[j])
      ensures j in [from] + rest
    {
      if j > from {
        assert j in rest;
      }
    }
  }

  /** Filtering distributes over concatenation: pages can be filtered one at a time. */
  lemma {:induction false} TradeablesAppend(a: seq<RawMarket>, b: seq<RawMarket>)
    ensures Tradeables(a + b) == Tradeables(a) + Tradeables(b)
  {
    if a == [] {
      assert a + b == b;
    } else {
      assert (a + b)[0] == a[0];
      assert (a + b)[1..] == a[1..] + b;
      TradeablesAppend(a[1..], b);
    }
  }

  /** The first `n` elements, or all of them when there are fewer. */
  function Take<T>(s: seq<T>, n: int): (r: seq<T>)
    ensures |r| <= |s| && r == s[..|r|]
    ensures |r| == if n <= 0 then 0 else if n < |s| then n else |s|
  {
    if n <= 0 then [] else if n < |s| then s[..n] else s
  }

  // ---------------------------------------------------------------------------
  // getTrendingMarkets
  // ---------------------------------------------------------------------------

  /** The markets of the first `n` pages, where `fetch(offset)` is the parsed
      page at that offset or the status text of a response that was not ok. */
  function Pages(fetch: nat -> Result<seq<RawMarket>, string>, n: nat): seq<RawMarket> {
    if n == 0 then []
    else Pages(fetch, n - 1) + (if fetch(BATCH_SIZE * (n - 1)).Ok? then fetch(BATCH_SIZE * (n - 1)).value else [])
  }

  /** One more page adds that page's markets, or nothing when it was not ok. */
  lemma PagesNext(fetch: nat -> Result<seq<RawMarket>, string>, n: nat)
    ensures Pages(fetch, n + 1) == Pages(fetch, n) + (if fetch(BATCH_SIZE * n).Ok? then fetch(BATCH_SIZE * n).value else [])
  {
  }

  /** The first `n` pages were each requested while fewer than `limit`
      markets had been found, and each was answered ok and not empty. */
  ghost predicate Crawled(fetch: nat -> Result<seq<RawMarket>, string>, limit: int, n: nat) {
    n == 0
    || (Crawled(fetch, limit, n - 1) && |Tradeables(Pages(fetch, n - 1))| < limit
        && fetch(BATCH_SIZE * (n - 1)).Ok? && fetch(BATCH_SIZE * (n - 1)).value != [])
  }

  /** What a crawl of `n` pages, possibly followed by one more request made
      while still short of `limit`, says about each request in `offsets`. */
  lemma {:induction false} CrawledRequests(fetch: nat -> Result<seq<RawMarket>, string>, limit: int, n: nat, offsets: seq<nat>)
    requires Crawled(fetch, limit, n) && n <= |offsets| <= n + 1
    requires forall k :: 0 <= k < |offsets| ==> offsets[k] == BATCH_SIZE * k
    requires |offsets| == n + 1 ==> |Tradeables(Pages(fetch, n))| < limit
    ensures forall k :: 0 <= k < |offsets| ==> |Tradeables(Pages(fetch, k))| < limit
    ensures forall k :: 0 <= k < n ==> fetch(offsets[k]).Ok? && fetch(offsets[k]).value != []
  {
    if n > 0 {
      CrawledRequests(fetch, limit, n - 1, offsets[..n - 1]);
      assert forall k :: 0 <= k < n - 1 ==> offsets[..n - 1][k] == offsets[k];
    }
  }

  /** Fetches pages of the listing until `limit` tradeable markets are found,
      a page comes back empty, or 10 pages were read; a page that is not ok
      ends the call with an error. `offsets` are the offsets requested, in order. */
  method TrendingMarkets(limit: int, fetch: nat -> Result<seq<RawMarket>, string>)
    returns (r: Result<seq<GammaMarket>, string>, offsets: seq<nat>)
    ensures |offsets| <= MAX_ITERATIONS
    ensures forall k :: 0 <= k < |offsets| ==> offsets[k] == BATCH_SIZE * k
    // a page is only requested while fewer than `limit` markets were found,
    // and every page but the last was ok and not empty
    ensures forall k :: 0 <= k < |offsets| ==> |Tradeables(Pages(fetch, k))| < limit
    ensures forall k :: 0 <= k < |offsets| - 1 ==> fetch(offsets[k]).Ok? && fetch(offsets[k]).value != []
    ensures r.Err? ==> |offsets| > 0 && fetch(offsets[|offsets| - 1]).Err?
                       && r.error == "Failed to fetch markets: " + fetch(offsets[|offsets| - 1]).error
    // every page that is not ok ends the call with an error, the tenth included
    ensures |offsets| > 0 && fetch(offsets[|offsets| - 1]).Err? ==> r.Err?
    ensures r.Ok? ==> r.value == Take(Tradeables(Pages(fetch, |offsets|)), limit)
    // why it stopped
    ensures r.Ok? ==> |offsets| == MAX_ITERATIONS || |r.value| >= limit
                      || (|offsets| > 0 && fetch(offsets[|offsets| - 1]) == Ok([]))
  {
    var tradeable: seq<GammaMarket> := [];
    var offset: nat := 0;
    offsets := [];
    var i := 0;
    while i < MAX_ITERATIONS && |tradeable| < limit
      invariant 0 <= i <= MAX_ITERATIONS
      invariant |offsets| == i && offset == BATCH_SIZE * i
      invariant forall k :: 0 <= k < i ==> offsets[k] == BATCH_SIZE * k
      invariant Crawled(fetch, limit, i)
      invariant tradeable == Take(Tradeables(Pages(fetch, i)), limit)
    {
      assert |Tradeables(Pages(fetch, i))| < limit;
      offsets := offsets + [offset];
      var response := fetch(offset);
      if response.Err? {
        CrawledRequests(fetch, limit, i, offsets);
        return Err("Failed to fetch markets: " + response.error), offsets;
      }
      var markets := response.value;
      PagesNext(fetch, i);
      if |markets| == 0 {
        // no more markets: the page adds nothing
        assert Pages(fetch, i + 1) == Pages(fetch, i);
        break;
      }
      assert Pages(fetch, i + 1) == Pages(fetch, i) + markets;
      assert Crawled(fetch, limit, i + 1);
      tradeable := ScanPage(tradeable, Pages(fetch, i), markets, limit);
      offset := offset + BATCH_SIZE;
      i := i + 1;
    }
    CrawledRequests(fetch, limit, i, offsets);
    r := Ok(tradeable);
  }

  /** The inner loop of `getTrendingMarkets`: appends the page's tradeable
      markets to those found so far, stopping at the one that reaches `limit`. */
  method ScanPage(found: seq<GammaMarket>, ghost before: seq<RawMarket>, markets: seq<RawMarket>, limit: int)
    returns (tradeable: seq<GammaMarket>)
    requires found == Tradeables(before) && |found| < limit
    ensures tradeable == Take(Tradeables(before + markets), limit)
  {
    tradeable := found;
    assert before + markets[..0] == before;
    var j := 0;
    while j < |markets| && |tradeable| < limit
      invariant 0 <= j <= |markets|
      invariant tradeable == Tradeables(before + markets[..j])
      invariant |tradeable| <= limit
    {
      ScanStep(before, markets, j);
      if Tradeable(markets[j]) {
        tradeable := tradeable + [ToGamma(markets[j])];
      }
      j := j + 1;
    }
    TradeablesAppend(before + markets[..j], markets[j..]);
    assert before + markets == before + markets[..j] + markets[j..];
  }

  lemma ScanStep(before: seq<RawMarket>, markets: seq<RawMarket>, j: nat)
    requires j < |markets|
    ensures Tradeables(before + markets[..j + 1])
            == Tradeables(before + markets[..j]) + (if Tradeable(markets[j]) then [ToGamma(markets[j])] else [])
  {
    TradeablesAppend(before + markets[..j], [markets[j]]);
    assert before + markets[..j + 1] == before + markets[..j] + [markets[j]];
  }

  /** What `getTrendingMarkets` returns: at most `limit` markets, each of them
      converted from a tradeable entry, in listing order (a prefix of all
      tradeable entries). */
  lemma TrendingResult(ms: seq<RawMarket>, limit: int)
    ensures var r := Take(Tradeables(ms), limit);
            && (limit >= 0 ==> |r| <= limit)
            && r == Tradeables(ms)[..|r|]
            && forall k :: 0 <= k < |r| ==>
                 var j := TradeableIndices(ms, 0)[k];
                 j < |ms| && Tradeable(ms[j]) && r[k] == ToGamma(ms[j])
                 && !r[k].closed && |r[k].clobTokenIds| >= 2
  {
    assert ms[0..] == ms;
  }

  // ---------------------------------------------------------------------------
  // getMarket
  // ---------------------------------------------------------------------------

  /** Index of the first entry whose condition id equals `conditionId` exactly. */
  function FindCondition(ms: seq<RawMarket>, conditionId: string): (i: Option<nat>)
    ensures i.Some? ==> i.value < |ms| && ms[i.value].conditionId == conditionId
                        && forall k :: 0 <= k < i.value ==> ms[k].conditionId != conditionId
    ensures i.None? ==> forall k :: 0 <= k < |ms| ==> ms[k].conditionId != conditionId
  {
    if ms == [] then None
    else if ms[0].conditionId == conditionId then Some(0)
    else match FindCondition(ms[1..], conditionId)
      case None => None
      case Some(k) => Some(k + 1)
  }

  /** `getMarket`: `listing` is the parsed response, `None` when it was not ok.
      The first exact match is returned only if its order book is enabled and
      it has at least two token ids; there is no fallback to a later match. */
  function GetMarket(listing: Option<seq<RawMarket>>, conditionId: string): (r: Option<GammaMarket>)
    ensures r.Some? ==> r.value.conditionId == conditionId && |r.value.clobTokenIds| >= 2
    ensures r.Some? <==> listing.Some? && FindCondition(listing.value, conditionId).Some?
                         && listing.value[FindCondition(listing.value, conditionId).value].enableOrderBook
                         && |TokenIds(listing.value[FindCondition(listing.value, conditionId).value])| >= 2
    ensures r.Some? ==> r.value == ToGamma(listing.value[FindCondition(listing.value, conditionId).value])
  {
    if listing.None? then None
    else match FindCondition(listing.value, conditionId)
      case None => None
      case Some(i) =>
        var m := listing.value[i];
        if !m.enableOrderBook || |TokenIds(m)| < 2 then None else Some(ToGamma(m))
  }

  /** A disabled first match hides any later entry with the same id. */
  lemma GetMarketFirstMatchOnly(ms: seq<RawMarket>, conditionId: string, i: nat)
    requires i < |ms| && ms[i].conditionId == conditionId
    requires forall k :: 0 <= k < i ==> ms[k].conditionId != conditionId
    requires !ms[i].enableOrderBook
    ensures GetMarket(Some(ms), conditionId) == None
  {
    assert FindCondition(ms, conditionId) == Some(i);
  }
}
