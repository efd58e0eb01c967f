/** Market lookup as `_search_market_data` in `api/services/analysis_service.py`
    shapes it: a search provider's raw hits become at most five listings with no
    usable price, and a failed search falls back to one of five fixed
    three-listing tables chosen by keywords in the query. */
module Market {
  import opened Wrappers
  import opened Text

  /** One market listing (`MarketResult`): title, price text, source label, link. */
  datatype Listing = Listing(title: string, price: string, source: string, url: string)

  /** One raw search hit; the provider may omit either field. */
  datatype RawResult = RawResult(title: Option<string>, link: Option<string>)

  /** What the search provider did: returned its hits in rank order, or raised. */
  datatype SearchOutcome = Results(hits: seq<RawResult>) | SearchRaised

  const MaxListings: nat := 5
  const UnavailablePrice: string := "Price not available"
  const SearchSource: string := "Google Search"

  /** The conversion of provider hits into listings: the first five hits in
      rank order, each with a placeholder price and the search source label. */
  function ShapeResults(hits: seq<RawResult>): (r: seq<Listing>)
    ensures |r| <= MaxListings
    ensures |r| == if |hits| < MaxListings then |hits| else MaxListings
    ensures forall i :: 0 <= i < |r| ==>
              && r[i].title == hits[i].title.GetOr("")
              && r[i].url == hits[i].link.GetOr("")
              && r[i].price == UnavailablePrice
              && r[i].source == SearchSource
  {
    var n := if |hits| < MaxListings then |hits| else MaxListings;
    seq(n, i requires 0 <= i < n => Listing(hits[i].title.GetOr(""), UnavailablePrice, SearchSource, hits[i].link.GetOr("")))
  }

  // Keyword groups probed, in this order, in the lower-cased query.
  const BookQueryWords: seq<string> := ["book", "หนังสือ", "textbook", "manual"]
  const LaptopQueryWords: seq<string> := ["macbook", "laptop", "computer"]
  const WatchQueryWords: seq<string> := ["watch", "smartwatch", "apple watch"]
  const CameraQueryWords: seq<string> := ["camera", "canon", "nikon"]

  const BookTable: seq<Listing> := [
    Listing("Programming Book มือสอง สภาพดี", "350 ฿", "Facebook Marketplace", "#"),
    Listing("Technical Manual Second Hand", "450 ฿", "Shopee", "#"),
    Listing("Educational Book มือสอง", "280 ฿", "Lazada", "#")
  ]

  const LaptopTable: seq<Listing> := [
    Listing("MacBook Pro มือสอง 13 inch", "35,000 ฿", "Facebook Marketplace", "#"),
    Listing("MacBook Pro Second Hand Good Condition", "38,500 ฿", "Shopee", "#"),
    Listing("MacBook Pro มือสอง สภาพดีมาก", "32,800 ฿", "Lazada", "#")
  ]

  const WatchTable: seq<Listing> := [
    Listing("Apple Watch Series 7 มือสอง", "8,500 ฿", "Facebook Marketplace", "#"),
    Listing("Apple Watch มือสอง สภาพดี", "9,200 ฿", "Shopee", "#"),
    Listing("Apple Watch Series 7 Second Hand", "7,800 ฿", "Lazada", "#")
  ]

  const CameraTable: seq<Listing> := [
    Listing("Canon EOS R5 มือสอง Body Only", "85,000 ฿", "Facebook Marketplace", "#"),
    Listing("Canon EOS R5 Second Hand Excellent", "92,500 ฿", "Shopee", "#"),
    Listing("Canon EOS R5 มือสอง สภาพดีมาก", "88,800 ฿", "Lazada", "#")
  ]

  const DefaultTable: seq<Listing> := [
    Listing("Educational Book มือสอง สภาพดี", "350 ฿", "Facebook Marketplace", "#"),
    Listing("Academic Book Second Hand", "420 ฿", "Shopee", "#"),
    Listing("Business Book มือสอง", "280 ฿", "Lazada", "#")
  ]

  /** The table a failed search falls back to: the first keyword group found
      in the lower-cased query decides, books first; no match gives the
      default (book-priced) table. */
  function FallbackListings(query: string): (r: seq<Listing>)
    ensures |r| == 3
    ensures forall i :: 0 <= i < |r| ==> r[i].url == "#" && '฿' in r[i].price
    ensures AnyContained(BookQueryWords, ToLower(query)) ==> r == BookTable
    ensures
      (!AnyContained(BookQueryWords, ToLower(query))
       && AnyContained(LaptopQueryWords, ToLower(query)))
      ==> r == LaptopTable
    ensures
      (!AnyContained(BookQueryWords, ToLower(query))
       && !AnyContained(LaptopQueryWords, ToLower(query))
       && AnyContained(WatchQueryWords, ToLower(query)))
      ==> r == WatchTable
    ensures
      (!AnyContained(BookQueryWords, ToLower(query))
       && !AnyContained(LaptopQueryWords, ToLower(query))
       && !AnyContained(WatchQueryWords, ToLower(query))
       && AnyContained(CameraQueryWords, ToLower(query)))
      ==> r == CameraTable
    ensures
      (!AnyContained(BookQueryWords, ToLower(query))
       && !AnyContained(LaptopQueryWords, ToLower(query))
       && !AnyContained(WatchQueryWords, ToLower(query))
       && !AnyContained(CameraQueryWords, ToLower(query)))
      ==> r == DefaultTable
  {
    var q := ToLower(query);
    if AnyContained(BookQueryWords, q) then BookTable
    else if AnyContained(LaptopQueryWords, q) then LaptopTable
    else if AnyContained(WatchQueryWords, q) then WatchTable
    else if AnyContained(CameraQueryWords, q) then CameraTable
    else DefaultTable
  }

  /** `_search_market_data`: shaped hits when the provider answers, the
      keyword fallback table when it raises. */
  function SearchMarketData(query: string, outcome: SearchOutcome): (r: seq<Listing>)
    ensures |r| <= MaxListings
    ensures outcome.Results? ==> r == ShapeResults(outcome.hits)
    ensures outcome.SearchRaised? ==> r == FallbackListings(query)
  {
    match outcome
    case Results(hits) => ShapeResults(hits)
    case SearchRaised => FallbackListings(query)
  }

  /** Because `book` is probed first, a query naming a MacBook falls back to the
      book table: the laptop table is reached only by `laptop` or `computer`
      queries without `book` in them. */
  lemma MacbookQueryGetsBookTable(query: string)
    requires Contains(ToLower(query), "macbook")
    ensures FallbackListings(query) == BookTable
  {
    ContainsPart(ToLower(query), "macbook", "book", 3);
    assert BookQueryWords[0] == "book";
  }
}
