/** The analysis pipeline of `AnalysisService.analyze_images` in
    `api/services/analysis_service.py`: identify the item from the first image
    path, search the market with a query built from its name and series,
    and estimate a price from the listings found. The only failure the
    pipeline can meet, an empty path list, yields a fixed mock result, so
    the pipeline never raises. */
module Analysis {
  import opened Wrappers
  import opened Text
  import opened Market
  import opened Pricing
  import opened Identify

  /** What `analyze_images` returns. */
  datatype AnalysisOutput =
    AnalysisOutput(itemInfo: ItemInfo, priceRange: PriceRange, confidence: int, marketData: seq<Listing>)

  /** The words appended to every query ("price, second hand"). */
  const SearchPhrase: string := " ราคา มือสอง"

  /** The market query for an identified item: name, a space, series, then the
      fixed phrase. */
  function SearchQuery(info: ItemInfo): (q: string)
    ensures StartsWith(q, info.name + " " + info.series)
    ensures |q| == |info.name| + 1 + |info.series| + |SearchPhrase|
    ensures q[|q| - |SearchPhrase|..] == SearchPhrase
  {
    var q := info.name + " " + info.series + SearchPhrase;
    assert q[..|info.name + " " + info.series|] == info.name + " " + info.series;
    q
  }

  /** `_mock_analysis`: the fixed result used when the pipeline fails. */
  const MockAnalysis: AnalysisOutput :=
    AnalysisOutput(EducationalBook, PriceRange(DefaultMin, DefaultMax, Currency, DefaultSuggested), Confidence, BookTable)

  /** `analyze_images`: the empty path list (where `image_paths[0]` raises)
      gives the mock result; otherwise only the first path is identified, the
      market is searched with the item's query, and the listings found are
      priced. `search` is what the search provider does with the query and
      `pick` the random fallback choice of identification. */
  function AnalyzeImages(paths: seq<string>, search: SearchOutcome, pick: nat): (r: AnalysisOutput)
    requires pick < |UnknownChoices|
    ensures |paths| == 0 ==> r == MockAnalysis
    ensures r.confidence == Confidence && r.priceRange.currency == Currency
    ensures r.priceRange.minPrice as real <= r.priceRange.suggested <= r.priceRange.maxPrice as real
    ensures |paths| > 0 ==>
      && r.itemInfo == IdentifyItem(paths[0], pick)
      && r.marketData == SearchMarketData(SearchQuery(r.itemInfo), search)
      && PriceAnalysis(r.priceRange, r.confidence) == AnalyzePrice(r.marketData)
  {
    if |paths| == 0 then MockAnalysis
    else
      var info := IdentifyItem(paths[0], pick);
      var listings := SearchMarketData(SearchQuery(info), search);
      var estimate := AnalyzePrice(listings);
      AnalysisOutput(info, estimate.priceRange, estimate.confidence, listings)
  }

  /** Only the first image is analysed: the remaining paths never affect the result. */
  lemma OnlyFirstPathMatters(paths: seq<string>, others: seq<string>, search: SearchOutcome, pick: nat)
    requires pick < |UnknownChoices|
    requires |paths| > 0 && |others| > 0 && others[0] == paths[0]
    ensures AnalyzeImages(paths, search, pick) == AnalyzeImages(others, search, pick)
  {
  }

  /** A query whose item name holds the word `Book` or `book` at position `i`
      falls back to the book table. */
  lemma BookNamedQuery(info: ItemInfo, i: nat)
    requires i + 4 <= |info.name|
    requires info.name[i + 1..i + 4] == "ook" && (info.name[i] == 'B' || info.name[i] == 'b')
    ensures FallbackListings(SearchQuery(info)) == BookTable
  {
    var q := SearchQuery(info);
    var lq := ToLower(q);
    assert q[..|info.name|] == info.name;
    assert q[i..i + 4] == info.name[i..i + 4];
    assert lq[i] == LowerChar(q[i]) == 'b';
    assert info.name[i + 1] == info.name[i + 1..i + 4][0] == 'o';
    assert info.name[i + 2] == info.name[i + 1..i + 4][1] == 'o';
    assert info.name[i + 3] == info.name[i + 1..i + 4][2] == 'k';
    assert q[i + 1] == 'o' && q[i + 2] == 'o' && q[i + 3] == 'k';
    assert lq[i + 1] == 'o' && lq[i + 2] == 'o' && lq[i + 3] == 'k';
    assert lq[i..i + 4] == "book";
    assert OccursAt(lq, "book", i);
    ContainsIffOccurs(lq, "book");
    assert BookQueryWords[0] == "book";
  }

  /** Every fallback description is a book, so its query falls back to the book table. */
  lemma FallbackItemsQueryBooks(pick: nat)
    requires pick < |UnknownChoices|
    ensures FallbackListings(SearchQuery(UnknownChoices[pick])) == BookTable
  {
    if pick == 0 {
      assert EducationalBook.name[13..16] == "ook";
      BookNamedQuery(EducationalBook, 12);
    } else if pick == 1 {
      assert ProgrammingBook.name[13..16] == "ook";
      BookNamedQuery(ProgrammingBook, 12);
    } else {
      assert BusinessBook.name[10..13] == "ook";
      BookNamedQuery(BusinessBook, 9);
    }
  }

  /** The MacBook description's query holds `Book` too, so it falls back to the
      book table rather than the laptop table. */
  lemma MacBookQueryGetsBookTable()
    ensures FallbackListings(SearchQuery(MacBookPro)) == BookTable
  {
    assert MacBookPro.name[4..7] == "ook";
    BookNamedQuery(MacBookPro, 3);
  }

  /** For the image paths the service itself stores (a 32-digit hexadecimal
      name with the `.jpg` extension), the pipeline returns one of the three
      book descriptions and a price range of 280 to 450: a failed search
      prices the book table (suggestion 360), a successful one prices
      listings without a baht amount (suggestion 365). */
  lemma StoredImageEstimate(paths: seq<string>, dir: string, token: string, search: SearchOutcome, pick: nat)
    requires pick < |UnknownChoices|
    requires |token| == 32 && forall i :: 0 <= i < |token| ==> token[i] in "0123456789abcdef"
    requires |paths| > 0 && paths[0] == dir + "/" + token + ".jpg"
    ensures var r := AnalyzeImages(paths, search, pick);
      && r.itemInfo == UnknownChoices[pick]
      && r.priceRange.minPrice == 280 && r.priceRange.maxPrice == 450
      && (search.SearchRaised? ==> r.marketData == BookTable && r.priceRange.suggested == 360.0)
      && (search.Results? ==> r.marketData == ShapeResults(search.hits) && r.priceRange.suggested == 365.0)
  {
    StoredImageUsesFallback(dir, token, pick);
    if search.SearchRaised? {
      FallbackItemsQueryBooks(pick);
      BookTableEstimate();
    } else {
      ShapedResultsUseDefault(search.hits);
    }
  }

  /** The mock result is returned exactly when there is no image: a run on
      any image list never reproduces it, since the mock pairs the book
      table with a suggestion of 365 while the book table itself suggests 360. */
  lemma MockOnlyWithoutImages(paths: seq<string>, search: SearchOutcome, pick: nat)
    requires pick < |UnknownChoices|
    ensures AnalyzeImages(paths, search, pick) == MockAnalysis <==> |paths| == 0
  {
    if |paths| > 0 {
      BookTableEstimate();
    }
  }

}
