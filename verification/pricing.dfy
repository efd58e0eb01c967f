/** Price synthesis as `_analyze_price` in `api/services/analysis_service.py`
    performs it: every listing whose price text carries the baht sign and reads
    as a number contributes that number; the estimate is the minimum, maximum
    and mean of those numbers, or the fixed book-priced default when there are
    none. Currency and confidence are fixed. */
module Pricing {
  import opened Wrappers
  import opened Text
  import opened Market

  const Baht: char := '฿'
  const Currency: string := "THB"
  const Confidence: int := 85
  const DefaultMin: nat := 280
  const DefaultMax: nat := 450
  const DefaultSuggested: real := 365.0

  /** The `price_range` object: bounds and suggestion in `currency`. */
  datatype PriceRange = PriceRange(minPrice: nat, maxPrice: nat, currency: string, suggested: real)

  /** What `_analyze_price` returns. */
  datatype PriceAnalysis = PriceAnalysis(priceRange: PriceRange, confidence: int)

  /** The estimate used when no listing yields a price. */
  const DefaultAnalysis: PriceAnalysis :=
    PriceAnalysis(PriceRange(DefaultMin, DefaultMax, Currency, DefaultSuggested), Confidence)

  /** The number in a listing's price text: only texts holding the baht sign
      are considered; the sign and every comma are removed, surrounding
      whitespace is stripped, and what remains must be a run of digits. */
  function ParsePrice(text: string): (r: Option<nat>)
    ensures Baht !in text ==> r == None
    ensures r.Some? ==> Baht in text
  {
    if Baht !in text then None
    else
      var t := Strip(RemoveChar(RemoveChar(text, Baht), ','));
      if IsDigits(t) then Some(DigitsValue(t)) else None
  }

  /** Stripping a run of digits followed by whitespace leaves the digits. */
  lemma StripTrailingSpace(d: string, pad: string)
    requires IsDigits(d)
    requires forall k :: 0 <= k < |pad| ==> IsSpace(pad[k])
    ensures Strip(d + pad) == d
  {
    var s := d + pad;
    DigitNotSpace(d[0]);
    DigitNotSpace(d[|d| - 1]);
    assert s[0] == d[0];
    assert StripLeft(s) == s;
    StripRightPadding(d, pad);
  }

  function Pow10(n: nat): (r: nat)
    ensures r > 0
  {
    if n == 0 then 1 else 10 * Pow10(n - 1)
  }

  /** The value of two concatenated digit runs. */
  lemma {:induction false} DigitsValueAppend(a: string, b: string)
    requires forall i :: 0 <= i < |a| ==> IsDigit(a[i])
    requires forall i :: 0 <= i < |b| ==> IsDigit(b[i])
    ensures DigitsValue(a + b) == DigitsValue(a) * Pow10(|b|) + DigitsValue(b)
    decreases |b|
  {
    if |b| == 0 {
      assert a + b == a;
    } else {
      var b' := b[..|b| - 1];
      var d := b[|b| - 1] as int - '0' as int;
      assert (a + b)[..|a + b| - 1] == a + b';
      assert (a + b)[|a + b| - 1] == b[|b| - 1];
      DigitsValueAppend(a, b');
      var x, p, y := DigitsValue(a), Pow10(|b'|), DigitsValue(b');
      assert DigitsValue(a + b) == DigitsValue(a + b') * 10 + d;
      assert DigitsValue(b) == y * 10 + d;
      ShiftDigit(x, p, y, d);
    }
  }

  /** `(x * p + y) * 10 + d == x * (10 * p) + (y * 10 + d)`. */
  lemma ShiftDigit(x: int, p: int, y: int, d: int)
    ensures (x * p + y) * 10 + d == x * (10 * p) + (y * 10 + d)
  {
    assert (x * p + y) * 10 == x * p * 10 + y * 10;
    assert x * p * 10 == x * (10 * p);
  }

  /** Removing the baht sign from `<body> ฿` leaves `<body> `. */
  lemma RemoveTrailingBaht(body: string)
    requires Baht !in body
    ensures RemoveChar(body + " ฿", Baht) == body + " "
  {
    RemoveCharAppend(body, " ฿", Baht);
    RemoveCharAbsent(body, Baht);
    assert RemoveChar(" ฿", Baht) == " ";
  }

  /** Removing the commas from `<a>,<b>` leaves `<a><b>`. */
  lemma RemoveSeparator(a: string, b: string)
    requires ',' !in a && ',' !in b
    ensures RemoveChar(a + "," + b, ',') == a + b
  {
    RemoveCharAppend(a + ",", b, ',');
    RemoveCharAppend(a, ",", ',');
    RemoveCharAbsent(a, ',');
    RemoveCharAbsent(b, ',');
    assert RemoveChar(",", ',') == "";
    assert RemoveChar(a + ",", ',') == a + "" == a;
    assert RemoveChar(a + "," + b, ',') == RemoveChar(a + ",", ',') + RemoveChar(b, ',');
  }

  /** A price text whose digits, once the sign and commas are removed and the
      text stripped, are `d` reads as the value of `d`. */
  lemma ParseDigitsPrice(text: string, d: string)
    requires Baht in text && IsDigits(d)
    requires Strip(RemoveChar(RemoveChar(text, Baht), ',')) == d
    ensures ParsePrice(text) == Some(DigitsValue(d))
  {
  }

  /** A price written as `<digits> ฿` reads back as that number. */
  lemma ParsePlainPrice(n: nat)
    ensures ParsePrice(NatToString(n) + " ฿") == Some(n)
  {
    var d := NatToString(n);
    var text := d + " ฿";
    assert text[|d| + 1] == Baht;
    assert Baht !in d;
    RemoveTrailingBaht(d);
    assert ',' !in d + " ";
    RemoveCharAbsent(d + " ", ',');
    StripTrailingSpace(d, " ");
    ParseDigitsPrice(text, d);
    NatToStringRoundTrip(n);
  }

  /** Cleaning `<digits>,<ddd> ฿` leaves the digits without the separator. */
  lemma CleanGroupedPrice(d: string, low: string)
    requires IsDigits(d) && IsDigits(low)
    ensures IsDigits(d + low)
    ensures Strip(RemoveChar(RemoveChar(d + "," + low + " ฿", Baht), ',')) == d + low
  {
    var body := d + "," + low;
    assert Baht !in body;
    RemoveTrailingBaht(body);
    assert ',' !in d && ',' !in low + " ";
    RemoveSeparator(d, low + " ");
    assert d + "," + (low + " ") == body + " ";
    assert d + (low + " ") == (d + low) + " ";
    StripTrailingSpace(d + low, " ");
  }

  /** The digits of `n` followed by three more digits `low` are worth `1000 * n + low`. */
  lemma GroupedValue(n: nat, low: string)
    requires |low| == 3 && forall i :: 0 <= i < 3 ==> IsDigit(low[i])
    ensures DigitsValue(NatToString(n) + low) == n * 1000 + DigitsValue(low)
  {
    DigitsValueAppend(NatToString(n), low);
    NatToStringRoundTrip(n);
    assert Pow10(3) == 1000;
  }

  /** A price written with one thousands separator, `<digits>,<ddd> ฿`, reads
      back as `1000 * <digits> + <ddd>`. */
  lemma ParseGroupedPrice(n: nat, low: string, v: nat)
    requires |low| == 3 && forall i :: 0 <= i < 3 ==> IsDigit(low[i])
    requires v == n * 1000 + DigitsValue(low)
    ensures ParsePrice(NatToString(n) + "," + low + " ฿") == Some(v)
  {
    var d := NatToString(n);
    var text := d + "," + low + " ฿";
    assert text[|text| - 1] == Baht;
    CleanGroupedPrice(d, low);
    ParseDigitsPrice(text, d + low);
    GroupedValue(n, low);
    var w := DigitsValue(d + low);
    assert ParsePrice(text) == Some(w);
    assert w == v;
  }

  /** The reading of every listing's price, position by position. */
  function ReadPrices(listings: seq<Listing>): (r: seq<Option<nat>>)
    ensures |r| == |listings|
    ensures forall i :: 0 <= i < |r| ==> r[i] == ParsePrice(listings[i].price)
  {
    seq(|listings|, i requires 0 <= i < |listings| => ParsePrice(listings[i].price))
  }

  /** The present values, in order. */
  function Values(opts: seq<Option<nat>>): (r: seq<nat>)
    ensures |r| <= |opts|
    ensures |r| == 0 <==> forall i :: 0 <= i < |opts| ==> opts[i].None?
    ensures forall p :: p in r ==> Some(p) in opts
    ensures forall i :: 0 <= i < |opts| && opts[i].Some? ==> opts[i].value in r
  {
    if |opts| == 0 then []
    else
      var rest := Values(opts[1..]);
      assert forall i :: 1 <= i < |opts| ==> opts[i] == opts[1..][i - 1];
      match opts[0]
      case Some(p) => [p] + rest
      case None => rest
  }

  /** The numbers read from the listings, in listing order. */
  function ExtractPrices(listings: seq<Listing>): (r: seq<nat>)
    ensures |r| <= |listings|
    ensures |r| == 0 <==> forall i :: 0 <= i < |listings| ==> ParsePrice(listings[i].price).None?
    ensures forall p :: p in r ==> exists i :: 0 <= i < |listings| && ParsePrice(listings[i].price) == Some(p)
    ensures forall i :: 0 <= i < |listings| && ParsePrice(listings[i].price).Some? ==> ParsePrice(listings[i].price).value in r
  {
    var opts := ReadPrices(listings);
    var r := Values(opts);
    assert forall p :: p in r ==> Some(p) in opts;
    r
  }

  /** Reading one more option appends its value, if it has one. */
  lemma {:induction false} ValuesAppend(opts: seq<Option<nat>>, o: Option<nat>)
    ensures Values(opts + [o]) == Values(opts) + (if o.Some? then [o.value] else [])
    decreases |opts|
  {
    var tail := if o.Some? then [o.value] else [];
    if |opts| == 0 {
      assert opts + [o] == [o];
      assert Values([o][1..]) == [];
    } else {
      assert (opts + [o])[1..] == opts[1..] + [o];
      ValuesAppend(opts[1..], o);
    }
  }

  /** One more listing adds its price at the end when it can be read and
      nothing otherwise, so the numbers keep the listings' order. */
  lemma ExtractPricesAppend(ls: seq<Listing>, l: Listing)
    ensures ExtractPrices(ls + [l]) ==
            ExtractPrices(ls) + (if ParsePrice(l.price).Some? then [ParsePrice(l.price).value] else [])
  {
    ReadPricesAppend(ls, l);
    ValuesAppend(ReadPrices(ls), ParsePrice(l.price));
  }

  lemma ReadPricesAppend(ls: seq<Listing>, l: Listing)
    ensures ReadPrices(ls + [l]) == ReadPrices(ls) + [ParsePrice(l.price)]
  {
    var a := ReadPrices(ls + [l]);
    var b := ReadPrices(ls) + [ParsePrice(l.price)];
    forall i | 0 <= i < |a| ensures a[i] == b[i] {
      if i < |ls| { assert (ls + [l])[i] == ls[i]; }
    }
  }

  function MinOf(s: seq<nat>): (r: nat)
    requires |s| > 0
    ensures r in s && forall x :: x in s ==> r <= x
  {
    if |s| == 1 then s[0]
    else
      assert s == [s[0]] + s[1..];
      var m := MinOf(s[1..]);
      if s[0] <= m then s[0] else m
  }

  function MaxOf(s: seq<nat>): (r: nat)
    requires |s| > 0
    ensures r in s && forall x :: x in s ==> x <= r
  {
    if |s| == 1 then s[0]
    else
      assert s == [s[0]] + s[1..];
      var m := MaxOf(s[1..]);
      if s[0] >= m then s[0] else m
  }

  function Sum(s: seq<nat>): nat {
    if |s| == 0 then 0 else s[0] + Sum(s[1..])
  }

  /** A sum of numbers between `lo` and `hi` lies between `|s| * lo` and `|s| * hi`. */
  lemma {:induction false} SumBounds(s: seq<nat>, lo: nat, hi: nat)
    requires forall x :: x in s ==> lo <= x <= hi
    ensures |s| * lo <= Sum(s) <= |s| * hi
  {
    if |s| > 0 {
      assert forall x :: x in s[1..] ==> x in s;
      SumBounds(s[1..], lo, hi);
      assert s[0] in s;
      assert Sum(s) == s[0] + Sum(s[1..]);
      MulSucc(|s| - 1, lo);
      MulSucc(|s| - 1, hi);
    }
  }

  lemma MulSucc(n: nat, x: nat)
    ensures (n + 1) * x == x + n * x
  {
  }

  /** Dividing integer bounds `n * lo <= t <= n * hi` by a positive `n`. */
  lemma DivideBounds(n: nat, lo: nat, hi: nat, t: nat)
    requires n > 0 && n * lo <= t <= n * hi
    ensures lo as real <= t as real / n as real <= hi as real
  {
    CastProduct(n, lo);
    CastProduct(n, hi);
    DivideAbove(n as real, lo as real, t as real);
    DivideBelow(n as real, hi as real, t as real);
  }

  lemma CastProduct(a: nat, b: nat)
    ensures (a * b) as real == a as real * b as real
  {
  }

  lemma DivideAbove(n: real, lo: real, t: real)
    requires n > 0.0 && n * lo <= t
    ensures lo <= t / n
  {
    var q := t / n;
    DivideThenMultiply(t, n);
    if q < lo {
      ScaleLess(q, lo, n);
      assert false;
    }
  }

  lemma DivideBelow(n: real, hi: real, t: real)
    requires n > 0.0 && t <= n * hi
    ensures t / n <= hi
  {
    var q := t / n;
    DivideThenMultiply(t, n);
    if q > hi {
      ScaleLess(hi, q, n);
      assert false;
    }
  }

  lemma ScaleLess(a: real, b: real, c: real)
    requires c > 0.0 && a < b
    ensures a * c < b * c
  {
  }

  lemma DivideThenMultiply(t: real, n: real)
    requires n != 0.0
    ensures (t / n) * n == t
  {
  }

  /** The arithmetic mean of the numbers. */
  function Mean(s: seq<nat>): real
    requires |s| > 0
  {
    Sum(s) as real / |s| as real
  }

  /** The mean lies between the minimum and the maximum. */
  lemma MeanBetweenExtremes(s: seq<nat>)
    requires |s| > 0
    ensures MinOf(s) as real <= Mean(s) <= MaxOf(s) as real
  {
    SumBounds(s, MinOf(s), MaxOf(s));
    DivideBounds(|s|, MinOf(s), MaxOf(s), Sum(s));
  }

  /** The mean times the count is the sum. */
  lemma MeanTimesCount(s: seq<nat>)
    requires |s| > 0
    ensures Mean(s) * |s| as real == Sum(s) as real
  {
    DivideThenMultiply(Sum(s) as real, |s| as real);
  }

  /** `_analyze_price`: minimum, maximum and mean of the listing prices with
      the fixed confidence, or the default estimate when no price reads. */
  function AnalyzePrice(listings: seq<Listing>): (r: PriceAnalysis)
    ensures r.confidence == Confidence && r.priceRange.currency == Currency
    ensures r.priceRange.minPrice as real <= r.priceRange.suggested <= r.priceRange.maxPrice as real
    ensures ExtractPrices(listings) == [] ==> r == DefaultAnalysis
    ensures var ps := ExtractPrices(listings);
      ps != [] ==>
        && r.priceRange.minPrice in ps && r.priceRange.maxPrice in ps
        && (forall p :: p in ps ==> r.priceRange.minPrice <= p <= r.priceRange.maxPrice)
        && r.priceRange.suggested == Mean(ps)
  {
    var ps := ExtractPrices(listings);
    if ps == [] then DefaultAnalysis
    else
      MeanBetweenExtremes(ps);
      PriceAnalysis(PriceRange(MinOf(ps), MaxOf(ps), Currency, Mean(ps)), Confidence)
  }

  /** Listings shaped from search hits carry no baht price, so a successful
      search always ends in the default estimate. */
  lemma ShapedResultsUseDefault(hits: seq<RawResult>)
    ensures ExtractPrices(ShapeResults(hits)) == []
    ensures AnalyzePrice(ShapeResults(hits)) == DefaultAnalysis
  {
    assert Baht !in UnavailablePrice;
  }

  lemma ReadThree(ls: seq<Listing>, a: nat, b: nat, c: nat)
    requires |ls| == 3
    requires ParsePrice(ls[0].price) == Some(a)
    requires ParsePrice(ls[1].price) == Some(b)
    requires ParsePrice(ls[2].price) == Some(c)
    ensures ReadPrices(ls) == [Some(a), Some(b), Some(c)]
  {
    var r := ReadPrices(ls);
    ThreeReadings(r, a, b, c);
  }

  lemma ThreeReadings(r: seq<Option<nat>>, a: nat, b: nat, c: nat)
    requires |r| == 3 && r[0] == Some(a) && r[1] == Some(b) && r[2] == Some(c)
    ensures r == [Some(a), Some(b), Some(c)]
  {
  }

  lemma ValuesThree(a: nat, b: nat, c: nat)
    ensures Values([Some(a), Some(b), Some(c)]) == [a, b, c]
  {
    var opts: seq<Option<nat>> := [Some(a), Some(b), Some(c)];
    var o1 := opts[1..];
    var o2 := o1[1..];
    assert o1 == [Some(b), Some(c)] && o2 == [Some(c)] && o2[1..] == [];
    assert Values(o2) == [c];
    assert Values(o1) == [b, c];
  }

  /** Three listings whose prices all read give those three numbers, in order. */
  lemma ExtractThree(ls: seq<Listing>, a: nat, b: nat, c: nat)
    requires |ls| == 3
    requires ParsePrice(ls[0].price) == Some(a)
    requires ParsePrice(ls[1].price) == Some(b)
    requires ParsePrice(ls[2].price) == Some(c)
    ensures ExtractPrices(ls) == [a, b, c]
  {
    ReadThree(ls, a, b, c);
    ValuesThree(a, b, c);
  }

  /** Three listings priced `<a> ฿`, `<b> ฿`, `<c> ฿` give `a`, `b`, `c`. */
  lemma PlainPricedThree(ls: seq<Listing>, a: nat, b: nat, c: nat)
    requires |ls| == 3
    requires ls[0].price == NatToString(a) + " ฿"
    requires ls[1].price == NatToString(b) + " ฿"
    requires ls[2].price == NatToString(c) + " ฿"
    ensures ExtractPrices(ls) == [a, b, c]
  {
    ParsePlainPrice(a);
    ParsePlainPrice(b);
    ParsePlainPrice(c);
    ExtractThree(ls, a, b, c);
  }

  /** The three prices of the book table (and of the error-path mock data). */
  lemma BookTablePrices()
    ensures ExtractPrices(BookTable) == [350, 450, 280]
  {
    assert NatToString(350) == "350" && NatToString(450) == "450" && NatToString(280) == "280";
    PlainPricedThree(BookTable, 350, 450, 280);
  }

  lemma DefaultTablePrices()
    ensures ExtractPrices(DefaultTable) == [350, 420, 280]
  {
    assert NatToString(350) == "350" && NatToString(420) == "420" && NatToString(280) == "280";
    PlainPricedThree(DefaultTable, 350, 420, 280);
  }

  /** The estimate for listings whose prices are known to read as `ps`. */
  lemma EstimateOfPrices(ls: seq<Listing>, ps: seq<nat>)
    requires ExtractPrices(ls) == ps && |ps| > 0
    ensures AnalyzePrice(ls) == PriceAnalysis(PriceRange(MinOf(ps), MaxOf(ps), Currency, Mean(ps)), Confidence)
  {
  }

  /** Minimum, maximum and mean of three numbers. */
  lemma StatsOfThree(a: nat, b: nat, c: nat, lo: nat, hi: nat)
    requires lo <= a && lo <= b && lo <= c && (lo == a || lo == b || lo == c)
    requires a <= hi && b <= hi && c <= hi && (hi == a || hi == b || hi == c)
    ensures MinOf([a, b, c]) == lo && MaxOf([a, b, c]) == hi
    ensures Mean([a, b, c]) == (a + b + c) as real / 3.0
  {
    var ps: seq<nat> := [a, b, c];
    assert ps[1..] == [b, c] && ps[1..][1..] == [c] && ps[1..][1..][1..] == [];
    assert Sum(ps[1..][1..]) == c;
    assert Sum(ps[1..]) == b + c;
  }

  /** Three listings reading as `a`, `b`, `c` give their minimum, maximum and mean. */
  lemma EstimateOfThree(ls: seq<Listing>, a: nat, b: nat, c: nat, lo: nat, hi: nat)
    requires ExtractPrices(ls) == [a, b, c]
    requires lo <= a && lo <= b && lo <= c && (lo == a || lo == b || lo == c)
    requires a <= hi && b <= hi && c <= hi && (hi == a || hi == b || hi == c)
    ensures AnalyzePrice(ls)
      == PriceAnalysis(PriceRange(lo, hi, Currency, (a + b + c) as real / 3.0), Confidence)
  {
    EstimateOfPrices(ls, [a, b, c]);
    StatsOfThree(a, b, c, lo, hi);
  }

  /** The book table's prices `["350 ฿", "450 ฿", "280 ฿"]` give the range
      280..450 with suggestion 360. */
  lemma BookTableEstimate()
    ensures AnalyzePrice(BookTable) == PriceAnalysis(PriceRange(280, 450, Currency, 360.0), Confidence)
  {
    BookTablePrices();
    EstimateOfThree(BookTable, 350, 450, 280, 280, 450);
  }

  /** The default table gives 280..420 with suggestion 350. */
  lemma DefaultTableEstimate()
    ensures AnalyzePrice(DefaultTable) == PriceAnalysis(PriceRange(280, 420, Currency, 350.0), Confidence)
  {
    DefaultTablePrices();
    EstimateOfThree(DefaultTable, 350, 420, 280, 280, 420);
  }

  /** The value of a three-digit group. */
  lemma ThreeDigitsValue(s: string)
    requires |s| == 3 && forall i :: 0 <= i < 3 ==> IsDigit(s[i])
    ensures DigitsValue(s) == 100 * (s[0] as int - '0' as int) + 10 * (s[1] as int - '0' as int) + (s[2] as int - '0' as int)
  {
    var s1 := s[..1];
    var s2 := s[..2];
    assert s[..|s| - 1] == s2 && s2[..|s2| - 1] == s1 && s1[..0] == [];
    assert DigitsValue(s1) == s[0] as int - '0' as int;
    assert DigitsValue(s2) == 10 * (s[0] as int - '0' as int) + (s[1] as int - '0' as int);
  }

  /** A price text written `<n>,<ddd> ฿`, worth `v`. */
  predicate GroupedAs(text: string, n: nat, low: string, v: nat) {
    && |low| == 3 && (forall i :: 0 <= i < 3 ==> IsDigit(low[i]))
    && text == NatToString(n) + "," + low + " ฿"
    && v == n * 1000 + DigitsValue(low)
  }

  /** Three listings each priced `<n>,<ddd> ฿` give the three grouped values. */
  lemma GroupedPricedThree(ls: seq<Listing>, n: seq<nat>, low: seq<string>, v: seq<nat>)
    requires |ls| == 3 && |n| == 3 && |low| == 3 && |v| == 3
    requires GroupedAs(ls[0].price, n[0], low[0], v[0])
    requires GroupedAs(ls[1].price, n[1], low[1], v[1])
    requires GroupedAs(ls[2].price, n[2], low[2], v[2])
    ensures ExtractPrices(ls) == v
  {
    assert v == [v[0], v[1], v[2]];
    ParseGroupedPrice(n[0], low[0], v[0]);
    ParseGroupedPrice(n[1], low[1], v[1]);
    ParseGroupedPrice(n[2], low[2], v[2]);
    ExtractThree(ls, v[0], v[1], v[2]);
  }

  /** The laptop table's prices are each written with a thousands separator. */
  lemma LaptopPricesGrouped()
    ensures GroupedAs(LaptopTable[0].price, 35, "000", 35000)
    ensures GroupedAs(LaptopTable[1].price, 38, "500", 38500)
    ensures GroupedAs(LaptopTable[2].price, 32, "800", 32800)
  {
    assert NatToString(35) == "35" && NatToString(38) == "38" && NatToString(32) == "32";
    ThreeDigitsValue("000");
    ThreeDigitsValue("500");
    ThreeDigitsValue("800");
  }

  /** The laptop table: thousands separators are dropped before reading. */
  lemma LaptopTablePrices()
    ensures ExtractPrices(LaptopTable) == [35000, 38500, 32800]
  {
    LaptopPricesGrouped();
    GroupedPricedThree(LaptopTable, [35, 38, 32], ["000", "500", "800"], [35000, 38500, 32800]);
  }

  lemma LaptopTableEstimate()
    ensures AnalyzePrice(LaptopTable).priceRange.minPrice == 32800
    ensures AnalyzePrice(LaptopTable).priceRange.maxPrice == 38500
  {
    LaptopTablePrices();
    EstimateOfThree(LaptopTable, 35000, 38500, 32800, 32800, 38500);
  }
}
