/** Item identification as `_identify_item` in `api/services/analysis_service.py`
    performs it without a vision model: keywords in the lower-cased final
    component of the image path select one of five fixed descriptions, probed
    in a fixed order; a name matching no keyword gets one of three book
    descriptions chosen at random. */
module Identify {
  import opened Wrappers
  import opened Text

  /** The `item_info` object: what the item is and what state it is in. */
  datatype ItemInfo = ItemInfo(name: string, series: string, year: string, condition: string)

  // Keyword groups probed, in this order, in the lower-cased file name.
  const BookWords: seq<string> := ["book", "novel", "textbook", "manual"]
  const PhoneWords: seq<string> := ["phone", "iphone", "samsung", "mobile"]
  const LaptopWords: seq<string> := ["laptop", "computer", "macbook", "notebook"]
  const WatchWords: seq<string> := ["watch", "smartwatch", "apple"]
  const CameraWords: seq<string> := ["camera", "canon", "nikon", "sony"]

  const ProgrammingBook: ItemInfo := ItemInfo("Programming Book", "Technical Manual", "2022", "Good")
  const IPhone: ItemInfo := ItemInfo("iPhone 12 Pro", "iPhone 12", "2020", "Good")
  const MacBookPro: ItemInfo := ItemInfo("MacBook Pro", "MacBook", "2021", "Excellent")
  const AppleWatch: ItemInfo := ItemInfo("Apple Watch Series 7", "Apple Watch", "2021", "Good")
  const CanonEos: ItemInfo := ItemInfo("Canon EOS R5", "Canon EOS", "2020", "Excellent")

  const EducationalBook: ItemInfo := ItemInfo("Educational Book", "Academic", "2023", "Good")
  const BusinessBook: ItemInfo := ItemInfo("Business Book", "Finance Guide", "2023", "Excellent")

  /** The descriptions the random fallback chooses among. */
  const UnknownChoices: seq<ItemInfo> := [EducationalBook, ProgrammingBook, BusinessBook]

  /** The keyword groups in probing order, and the description each selects. */
  const KeywordGroups: seq<seq<string>> := [BookWords, PhoneWords, LaptopWords, WatchWords, CameraWords]
  const KeywordItems: seq<ItemInfo> := [ProgrammingBook, IPhone, MacBookPro, AppleWatch, CanonEos]

  /** The five keyword-selected descriptions. */
  predicate IsKeywordItem(info: ItemInfo) {
    info in KeywordItems
  }

  /** The first group, from `g` on, with a word in `f`; `|KeywordGroups|` if none. */
  function FirstMatch(f: string, g: nat): (r: nat)
    requires g <= |KeywordGroups|
    ensures g <= r <= |KeywordGroups|
    ensures r < |KeywordGroups| ==> AnyContained(KeywordGroups[r], f)
    ensures forall h :: g <= h < r ==> !AnyContained(KeywordGroups[h], f)
    decreases |KeywordGroups| - g
  {
    if g == |KeywordGroups| then g
    else if AnyContained(KeywordGroups[g], f) then g
    else FirstMatch(f, g + 1)
  }

  /** The lower-cased final path component identification looks at. */
  function IdentifiedName(path: string): string {
    ToLower(BaseName(path))
  }

  /** `_identify_item`: the first keyword group, in the order book, phone,
      laptop, watch, camera, that has a word in the lower-cased file name
      decides the description; when none has, the fallback choice `pick`
      (the outcome of `random.choice`) does. */
  function IdentifyItem(path: string, pick: nat): (r: ItemInfo)
    requires pick < |UnknownChoices|
    ensures forall g :: 0 <= g < |KeywordGroups| ==>
              (AnyContained(KeywordGroups[g], IdentifiedName(path))
               && (forall h :: 0 <= h < g ==> !AnyContained(KeywordGroups[h], IdentifiedName(path)))
               ==> r == KeywordItems[g])
    ensures (forall g :: 0 <= g < |KeywordGroups| ==> !AnyContained(KeywordGroups[g], IdentifiedName(path)))
      ==> r == UnknownChoices[pick]
  {
    var m := FirstMatch(IdentifiedName(path), 0);
    if m < |KeywordGroups| then KeywordItems[m] else UnknownChoices[pick]
  }

  /** Identification never fails: the result is one of the five keyword
      descriptions or one of the three fallback descriptions, and it is a
      keyword description whenever some keyword group matches. */
  lemma IdentifyRange(path: string, pick: nat)
    requires pick < |UnknownChoices|
    ensures var r := IdentifyItem(path, pick);
      IsKeywordItem(r) || r in UnknownChoices
    ensures (exists g :: 0 <= g < |KeywordGroups| && AnyContained(KeywordGroups[g], IdentifiedName(path)))
      ==> IsKeywordItem(IdentifyItem(path, pick))
  {
    var m := FirstMatch(IdentifiedName(path), 0);
  }

  /** Every text holding `book` as part of a longer word such as `macbook` or
      `notebook` is identified as the programming book: the book group is
      probed before the laptop group. */
  lemma BookWordShadowsLaptop(path: string, pick: nat)
    requires pick < |UnknownChoices|
    requires Contains(IdentifiedName(path), "macbook") || Contains(IdentifiedName(path), "notebook")
    ensures IdentifyItem(path, pick) == ProgrammingBook
  {
    BookInside(IdentifiedName(path));
    BookWordGivesBook(path, pick);
  }

  /** `macbook` and `notebook` both hold `book`. */
  lemma BookInside(f: string)
    requires Contains(f, "macbook") || Contains(f, "notebook")
    ensures Contains(f, "book")
  {
    if Contains(f, "macbook") {
      ContainsPart(f, "macbook", "book", 3);
    } else {
      ContainsPart(f, "notebook", "book", 4);
    }
  }

  /** A name holding `book` selects the programming book, the first group probed. */
  lemma BookWordGivesBook(path: string, pick: nat)
    requires pick < |UnknownChoices|
    requires Contains(IdentifiedName(path), "book")
    ensures IdentifyItem(path, pick) == ProgrammingBook
  {
    assert KeywordGroups[0][0] == "book";
    assert AnyContained(KeywordGroups[0], IdentifiedName(path));
  }

  /** A character of a generated file name: a lower-case hexadecimal digit or
      one of the characters of the `.jpg` extension. */
  predicate IsStoredNameChar(c: char) {
    c in "0123456789abcdef" || c in ".jpg"
  }

  /** A name made of generated-name characters lacks every other character. */
  lemma LacksForeignChar(f: string, c: char)
    requires forall i :: 0 <= i < |f| ==> IsStoredNameChar(f[i])
    requires !IsStoredNameChar(c)
    ensures c !in f
  {
  }

  /** A word holding a character outside the generated-name alphabet does not
      occur in a generated name. */
  lemma ForeignWordAbsent(f: string, w: string, c: char)
    requires forall i :: 0 <= i < |f| ==> IsStoredNameChar(f[i])
    requires c in w && !IsStoredNameChar(c)
    ensures !Contains(f, w)
  {
    LacksForeignChar(f, c);
    MissingCharNotContained(f, w, c);
  }

  lemma NoBookWord(f: string)
    requires forall i :: 0 <= i < |f| ==> IsStoredNameChar(f[i])
    ensures !AnyContained(BookWords, f)
  {
    ForeignWordAbsent(f, "book", 'o');
    ForeignWordAbsent(f, "novel", 'o');
    ForeignWordAbsent(f, "textbook", 'x');
    ForeignWordAbsent(f, "manual", 'm');
  }

  lemma NoPhoneWord(f: string)
    requires forall i :: 0 <= i < |f| ==> IsStoredNameChar(f[i])
    ensures !AnyContained(PhoneWords, f)
  {
    ForeignWordAbsent(f, "phone", 'h');
    ForeignWordAbsent(f, "iphone", 'h');
    ForeignWordAbsent(f, "samsung", 's');
    ForeignWordAbsent(f, "mobile", 'm');
  }

  lemma NoLaptopWord(f: string)
    requires forall i :: 0 <= i < |f| ==> IsStoredNameChar(f[i])
    ensures !AnyContained(LaptopWords, f)
  {
    ForeignWordAbsent(f, "laptop", 'l');
    ForeignWordAbsent(f, "computer", 'm');
    ForeignWordAbsent(f, "macbook", 'm');
    ForeignWordAbsent(f, "notebook", 'n');
  }

  lemma NoWatchWord(f: string)
    requires forall i :: 0 <= i < |f| ==> IsStoredNameChar(f[i])
    ensures !AnyContained(WatchWords, f)
  {
    ForeignWordAbsent(f, "watch", 'w');
    ForeignWordAbsent(f, "smartwatch", 's');
    ForeignWordAbsent(f, "apple", 'l');
  }

  lemma NoCameraWord(f: string)
    requires forall i :: 0 <= i < |f| ==> IsStoredNameChar(f[i])
    ensures !AnyContained(CameraWords, f)
  {
    ForeignWordAbsent(f, "camera", 'm');
    ForeignWordAbsent(f, "canon", 'n');
    ForeignWordAbsent(f, "nikon", 'n');
    ForeignWordAbsent(f, "sony", 's');
  }

  /** No keyword of any group can occur in a name made only of hexadecimal
      digits and `.jpg`: every keyword holds a letter outside that alphabet. */
  lemma StoredNameMatchesNoKeyword(f: string)
    requires forall i :: 0 <= i < |f| ==> IsStoredNameChar(f[i])
    ensures forall g :: 0 <= g < |KeywordGroups| ==> !AnyContained(KeywordGroups[g], f)
  {
    NoBookWord(f);
    NoPhoneWord(f);
    NoLaptopWord(f);
    NoWatchWord(f);
    NoCameraWord(f);
  }

  /** A text without upper-case letters is its own lower-case form. */
  lemma ToLowerOfLower(s: string)
    requires forall i :: 0 <= i < |s| ==> !IsUpperAscii(s[i])
    ensures ToLower(s) == s
  {
  }

  /** The file name the store generates for an upload, `<32 hex digits>.jpg`,
      inside any directory, never matches a keyword, so identification of a
      stored image always falls back to the random choice among the three
      book descriptions. */
  lemma StoredImageUsesFallback(dir: string, token: string, pick: nat)
    requires |token| == 32 && forall i :: 0 <= i < |token| ==> token[i] in "0123456789abcdef"
    requires pick < |UnknownChoices|
    ensures IdentifyItem(dir + "/" + token + ".jpg", pick) == UnknownChoices[pick]
  {
    var name := token + ".jpg";
    StoredNameChars(token);
    assert dir + "/" + token + ".jpg" == dir + "/" + name;
    BaseNameOfJoin(dir, name);
    ToLowerOfLower(name);
    StoredNameMatchesNoKeyword(name);
  }

  /** A generated file name consists of generated-name characters only, and
      so has no `/` and no upper-case letter. */
  lemma StoredNameChars(token: string)
    requires forall i :: 0 <= i < |token| ==> token[i] in "0123456789abcdef"
    ensures forall i :: 0 <= i < |token + ".jpg"| ==> IsStoredNameChar((token + ".jpg")[i])
    ensures forall i :: 0 <= i < |token + ".jpg"| ==> !IsUpperAscii((token + ".jpg")[i])
    ensures '/' !in token + ".jpg"
  {
    var name := token + ".jpg";
    forall i | 0 <= i < |name| ensures IsStoredNameChar(name[i]) {
      if i < |token| { assert name[i] == token[i]; } else { assert name[i] in ".jpg"; }
    }
  }
}
