/** The extraction pass of the product search endpoint: result cards, as the
    page's selectors read them, turned into product records. */
module Extraction {
  import opened Options
  import opened Text
  import opened FilterMaps

  /** The placeholder stored in a record for a field the card does not carry. */
  const NotAvailable: string := "N/A"

  /** The Indian rupee sign that prefixes every composed price. */
  const Rupee: char := '\U{20B9}'

  /** One result card, as the raw strings its field selectors return. Text
      selectors yield the empty string when nothing matches; the image `src`
      attribute is absent altogether when there is no image element. */
  datatype Card = Card(
    title: string,
    priceWhole: string,
    priceFraction: string,
    reviews: string,
    stars: string,
    image: Option<string>)

  /** One record of the response's `products` list. */
  datatype Product = Product(
    title: string,
    price: string,
    reviews: string,
    stars: string,
    image: string)

  /** A card yields a record exactly when its trimmed title is non-empty. */
  predicate Titled(card: Card) {
    Trim(card.title) != []
  }

  /** What every emitted record looks like: a trimmed, non-empty title, a
      price that is the placeholder or starts with the rupee sign, and no
      field empty. */
  predicate WellFormed(p: Product) {
    && p.title != [] && Trimmed(p.title)
    && (p.price == NotAvailable || (p.price != [] && p.price[0] == Rupee))
    && p.reviews != [] && Trimmed(p.reviews)
    && p.stars != [] && Trimmed(p.stars)
    && p.image != []
  }

  /** `value || "N/A"` for a string: JavaScript treats only the empty string as falsy. */
  function OrNotAvailable(value: string): (r: string)
    ensures r != []
    ensures value != [] ==> r == value
    ensures value == [] ==> r == NotAvailable
  {
    if value == [] then NotAvailable else value
  }

  /** `image || "N/A"`: both a missing attribute and an empty one are falsy. */
  function ImageOrNotAvailable(image: Option<string>): (r: string)
    ensures r != []
    ensures image.Some? && image.value != [] ==> r == image.value
    ensures image.None? || image.value == [] ==> r == NotAvailable
  {
    OrNotAvailable(image.GetOr([]))
  }

  /** The display price built from the trimmed whole and fraction parts:
      the rupee sign, the whole part, a dot and the fraction (or "00" when
      the fraction is empty); the placeholder when there is no whole part. */
  function ComposePrice(whole: string, fraction: string): (price: string)
    ensures price != []
    ensures price == NotAvailable <==> whole == []
    ensures whole != [] ==> |price| > |whole| && price[0] == Rupee && price[1..|whole| + 1] == whole
  {
    if whole == [] then NotAvailable
    else [Rupee] + whole + "." + (if fraction == [] then "00" else fraction)
  }

  /** The position of the last occurrence of `c` in `s`, if any. */
  function LastIndexOf(s: string, c: char): (r: Option<nat>)
    ensures r.None? <==> c !in s
    ensures r.Some? ==> r.value < |s| && s[r.value] == c
    ensures r.Some? ==> forall j :: r.value < j < |s| ==> s[j] != c
  {
    if s == [] then None
    else if s[|s| - 1] == c then Some(|s| - 1)
    else LastIndexOf(s[..|s| - 1], c)
  }

  /** Reads a display price back into its whole and fraction parts, split
      at the last dot; the placeholder, and anything else not starting with
      the rupee sign, reads as no price. */
  function SplitPrice(price: string): Option<(string, string)> {
    if price == [] || price[0] != Rupee then None
    else
      var digits := price[1..];
      match LastIndexOf(digits, '.')
      case None => None
      case Some(i) => Some((digits[..i], digits[i + 1..]))
  }

  /** The price composition loses nothing but the difference between an
      empty fraction and "00": splitting a composed price gives the parts
      back, provided the fraction itself holds no dot. */
  lemma {:induction false} SplitComposePrice(whole: string, fraction: string)
    requires '.' !in fraction
    ensures whole == [] ==> SplitPrice(ComposePrice(whole, fraction)) == None
    ensures whole != [] ==>
      SplitPrice(ComposePrice(whole, fraction))
        == Some((whole, if fraction == [] then "00" else fraction))
  {
    if whole != [] {
      var f := if fraction == [] then "00" else fraction;
      var price := ComposePrice(whole, fraction);
      var digits := price[1..];
      assert digits == whole + "." + f;
      assert digits[|whole|] == '.';
      assert digits[|whole| + 1..] == f;
      assert digits[..|whole|] == whole;
      var i := LastIndexOf(digits, '.');
      assert i.Some?;
      assert i.value == |whole|;
    }
  }

  /** The three shapes of a price: both parts present, no fraction, no whole part. */
  lemma ComposePriceExamples()
    ensures ComposePrice("1,299", "99") == "\U{20B9}1,299.99"
    ensures ComposePrice("499", "") == "\U{20B9}499.00"
    ensures ComposePrice("", "99") == NotAvailable
  {
  }

  /** The record built from one card, or None when the card has no title.
      Every text field is trimmed; the image URL is taken as it stands. */
  function ExtractProduct(card: Card): (r: Option<Product>)
    ensures r.Some? <==> Titled(card)
    ensures r.Some? ==> WellFormed(r.value)
    ensures r.Some? ==> r.value.title == Trim(card.title)
    ensures r.Some? ==>
      r.value.price == ComposePrice(Trim(card.priceWhole), Trim(card.priceFraction))
    ensures r.Some? && Trim(card.reviews) != [] ==> r.value.reviews == Trim(card.reviews)
    ensures r.Some? && Trim(card.reviews) == [] ==> r.value.reviews == NotAvailable
    ensures r.Some? && Trim(card.stars) != [] ==> r.value.stars == Trim(card.stars)
    ensures r.Some? && Trim(card.stars) == [] ==> r.value.stars == NotAvailable
    ensures r.Some? && card.image.Some? && card.image.value != [] ==>
      r.value.image == card.image.value
    ensures r.Some? && (card.image.None? || card.image.value == []) ==>
      r.value.image == NotAvailable
  {
    var title := Trim(card.title);
    var price := ComposePrice(Trim(card.priceWhole), Trim(card.priceFraction));
    var reviews := Trim(card.reviews);
    var stars := Trim(card.stars);
    if title == [] then None
    else
      Some(Product(
        title,
        price,
        OrNotAvailable(reviews),
        OrNotAvailable(stars),
        ImageOrNotAvailable(card.image)))
  }

  /** The `products` list: each titled card's record, in card order. */
  function BuildProducts(cards: seq<Card>): (r: seq<Product>)
    ensures |r| <= |cards|
  {
    FilterMap(ExtractProduct, cards)
  }

  /** Every record in the list is well formed, and is the record of one of the cards. */
  lemma BuildProductsWellFormed(cards: seq<Card>)
    ensures |BuildProducts(cards)| <= |cards|
    ensures forall p :: p in BuildProducts(cards) ==> WellFormed(p)
  {
    forall p | p in BuildProducts(cards) ensures WellFormed(p) {
      FilterMapMembership(ExtractProduct, cards, p);
    }
  }

  /** A record is in the list exactly when some card yields it. */
  lemma BuildProductsMembership(cards: seq<Card>, p: Product)
    ensures p in BuildProducts(cards) <==>
      exists i :: 0 <= i < |cards| && ExtractProduct(cards[i]) == Some(p)
  {
    FilterMapMembership(ExtractProduct, cards, p);
  }

  /** The list is empty exactly when no card has a title. */
  lemma BuildProductsEmptyIff(cards: seq<Card>)
    ensures BuildProducts(cards) == [] <==> forall i :: 0 <= i < |cards| ==> !Titled(cards[i])
  {
    FilterMapEmptyIff(ExtractProduct, cards);
  }

  /** The positions of the titled cards, in increasing order. */
  function TitledIndices(cards: seq<Card>): (r: seq<nat>)
    ensures forall k :: 0 <= k < |r| ==> r[k] < |cards|
    ensures forall k, l :: 0 <= k < l < |r| ==> r[k] < r[l]
    ensures forall i :: 0 <= i < |cards| ==> (i in r <==> Titled(cards[i]))
  {
    KeptIndices(ExtractProduct, cards)
  }

  /** The list is the titled cards' records in place: as many records as
      titled cards, the k-th record being that of the k-th titled card. */
  lemma BuildProductsInPlace(cards: seq<Card>)
    ensures |BuildProducts(cards)| == |TitledIndices(cards)|
    ensures forall k :: 0 <= k < |TitledIndices(cards)| ==>
      ExtractProduct(cards[TitledIndices(cards)[k]]) == Some(BuildProducts(cards)[k])
  {
    FilterMapInPlace(ExtractProduct, cards);
  }

  /** Extracting from two runs of cards yields the records of the first
      followed by those of the second. */
  lemma BuildProductsAppend(a: seq<Card>, b: seq<Card>)
    ensures BuildProducts(a + b) == BuildProducts(a) + BuildProducts(b)
  {
    FilterMapAppend(ExtractProduct, a, b);
  }

  /** The extraction loop as the endpoint runs it: visit the cards in
      order and push the record of every titled one onto a list that
      starts empty. */
  method CollectProducts(cards: seq<Card>) returns (products: seq<Product>)
    ensures products == BuildProducts(cards)
  {
    products := [];
    var i := 0;
    while i < |cards|
      invariant 0 <= i <= |cards|
      invariant products == BuildProducts(cards[..i])
    {
      assert cards[..i + 1] == cards[..i] + [cards[i]];
      FilterMapSnoc(ExtractProduct, cards[..i], cards[i]);
      var record := ExtractProduct(cards[i]);
      if record.Some? {
        products := products + [record.value];
      }
      i := i + 1;
    }
    assert cards[..|cards|] == cards;
  }
}
