/** Product extraction (`parse_row` in app/parse.py): each product container
    becomes one `Product`, fields resolved in the source's order, with a
    price fallback and a rating fallback decided independently. */
module Extract {
  import opened Wrappers
  import opened Text
  import opened Numbers

  /** What the selectors of `parse_row` find inside one product container.
      `None` means the selector matched nothing, where Selenium's
      `find_element` raises `NoSuchElementException`. */
  datatype Item = Item(
    title: Option<string>,            // `title` attribute of the `.title` element
    description: Option<string>,      // text of `p.description[itemprop='description']`
    structuredPrice: Option<string>,  // text of `span[itemprop='price']`
    genericPrice: Option<string>,     // text of `.price`
    dataRating: Option<string>,       // `data-rating` attribute of `p[data-rating]`
    stars: nat,                       // number of `.ws-icon.ws-icon-star` elements
    reviewCount: Option<string>)      // text of `span[itemprop='reviewCount']`

  /** The record `parse_row` builds for one container. */
  datatype Product = Product(
    title: string,
    description: string,
    price: Decimal,
    rating: int,
    numOfReviews: int)

  /** The single-element locators `parse_row` queries with `find_element`. */
  datatype Locator =
    | TitleClass
    | DescriptionSelector
    | StructuredPriceSelector
    | PriceClass
    | DataRatingSelector
    | ReviewCountSelector

  /** What `parse_row` can raise: a missing element, or text that `int()` or
      `float()` rejects (carrying the text they were given). */
  datatype Error = NoSuchElement(locator: Locator) | ValueError(literal: string)

  /** `find_element`: the element's text, or `NoSuchElementException`. */
  function Find(found: Option<string>, locator: Locator): (r: Result<string, Error>)
    ensures r.Success? <==> found.Some?
    ensures r.Success? ==> r.value == found.value
    ensures r.Failure? ==> r.error == NoSuchElement(locator)
  {
    match found
    case Some(text) => Success(text)
    case None => Failure(NoSuchElement(locator))
  }

  /** `float(text)`, raising `ValueError` on a literal it rejects. */
  function ToFloat(text: string): Result<Decimal, Error> {
    match ParseFloat(text)
    case Some(d) => Success(d)
    case None => Failure(ValueError(text))
  }

  /** `int(text)`, raising `ValueError` on a literal it rejects. */
  function ToInt(text: string): Result<int, Error> {
    match ParseInt(text)
    case Some(n) => Success(n)
    case None => Failure(ValueError(text))
  }

  /** `text.replace("$", "").replace(",", "")`: every dollar sign and every
      comma goes, wherever it stands, not only a leading one. */
  function CleanPrice(text: string): (r: string)
    ensures '$' !in r && ',' !in r
  {
    var noDollar := RemoveAll(text, '$');
    RemoveAllKeepsOthers(noDollar, ',');
    var r := RemoveAll(noDollar, ',');
    assert multiset(r)['$'] == multiset(noDollar)['$'] == 0;
    r
  }

  /** Only dollar signs and commas go: every other character of the text
      keeps its multiplicity. */
  lemma CleanPriceKeepsOthers(text: string)
    ensures forall c | c != '$' && c != ',' :: multiset(CleanPrice(text))[c] == multiset(text)[c]
  {
    RemoveAllKeepsOthers(text, '$');
    RemoveAllKeepsOthers(RemoveAll(text, '$'), ',');
  }

  /** Cleaning a cleaned price changes nothing. */
  lemma CleanPriceIdempotent(text: string)
    ensures CleanPrice(CleanPrice(text)) == CleanPrice(text)
  {
    var r := CleanPrice(text);
    RemoveAllAbsent(r, '$');
    RemoveAllAbsent(r, ',');
  }

  /** The two `replace` calls could be made in either order. */
  lemma CleanPriceOrderIrrelevant(text: string)
    ensures CleanPrice(text) == RemoveAll(RemoveAll(text, ','), '$')
  {
    RemoveAllCommutes(text, '$', ',');
  }

  /** Cleaning keeps the order of the characters that remain: it works piece
      by piece over a concatenation. */
  lemma CleanPriceAppend(a: string, b: string)
    ensures CleanPrice(a + b) == CleanPrice(a) + CleanPrice(b)
  {
    RemoveAllAppend(a, b, '$');
    RemoveAllAppend(RemoveAll(a, '$'), RemoveAll(b, '$'), ',');
  }

  /** One price text, cleaned, then parsed with `float()`; a parse failure is
      a `ValueError` about the cleaned text, never a missing element. */
  function PriceFromText(text: string): (r: Result<Decimal, Error>)
    ensures r.Success? <==> ParseFloat(CleanPrice(text)).Some?
    ensures r.Success? ==> Some(r.value) == ParseFloat(CleanPrice(text))
    ensures r.Failure? ==> r.error == ValueError(CleanPrice(text))
  {
    ToFloat(CleanPrice(text))
  }

  /** The price fallback (app/parse.py:42-52). The structured price's text,
      when that element exists, alone decides the price, and a text there
      that fails to parse raises: only `NoSuchElementException` is caught, so
      the generic `.price` element is consulted only when the structured
      element is absent. Both missing raises for `.price`. */
  function ResolvePrice(structured: Option<string>, generic: Option<string>): (r: Result<Decimal, Error>)
    ensures structured.Some? ==> r == PriceFromText(structured.value)
    ensures structured.None? && generic.Some? ==> r == PriceFromText(generic.value)
    ensures r.Failure? && r.error.NoSuchElement? <==> structured.None? && generic.None?
    ensures r.Failure? && r.error.NoSuchElement? ==> r.error.locator == PriceClass
  {
    match structured
    case Some(text) => PriceFromText(text)
    case None =>
      var text :- Find(generic, PriceClass);
      PriceFromText(text)
  }

  /** The generic price cannot change a price decided by a structured one. */
  lemma StructuredPriceTakesPrecedence(structured: string, generic1: Option<string>, generic2: Option<string>)
    ensures ResolvePrice(Some(structured), generic1) == ResolvePrice(Some(structured), generic2)
  {
  }

  /** The rating fallback (app/parse.py:54-64): the integer value of the
      `data-rating` attribute when its element exists (a text `int()` rejects
      raises), otherwise the number of star icons, which cannot fail and is
      never negative. */
  function ResolveRating(dataRating: Option<string>, stars: nat): (r: Result<int, Error>)
    ensures dataRating.None? ==> r == Success(stars)
    ensures dataRating.Some? ==> (r.Success? <==> ParseInt(dataRating.value).Some?)
    ensures dataRating.Some? && r.Success? ==> Some(r.value) == ParseInt(dataRating.value)
    ensures r.Failure? ==> dataRating.Some? && r.error == ValueError(dataRating.value)
  {
    match dataRating
    case Some(text) => ToInt(text)
    case None => Success(stars)
  }

  /** The icon count is consulted only when the attribute is absent. */
  lemma DataRatingTakesPrecedence(text: string, stars1: nat, stars2: nat)
    ensures ResolveRating(Some(text), stars1) == ResolveRating(Some(text), stars2)
  {
  }

  /** Everything `parse_row` needs of one container to build its product:
      the three fields without fallback are present, the price and the
      rating resolve, and the review count parses. */
  predicate Parses(item: Item) {
    && item.title.Some?
    && item.description.Some?
    && ResolvePrice(item.structuredPrice, item.genericPrice).Success?
    && ResolveRating(item.dataRating, item.stars).Success?
    && item.reviewCount.Some?
    && ParseInt(item.reviewCount.value).Some?
  }

  /** One iteration of the loop in `parse_row` (app/parse.py:33-81): title,
      description, price, rating, review count, in that order; the first
      failure is what the whole call raises. */
  function ParseItem(item: Item): (r: Result<Product, Error>)
    ensures r.Success? <==> Parses(item)
    ensures r.Success? ==>
      && r.value.title == item.title.value
      && r.value.description == item.description.value
      && Success(r.value.price) == ResolvePrice(item.structuredPrice, item.genericPrice)
      && Success(r.value.rating) == ResolveRating(item.dataRating, item.stars)
      && Some(r.value.numOfReviews) == ParseInt(item.reviewCount.value)
    ensures item.title.None? ==> r == Failure(NoSuchElement(TitleClass))
    ensures item.title.Some? && item.description.None? ==> r == Failure(NoSuchElement(DescriptionSelector))
    ensures item.title.Some? && item.description.Some? && ResolvePrice(item.structuredPrice, item.genericPrice).Failure?
            ==> r == Failure(ResolvePrice(item.structuredPrice, item.genericPrice).error)
    ensures item.title.Some? && item.description.Some? && ResolvePrice(item.structuredPrice, item.genericPrice).Success?
            && ResolveRating(item.dataRating, item.stars).Failure?
            ==> r == Failure(ResolveRating(item.dataRating, item.stars).error)
    ensures item.title.Some? && item.description.Some? && ResolvePrice(item.structuredPrice, item.genericPrice).Success?
            && ResolveRating(item.dataRating, item.stars).Success? && item.reviewCount.None?
            ==> r == Failure(NoSuchElement(ReviewCountSelector))
    ensures item.title.Some? && item.description.Some? && ResolvePrice(item.structuredPrice, item.genericPrice).Success?
            && ResolveRating(item.dataRating, item.stars).Success? && item.reviewCount.Some?
            && ParseInt(item.reviewCount.value).None?
            ==> r == Failure(ValueError(item.reviewCount.value))
  {
    var title :- Find(item.title, TitleClass);
    var description :- Find(item.description, DescriptionSelector);
    var price :- ResolvePrice(item.structuredPrice, item.genericPrice);
    var rating :- ResolveRating(item.dataRating, item.stars);
    var reviewText :- Find(item.reviewCount, ReviewCountSelector);
    var reviews :- ToInt(reviewText);
    Success(Product(title, description, price, rating, reviews))
  }

  /** `parse_row` (app/parse.py:28-83): one product per container, in
      container order, or (the first container that raises decides) the
      error of the first container that fails, and no partial list. */
  method ParseRow(row: seq<Item>) returns (r: Result<seq<Product>, Error>)
    ensures r.Success? <==> forall i | 0 <= i < |row| :: ParseItem(row[i]).Success?
    ensures r.Success? ==> |r.value| == |row|
    ensures r.Success? ==> forall i | 0 <= i < |row| :: ParseItem(row[i]) == Success(r.value[i])
    ensures r.Failure? ==>
      exists k | 0 <= k < |row| ::
        && (forall i | 0 <= i < k :: ParseItem(row[i]).Success?)
        && ParseItem(row[k]) == Failure(r.error)
  {
    var products: seq<Product> := [];
    var i := 0;
    while i < |row|
      invariant 0 <= i <= |row|
      invariant |products| == i
      invariant forall j | 0 <= j < i :: ParseItem(row[j]) == Success(products[j])
    {
      var p := ParseItem(row[i]);
      if p.Failure? {
        assert forall j | 0 <= j < i :: ParseItem(row[j]).Success?;
        assert ParseItem(row[i]) == Failure(p.error);
        return Failure(p.error);
      }
      var next := products + [p.value];
      forall j | 0 <= j <= i
        ensures ParseItem(row[j]) == Success(next[j])
      {
        if j < i { assert next[j] == products[j]; } else { assert next[j] == p.value; }
      }
      products, i := next, i + 1;
    }
    return Success(products);
  }

  /** Price and rating are resolved separately: two containers that agree on
      the rating sources get the same rating whatever their price elements,
      and two that agree on the price sources get the same price whatever
      their rating elements. */
  lemma PriceAndRatingIndependent(a: Item, b: Item)
    requires Parses(a) && Parses(b)
    ensures a.dataRating == b.dataRating && a.stars == b.stars
            ==> ParseItem(a).value.rating == ParseItem(b).value.rating
    ensures a.structuredPrice == b.structuredPrice && a.genericPrice == b.genericPrice
            ==> ParseItem(a).value.price == ParseItem(b).value.price
  {
  }

  /** A container whose only defect is an unparsable price still raises,
      whatever its rating elements hold: a failed price is never replaced by
      a default, and the error is the price's. */
  lemma PriceFailureIsFatal(item: Item)
    requires item.title.Some? && item.description.Some?
    requires ResolvePrice(item.structuredPrice, item.genericPrice).Failure?
    ensures ParseItem(item).Failure?
    ensures ParseItem(item).error == ResolvePrice(item.structuredPrice, item.genericPrice).error
  {
  }

  /** Digit groups of three separated by commas, as the catalog shows the
      whole-dollar part of a price. */
  function GroupThousands(ds: string): (r: string)
    requires AllDigits(ds)
    decreases |ds|
  {
    if |ds| <= 3 then ds
    else
      AllDigitsSlices(ds, |ds| - 3);
      GroupThousands(ds[..|ds| - 3]) + "," + ds[|ds| - 3..]
  }

  lemma AllDigitsSlices(ds: string, k: nat)
    requires AllDigits(ds) && k <= |ds|
    ensures AllDigits(ds[..k]) && AllDigits(ds[k..])
  {
    forall i | 0 <= i < |ds[k..]| ensures IsDigit(ds[k..][i]) { assert ds[k..][i] == ds[k + i]; }
  }

  lemma DigitsAreNotMarks(ds: string)
    requires AllDigits(ds)
    ensures '$' !in ds && ',' !in ds
  {
    forall k | 0 <= k < |ds| ensures ds[k] != '$' && ds[k] != ',' { assert IsDigit(ds[k]); }
  }

  /** Grouping adds commas and nothing else: removing every comma, as the
      price cleanup does, gives back the digits. */
  lemma {:induction false} GroupThousandsUngroups(ds: string)
    requires AllDigits(ds)
    ensures RemoveAll(GroupThousands(ds), ',') == ds
    decreases |ds|
  {
    if |ds| <= 3 {
      DigitsAreNotMarks(ds);
      RemoveAllAbsent(ds, ',');
    } else {
      var head := ds[..|ds| - 3];
      var tail := ds[|ds| - 3..];
      AllDigitsSlices(ds, |ds| - 3);
      DigitsAreNotMarks(tail);
      GroupThousandsUngroups(head);
      RemoveSeparator(GroupThousands(head), tail);
      assert ds == head + tail;
    }
  }

  /** Removing the commas around and inside a group joins the pieces. */
  lemma RemoveSeparator(g: string, tail: string)
    requires ',' !in tail
    ensures RemoveAll(g + "," + tail, ',') == RemoveAll(g, ',') + tail
  {
    var sep: string := [','];
    assert g + "," + tail == (g + sep) + tail;
    assert RemoveAll(sep, ',') == [] by {
      assert sep[1..] == [];
    }
    RemoveAllAppend(g, sep, ',');
    assert RemoveAll(g + sep, ',') == RemoveAll(g, ',');
    RemoveAllAppend(g + sep, tail, ',');
    RemoveAllAbsent(tail, ',');
  }

  /** Grouping brings in no dollar sign. */
  lemma {:induction false} GroupThousandsNoDollar(ds: string)
    requires AllDigits(ds)
    ensures '$' !in GroupThousands(ds)
    decreases |ds|
  {
    if |ds| <= 3 {
      DigitsAreNotMarks(ds);
    } else {
      AllDigitsSlices(ds, |ds| - 3);
      DigitsAreNotMarks(ds[|ds| - 3..]);
      GroupThousandsNoDollar(ds[..|ds| - 3]);
    }
  }

  /** Two digits for the cents. */
  function TwoDigits(m: nat): (r: string)
    requires m < 100
    ensures |r| == 2 && AllDigits(r) && DigitsValue(r) == m
  {
    var r := [DigitChar(m / 10), DigitChar(m % 10)];
    assert r[..1] == [DigitChar(m / 10)];
    assert r[..1][..0] == [];
    assert DigitsValue(r[..1]) == m / 10;
    r
  }

  /** A price as the catalog displays it: a dollar sign, the dollars with
      comma thousands separators, a point and two digits of cents, such as
      "$1,234.50". */
  function DisplayPrice(cents: nat): string {
    "$" + GroupThousands(NatToDigits(cents / 100)) + "." + TwoDigits(cents % 100)
  }

  /** The cents literal a displayed price cleans down to. */
  function CentsLiteral(cents: nat): string {
    NatToDigits(cents / 100) + "." + TwoDigits(cents % 100)
  }

  /** Cleaning a displayed price leaves the plain cents literal. */
  lemma CleanDisplayPrice(cents: nat)
    ensures CleanPrice(DisplayPrice(cents)) == CentsLiteral(cents)
  {
    var dollars := NatToDigits(cents / 100);
    var fraction := TwoDigits(cents % 100);
    var tail := "." + fraction;
    DigitsAreNotMarks(fraction);
    assert tail == ['.'] + fraction;
    assert DisplayPrice(cents) == ("$" + GroupThousands(dollars)) + tail;
    assert CentsLiteral(cents) == dollars + tail;
    CleanDollarAmount(dollars);
    CleanPriceUnmarked(tail);
    CleanPriceAppend("$" + GroupThousands(dollars), tail);
  }

  /** A dollar sign followed by a grouped amount cleans down to the amount's
      digits. */
  lemma CleanDollarAmount(dollars: string)
    requires AllDigits(dollars)
    ensures CleanPrice("$" + GroupThousands(dollars)) == dollars
  {
    var grouped := GroupThousands(dollars);
    GroupThousandsUngroups(dollars);
    GroupThousandsNoDollar(dollars);
    RemoveAllAbsent(grouped, '$');
    assert CleanPrice(grouped) == dollars;
    assert CleanPrice("$") == [];
    CleanPriceAppend("$", grouped);
  }

  /** A text without dollar signs and commas is already clean. */
  lemma CleanPriceUnmarked(text: string)
    requires '$' !in text && ',' !in text
    ensures CleanPrice(text) == text
  {
    RemoveAllAbsent(text, '$');
    RemoveAllAbsent(text, ',');
  }

  /** The digits of the dollars followed by the two cent digits spell the
      amount in cents. */
  lemma CentsDigitsValue(cents: nat)
    ensures AllDigits(NatToDigits(cents / 100) + TwoDigits(cents % 100))
    ensures DigitsValue(NatToDigits(cents / 100) + TwoDigits(cents % 100)) == cents
  {
    var dollars := NatToDigits(cents / 100);
    var fraction := TwoDigits(cents % 100);
    DigitsValueAppend(dollars, fraction);
    assert Pow10(|fraction|) == 100 by {
      assert Pow10(2) == 10 * Pow10(1) == 10 * (10 * Pow10(0));
    }
  }

  /** `float()` reads the cents literal as the exact amount in hundredths. */
  lemma ParseCentsLiteral(cents: nat)
    ensures ParseFloat(CentsLiteral(cents)) == Some(Decimal(cents, -2))
  {
    ParseFloatFixedPoint(NatToDigits(cents / 100), TwoDigits(cents % 100));
    CentsDigitsValue(cents);
  }

  /** Cleaning then parsing a displayed price recovers it exactly, to the
      cent: the `$` and the separators are what the cleanup removes. */
  lemma DisplayPriceRoundTrip(cents: nat)
    ensures PriceFromText(DisplayPrice(cents)) == Success(Decimal(cents, -2))
  {
    CleanDisplayPrice(cents);
    ParseCentsLiteral(cents);
  }
}
