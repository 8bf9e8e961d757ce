/** Concrete containers the catalog serves, and what `parse_row` makes of
    them: the two markup dialects, the price and rating fallbacks, and the
    inputs the code lets through without a range check. */
module Scenarios {
  import opened Wrappers
  import opened Numbers
  import opened Text
  import opened Extract

  /** A one-digit count written the way the catalog writes it. */
  lemma IntLiteral(n: nat)
    requires n < 10
    ensures IntToString(n) == [DigitChar(n)]
    ensures ParseInt([DigitChar(n)]) == Some(n)
  {
    ParseIntRoundTrip(n);
  }

  /** Structured price with the thousands separator, as the catalog shows
      expensive laptops. */
  lemma ThousandsSeparatorPrice()
    ensures PriceFromText("$1,234.50") == Success(Decimal(123450, -2))
  {
    DisplayedThousands();
    DisplayPriceRoundTrip(123450);
  }

  lemma DisplayedThousands()
    ensures DisplayPrice(123450) == "$1,234.50"
  {
    Grouped1234();
    Cents50();
    assert 123450 / 100 == 1234 && 123450 % 100 == 50;
    assert DisplayPrice(123450) == "$" + "1,234" + "." + "50";
  }

  lemma Grouped1234()
    ensures GroupThousands(NatToDigits(1234)) == "1,234"
  {
    Digits1234();
    var ds := "1234";
    assert ds[..1] == "1" && ds[1..] == "234";
  }

  lemma Cents50()
    ensures TwoDigits(50) == "50"
  {
  }

  lemma Digits1234()
    ensures NatToDigits(1234) == "1234"
  {
    assert NatToDigits(12) == "12";
    assert NatToDigits(123) == "123";
  }

  lemma PlainPrice()
    ensures PriceFromText("$19.99") == Success(Decimal(1999, -2))
  {
    assert DisplayPrice(1999) == "$19.99";
    DisplayPriceRoundTrip(1999);
  }

  /** Python's `float` gives 10.0 for both "$10" and "$10.00". The model
      keeps the spelling: the two prices have the same `Value` but are
      different `Decimal`s, so the two products differ as records. */
  lemma TwoSpellingsOfTenDollars()
    ensures PriceFromText("$10") == Success(Decimal(10, 0))
    ensures PriceFromText("$10.00") == Success(Decimal(1000, -2))
    ensures Value(Decimal(10, 0)) == Value(Decimal(1000, -2))
  {
    TenDollarsPlain();
    TenDollarsCents();
    TenDollarsSameValue();
  }

  lemma TenDollarsCents()
    ensures PriceFromText("$10.00") == Success(Decimal(1000, -2))
  {
    assert DisplayPrice(1000) == "$10.00";
    DisplayPriceRoundTrip(1000);
  }

  lemma TenDollarsPlain()
    ensures PriceFromText("$10") == Success(Decimal(10, 0))
  {
    assert CleanPrice("$10") == "10" by {
      CleanPair('$', '1');
      assert "$10" == "$1" + "0";
      CleanPriceAppend("$1", "0");
      CleanPriceUnmarked("0");
    }
    TenLiteral();
  }

  lemma TenLiteral()
    ensures ParseFloat("10") == Some(Decimal(10, 0))
  {
    assert IntToString(10) == "10" by {
      assert NatToDigits(1) == "1";
    }
    ParseIntRoundTrip(10);
    ParseFloatExtendsParseInt("10", 10);
  }

  lemma TenDollarsSameValue()
    ensures Value(Decimal(10, 0)) == Value(Decimal(1000, -2))
  {
    TrailingZeroSameValue(100, -1);
    TrailingZeroSameValue(10, 0);
  }

  /** A container of the first dialect: structured price, numeric rating. */
  const StructuredItem := Item(
    title := Some("Asus VivoBook"),
    description := Some("15.6\", Core i3"),
    structuredPrice := Some("$10.00"),
    genericPrice := None,
    dataRating := Some("4"),
    stars := 0,
    reviewCount := Some("7"))

  /** A container of the second dialect: generic price, star icons. */
  const GenericItem := Item(
    title := Some("Galaxy Tab"),
    description := Some(""),
    structuredPrice := None,
    genericPrice := Some("$25.50"),
    dataRating := None,
    stars := 5,
    reviewCount := Some("2"))

  lemma StructuredDialect()
    ensures ParseItem(StructuredItem)
         == Success(Product("Asus VivoBook", "15.6\", Core i3", Decimal(1000, -2), 4, 7))
  {
    assert DisplayPrice(1000) == "$10.00";
    DisplayPriceRoundTrip(1000);
    IntLiteral(4);
    IntLiteral(7);
  }

  lemma GenericDialect()
    ensures ParseItem(GenericItem)
         == Success(Product("Galaxy Tab", "", Decimal(2550, -2), 5, 2))
  {
    assert DisplayPrice(2550) == "$25.50";
    DisplayPriceRoundTrip(2550);
    IntLiteral(2);
  }

  /** Both elements present with different texts: the structured one wins. */
  lemma BothPricesPresent()
    ensures ResolvePrice(Some("$10.00"), Some("$99.00")) == Success(Decimal(1000, -2))
  {
    assert DisplayPrice(1000) == "$10.00";
    DisplayPriceRoundTrip(1000);
  }

  /** An unparsable structured price raises; the generic price is not tried. */
  lemma UnparsableStructuredPrice()
    ensures ResolvePrice(Some("N/A"), Some("$5.00")) == Failure(ValueError("N/A"))
  {
    assert '$' !in "N/A" && ',' !in "N/A";
    RemoveAllAbsent("N/A", '$');
    RemoveAllAbsent("N/A", ',');
    assert !HasDigit("N/A");
  }

  /** Every dollar sign is removed, wherever it stands. */
  lemma EveryDollarSignRemoved()
    ensures CleanPrice("$1$2,3") == "123"
  {
    CleanPair('$', '1');
    CleanPair('$', '2');
    CleanPair(',', '3');
    assert "$1$2,3" == "$1" + "$2" + ",3";
    CleanPriceAppend("$1", "$2");
    CleanPriceAppend("$1" + "$2", ",3");
  }

  /** A mark followed by a digit cleans down to the digit. */
  lemma CleanPair(mark: char, digit: char)
    requires mark == '$' || mark == ','
    requires IsDigit(digit)
    ensures CleanPrice([mark, digit]) == [digit]
  {
    assert [mark, digit] == [mark] + [digit];
    CleanPriceAppend([mark], [digit]);
    assert [mark][1..] == [] && [digit][1..] == [];
    assert RemoveAll([digit], '$') == [digit];
    assert RemoveAll([digit], ',') == [digit];
  }

  /** The code does not bound the price below: a leading minus survives the
      cleanup and `float()` accepts it. */
  lemma NegativePriceAccepted()
    ensures PriceFromText("-$5") == Success(Decimal(-5, 0))
  {
    assert CleanPrice("-$5") == "-5";
    NegativeLiteral();
  }

  lemma NegativeLiteral()
    ensures ParseFloat("-5") == Some(Decimal(-5, 0))
  {
    assert IntToString(-5) == "-5" by { IntLiteral(5); }
    ParseIntRoundTrip(-5);
    ParseFloatExtendsParseInt("-5", -5);
  }

  /** `int()` and `float()` skip only tab, line feed, vertical tab, form
      feed, carriage return and space: an information separator next to the
      digits makes them raise, although `str.isspace` calls it whitespace. */
  lemma InformationSeparatorRejected()
    ensures ParseInt([28 as char, '7']).None?
    ensures ParseFloat(['5', 31 as char]).None?
  {
    ParseIntRejectsJunk([28 as char, '7'], 0);
    ParseFloatRejectsJunk(['5', 31 as char], 1);
  }

  /** The code does not bound the rating to 0..5. */
  lemma RatingOutOfRangeAccepted()
    ensures ResolveRating(Some("9"), 0) == Success(9)
  {
    IntLiteral(9);
  }

  /** A missing review count is fatal even when everything else resolves. */
  lemma MissingReviewCount()
    ensures ParseItem(GenericItem.(reviewCount := None)) == Failure(NoSuchElement(ReviewCountSelector))
  {
    GenericDialect();
  }
}
