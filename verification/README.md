# Product extraction and the "load more" loop of an e-commerce scraper

This project models the core of a Selenium scraper for a paginated
e-commerce catalog, `app/parse.py`. It models two pieces of that file in
Dafny and proves properties about them.

- **`parse_row`**: turns each product container into a `Product` record
  with five fields: title, description, price, rating and number of
  reviews.
  - The price is read from the structured `span[itemprop='price']` element.
    The generic `.price` element is used only when the structured one is
    missing.
  - The rating is the `data-rating` attribute. When that attribute is
    missing, it is the number of star icons.
  - Title, description and review count have no fallback.
  - A missing required element aborts the whole call: the title, the
    description, the review count, or both price elements. So does a price,
    `data-rating` or review count that does not parse.
- **The `while True` loop of `get_products_from_page`**: clicks the first
  "load more" button until no button is found or the first one is not
  displayed. The containers are then queried once more and their products
  extracted.

The browser is abstracted. A container is an `Item`: one optional field per
selector, holding the text or attribute that selector would find, plus the
number of star icons. One scan of the loop finds a `Page`: the "load more"
buttons. The browser's reaction to a click on a given button is an
`Activation` function, and its answer to the container query after the loop
is a `ContainerQuery` function. Both are passed as parameters. Python's `int()` and `float()` are modelled as partial
parsers. Where Python raises `ValueError`, they return `None`. A float
literal is kept exactly as spelled, as a `Decimal`: a mantissa and a power of
ten, so `10.00` is `Decimal(1000, -2)`. `Value` gives the number it stands
for.

Modules:

- `Wrappers`: `Option` and `Result`.
- `Text`: the whitespace trimming of `int()` and `float()`, `str.replace(c, "")`, digit strings.
- `Numbers`: `int()` and `float()`.
- `Extract`: `Item`, `Product`, the errors, price and rating resolution,
  `ParseItem` and `ParseRow`.
- `PageLoader`: the loop and `GetProductsFromPage`.
- `Scenarios`: concrete containers from both markup dialects.

Behaviour of the code worth knowing, each stated by the members named:

- Every `$` and every `,` is removed, not only a leading currency symbol
  (`Extract.CleanPrice`, `Scenarios.EveryDollarSignRemoved`).
- One failing container aborts the whole call, and no product of the row is
  returned (`Extract.ParseRow`).
- The loop has no bound and no deadline (`PageLoader.NoTerminationGuarantee`).
- Neither price nor rating is range-checked
  (`Scenarios.NegativePriceAccepted`, `Scenarios.RatingOutOfRangeAccepted`).

## Model

| member | source | states |
|---|---|---|
| Text.Strip | app/parse.py:47 | the text `int()`/`float()` read is an infix of the input with only whitespace (tab, line feed, vertical tab, form feed, carriage return, space) before and after it, and it neither starts nor ends with whitespace |
| Text.RemoveAll | app/parse.py:47 | `replace(c, "")` leaves no occurrence of `c` and never lengthens the text |
| Text.RemoveAllKeepsOthers | app/parse.py:47 | only `c` is removed: every other character keeps its count, and the length drops by exactly the number of `c`s |
| Text.RemoveAllAppend | app/parse.py:47 | removal keeps the order of the remaining characters: it distributes over concatenation |
| Text.RemoveAllAbsent | app/parse.py:47 | removing a character that does not occur leaves the text unchanged |
| Text.RemoveAllCommutes | app/parse.py:47 | two `replace` calls give the same result in either order |
| Numbers.ParseInt | app/parse.py:55-58 | `int()` rejects text with no digit; a negative result needs a `-` in the text |
| Numbers.ParseIntDigitLimit | app/parse.py:55-58 | `int()` accepts a digit string exactly when it has at most 4300 digits, CPython's default `sys.int_max_str_digits` |
| Numbers.ParseIntOnlyIntChars | app/parse.py:55-58 | every character of a text `int()` accepts is a digit, whitespace or a sign |
| Numbers.ParseIntRejectsJunk | app/parse.py:66-71 | `int()` raises on any text with another character, such as `"4x"` or `"4.0"` |
| Numbers.ParseIntRoundTrip | app/parse.py:66-71 | `int()` reads back every integer Python's `str` can write, that is one of at most 4300 digits |
| Numbers.ParseFloat | app/parse.py:47 | `float()` rejects text with no digit (the empty text included); a negative result needs a `-` in the text |
| Numbers.ParseFloatOnlyFloatChars | app/parse.py:47 | every character of a text `float()` accepts is a digit, whitespace, a sign, the point or an exponent mark |
| Numbers.ParseFloatRejectsJunk | app/parse.py:47 | `float()` raises on any text with another character, such as `"12abc"` |
| Numbers.TrailingZeroSameValue | app/parse.py:47 | a trailing zero after the point does not change the number a literal stands for |
| Numbers.ParseFloatExtendsParseInt | app/parse.py:47 | `float()` accepts every text `int()` accepts, with the same value |
| Numbers.ParseFloatFixedPoint | app/parse.py:47 | a literal `ip.fp` with a digit on at least one side of the point (`5.`, `.5` included) reads as the digits of `ip` and `fp` together, scaled down by the number of fractional digits |
| Extract.Find | app/parse.py:33-40 | `find_element` gives the found text, or raises `NoSuchElementException` naming that locator |
| Extract.CleanPrice | app/parse.py:47 | the cleaned price text contains no `$` and no `,` |
| Extract.CleanPriceKeepsOthers | app/parse.py:47 | cleaning removes only `$` and `,`: every other character keeps its count |
| Extract.CleanPriceIdempotent | app/parse.py:47 | cleaning a cleaned text changes nothing |
| Extract.CleanPriceOrderIrrelevant | app/parse.py:47 | removing `,` before `$` gives the same text |
| Extract.CleanPriceAppend | app/parse.py:47 | cleaning keeps the order of what remains: it distributes over concatenation |
| Extract.PriceFromText | app/parse.py:46-47 | the price is `float()` of the cleaned text; a rejected text raises `ValueError` about the cleaned text, never a missing element |
| Extract.ResolvePrice | app/parse.py:42-52 | a structured price alone decides the price, and an unparsable one raises with no fallback; the generic element is read only when the structured one is absent; a missing-element error arises exactly when both are absent, and it names `.price` |
| Extract.StructuredPriceTakesPrecedence | app/parse.py:42-48 | with a structured price present, no generic price changes the outcome |
| Extract.ResolveRating | app/parse.py:54-64 | with `data-rating` present, the rating is its `int()` value, or `ValueError` about that text; without it, the rating is the star-icon count, which cannot fail and is never negative |
| Extract.DataRatingTakesPrecedence | app/parse.py:54-58 | with `data-rating` present, the star-icon count never changes the outcome |
| Extract.ParseItem | app/parse.py:31-81 | a container gives a product exactly when the required fields are present and price, rating and review count resolve; title comes from the `title` attribute, description and review count from element text; errors arise in source order: a missing title first, then description, price, rating, a missing review count, and last an unparsable review count |
| Extract.PriceAndRatingIndependent | app/parse.py:42-64 | containers that agree on the rating sources get the same rating whatever their price elements, and the other way round |
| Extract.PriceFailureIsFatal | app/parse.py:42-52 | a container whose price does not resolve raises the price's error, whatever its rating and review elements hold |
| Extract.ParseRow | app/parse.py:28-83 | success exactly when every container parses; then one product per container, in container order; otherwise the error of the first failing container, with no partial list |
| Extract.GroupThousandsUngroups | app/parse.py:47 | removing every comma from a comma-grouped amount gives back its digits |
| Extract.CleanDisplayPrice | app/parse.py:47 | cleaning a price displayed as `$1,234.50` leaves `1234.50` |
| Extract.CleanDollarAmount | app/parse.py:47 | a dollar sign followed by a comma-grouped amount cleans down to the amount's digits |
| Extract.CleanPriceUnmarked | app/parse.py:47 | a text without `$` and `,` comes out of the cleanup unchanged |
| Extract.ParseCentsLiteral | app/parse.py:47 | `float()` reads `dollars.cc` as the exact number of cents over 100 |
| Extract.DisplayPriceRoundTrip | app/parse.py:46-47 | cleaning and parsing a displayed price recovers the exact amount in cents |
| PageLoader.Loop | app/parse.py:102-111 | the loop scans pages until one stops it: each scanned page but the last has a displayed first button, and the next page is what the browser shows after the next click on the button at index 0; the last page has no button or an undisplayed first one |
| PageLoader.Expand | app/parse.py:102-111 | the same from the first scan after navigation, with clicks numbered from 0 |
| PageLoader.FinalPage | app/parse.py:102-111 | the page the loop leaves the browser on satisfies the exit test |
| PageLoader.LoopFindsEveryRun | app/parse.py:102-111 | every run of the loop within the fuel is the run `Loop` returns |
| PageLoader.ExpandFindsEveryRun | app/parse.py:102-111 | every run within the fuel is the run `Expand` returns, so the pages the browser shows determine the loop's path |
| PageLoader.EverySequenceIsARun | app/parse.py:102-111 | every sequence of scans the loop can see is the run of some browser, so the click-numbered reaction restricts no timing of the scans themselves |
| PageLoader.LoopClicksOnlyFirstButton | app/parse.py:102-111 | each iteration clicks the first "load more" element only: how the browser would react to a click on any other element never changes the loop |
| PageLoader.ExpandFuelMonotone | app/parse.py:102-111 | more fuel never changes a loop that already stopped |
| PageLoader.NoTerminationGuarantee | app/parse.py:102-111 | against a browser that keeps the first button displayed, no fuel ends the loop: the source guarantees no termination |
| PageLoader.GetProductsFromPage | app/parse.py:102-120 | the products are those of the containers the query after the loop returns, given the last scanned page and the number of clicks: one per container, in order; otherwise the error of the first failing container |
| Scenarios.ThousandsSeparatorPrice | app/parse.py:42-47 | `"$1,234.50"` is the price 1234.50 |
| Scenarios.PlainPrice | app/parse.py:42-47 | `"$19.99"` is the price 19.99 |
| Scenarios.StructuredDialect | app/parse.py:31-81 | a container with price `"$10.00"`, `data-rating` 4 and 7 reviews gives price 10.00, rating 4 and 7 reviews |
| Scenarios.GenericDialect | app/parse.py:31-81 | a container with only a generic price `"$25.50"`, 5 star icons and 2 reviews gives price 25.50, rating 5 and 2 reviews |
| Scenarios.TwoSpellingsOfTenDollars | app/parse.py:42-47 | `"$10"` and `"$10.00"` give prices with one value but different spellings |
| Scenarios.BothPricesPresent | app/parse.py:42-48 | both price elements present with different texts: the structured one is the price |
| Scenarios.UnparsableStructuredPrice | app/parse.py:42-48 | an unparsable structured price raises `ValueError` although a parsable generic price exists |
| Scenarios.EveryDollarSignRemoved | app/parse.py:47 | `"$1$2,3"` cleans to `"123"` |
| Scenarios.NegativePriceAccepted | app/parse.py:47 | `"-$5"` is accepted as the price -5 |
| Scenarios.InformationSeparatorRejected | app/parse.py:47-58 | `int()` and `float()` raise on digits next to an information separator (0x1C-0x1F), which they do not skip as whitespace |
| Scenarios.RatingOutOfRangeAccepted | app/parse.py:54-58 | `data-rating` `"9"` gives rating 9 |
| Scenarios.MissingReviewCount | app/parse.py:66-71 | a container without a review count raises for that selector even when every other field resolves |

## Left out

- Selenium itself is not modelled: `driver.get`, `find_element(s)`, `get_attribute`, `.text` and `is_displayed`. Each selector's result is a field of `Item` or `Page`.
- `click_button` (app/parse.py:86-87) and its JavaScript click are the `Activation` parameter. What a click does to the page is up to the browser.
- Navigation to the page URL (app/parse.py:94) is not modelled. `GetProductsFromPage` starts from the page the browser shows afterwards.
- Consent-cookie dismissal (app/parse.py:96-100) is not modelled. It is a best-effort click that swallows every exception, so it has no observable result to state.
- CSV writing (app/parse.py:123-140), the URL list, `urljoin` and the default `webdriver.Chrome()` (app/parse.py:143-159) are not modelled. They are I/O and process setup.
- PageLoader.Expand: the source loop has no bound. The model gives it explicit fuel and returns `OutOfFuel` when the fuel runs out. This makes no termination claim: `NoTerminationGuarantee` shows none exists.
- PageLoader.GetProductsFromPage: requires that the loop stops within the given fuel. It says nothing about a page whose loop never stops. The container query is a free `ContainerQuery` parameter, so the model does not relate the containers to the scans before it.
- Numbers.ParseFloat: rejects some literals Python's `float()` accepts: `inf`, `nan` and `infinity`, digits grouped with `_`, non-ASCII digits, and non-ASCII whitespace around the literal. The value is exact. IEEE-754 rounding and the sign of zero are not modelled.
- Numbers.ParseInt: rejects some literals Python's `int()` accepts: digits grouped with `_`, non-ASCII digits, and non-ASCII whitespace around the literal. The 4300-digit limit is CPython's default from 3.11 on. Earlier versions have no limit, and `sys.set_int_max_str_digits` can change it; the model fixes the default.
- Extract.ParseItem: a product's price is the literal as spelled, not Python's `float`. `"$10"` and `"$10.00"` give products that are equal in Python but different records here (`Scenarios.TwoSpellingsOfTenDollars`). Compare prices through `Numbers.Value`.
- PageLoader.Loop: what a click does is the `Activation` parameter, a function of the scanned page, the clicked element's index and the click number. This can express any sequence of scans (`EverySequenceIsARun`), but it gives no probabilities or timing of asynchronous loading.
- Exceptions other than `NoSuchElementException` and `ValueError` are not modelled, for example a stale element or a dead browser session.
- The `title` attribute is treated as always readable once its element exists. Selenium may instead return `None` for it, which the source would store unchanged.
- The star count is the number of matching elements, as the source counts them. The model does not tell half or empty stars apart, and neither does the source.
