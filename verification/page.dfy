/** The page phase of `get_products_from_page` (app/parse.py:90-120): the
    "load more" loop, then extraction from the containers the browser
    returns afterwards. The browser is abstracted to the pages it shows, its
    reaction to a click and its answer to the container query. */
module PageLoader {
  import opened Wrappers
  import opened Extract

  /** One element matching the "load more" selector, and whether Selenium's
      `is_displayed` reports it visible. */
  datatype MoreButton = MoreButton(displayed: bool)

  /** What one scan of the loop finds: the elements matching the "load
      more" selector, in document order. */
  datatype Page = Page(moreButtons: seq<MoreButton>)

  /** The browser's reaction to a programmatic click: `activate(page, b, n)`
      is the page the next scan finds after click number `n` (counting from
      0) on the `b`-th "load more" element of `page`. The click number stands
      for everything besides the scanned page that the reaction may depend
      on, such as how much asynchronously loaded content has arrived. */
  type Activation = (Page, nat, nat) -> Page

  /** The browser's answer to the container query after the loop
      (app/parse.py:113-116), given the page of the last scan and the number
      of clicks made. It is a separate observation: content may still change
      between the last scan and this query. */
  type ContainerQuery = (Page, nat) -> seq<Item>

  /** The exit test of the `while True` loop (app/parse.py:108): no button
      was found, or the first one found is not displayed. */
  predicate Stops(page: Page) {
    |page.moreButtons| == 0 || !page.moreButtons[0].displayed
  }

  /** A complete run of the loop from `page` after `clicks` earlier clicks:
      every page it scans but the last continues the loop and is followed by
      the page shown after the next click on its first button, the one at index 0; the last page
      stops the loop. */
  ghost predicate IsRunFrom(page: Page, activate: Activation, clicks: nat, trace: seq<Page>) {
    && |trace| >= 1
    && trace[0] == page
    && Stops(trace[|trace| - 1])
    && forall i | 0 <= i < |trace| - 1 :: !Stops(trace[i]) && trace[i + 1] == activate(trace[i], 0, clicks + i)
  }

  /** A complete run of the loop from the page shown after navigation. */
  ghost predicate IsRun(page: Page, activate: Activation, trace: seq<Page>) {
    IsRunFrom(page, activate, 0, trace)
  }

  /** The pages the loop scans, or `OutOfFuel` when it has not stopped after
      `fuel` clicks; the source itself has no bound. */
  datatype Expansion = Expanded(trace: seq<Page>) | OutOfFuel

  /** The "load more" loop (app/parse.py:102-111) after `clicks` earlier
      clicks, allowed at most `fuel` more. */
  function Loop(page: Page, activate: Activation, clicks: nat, fuel: nat): (r: Expansion)
    ensures r.Expanded? ==> IsRunFrom(page, activate, clicks, r.trace) && |r.trace| <= fuel + 1
    decreases fuel
  {
    if Stops(page) then Expanded([page])
    else if fuel == 0 then OutOfFuel
    else
      match Loop(activate(page, 0, clicks), activate, clicks + 1, fuel - 1)
      case OutOfFuel => OutOfFuel
      case Expanded(rest) => Expanded([page] + rest)
  }

  /** The whole loop, from the first scan, allowed at most `fuel` clicks. */
  function Expand(page: Page, activate: Activation, fuel: nat): (r: Expansion)
    ensures r.Expanded? ==> IsRun(page, activate, r.trace) && |r.trace| <= fuel + 1
  {
    Loop(page, activate, 0, fuel)
  }

  /** The page the loop leaves the browser on. */
  function FinalPage(page: Page, activate: Activation, fuel: nat): (last: Page)
    requires Expand(page, activate, fuel).Expanded?
    ensures Stops(last)
  {
    var trace := Expand(page, activate, fuel).trace;
    trace[|trace| - 1]
  }

  /** Conversely, every run of the loop that fits in the fuel is the one
      `Loop` finds. */
  lemma {:induction false} LoopFindsEveryRun(page: Page, activate: Activation, clicks: nat, fuel: nat, trace: seq<Page>)
    requires IsRunFrom(page, activate, clicks, trace) && |trace| <= fuel + 1
    ensures Loop(page, activate, clicks, fuel) == Expanded(trace)
    decreases fuel
  {
    if |trace| == 1 {
      assert trace == [page];
    } else {
      assert !Stops(page);
      var rest := trace[1..];
      assert IsRunFrom(activate(page, 0, clicks), activate, clicks + 1, rest) by {
        forall i | 0 <= i < |rest| - 1
          ensures !Stops(rest[i]) && rest[i + 1] == activate(rest[i], 0, clicks + 1 + i)
        {
          assert rest[i] == trace[i + 1] && rest[i + 1] == trace[i + 2];
        }
      }
      LoopFindsEveryRun(activate(page, 0, clicks), activate, clicks + 1, fuel - 1, rest);
      assert [page] + rest == trace;
    }
  }

  /** Every run of the loop that fits in the fuel is the one `Expand`
      returns: the pages the browser shows determine the loop's path. */
  lemma ExpandFindsEveryRun(page: Page, activate: Activation, fuel: nat, trace: seq<Page>)
    requires IsRun(page, activate, trace) && |trace| <= fuel + 1
    ensures Expand(page, activate, fuel) == Expanded(trace)
  {
    LoopFindsEveryRun(page, activate, 0, fuel, trace);
  }

  /** The browser that shows `pages` one after the other: the page after
      click `n` is `pages[n + 1]`, whatever page is on screen and whichever
      button is clicked. */
  function Replay(pages: seq<Page>): Activation {
    (q: Page, b: nat, n: nat) => if n + 1 < |pages| then pages[n + 1] else q
  }

  /** Every sequence of scans that the loop can see (each page but the last
      has a displayed first button, the last has none) is the run of some
      browser, however its content was loaded. */
  lemma EverySequenceIsARun(pages: seq<Page>)
    requires |pages| >= 1 && Stops(pages[|pages| - 1])
    requires forall i | 0 <= i < |pages| - 1 :: !Stops(pages[i])
    ensures IsRun(pages[0], Replay(pages), pages)
  {
  }

  /** Each iteration clicks the first "load more" element and no other:
      two browsers that react alike to clicks on the element at index 0 give
      the same loop, whatever a click on another element would do. */
  lemma {:induction false} LoopClicksOnlyFirstButton(page: Page, a1: Activation, a2: Activation, clicks: nat, fuel: nat)
    requires forall q: Page, n: nat :: a1(q, 0, n) == a2(q, 0, n)
    ensures Loop(page, a1, clicks, fuel) == Loop(page, a2, clicks, fuel)
    decreases fuel
  {
    if !Stops(page) && fuel > 0 {
      assert a1(page, 0, clicks) == a2(page, 0, clicks);
      LoopClicksOnlyFirstButton(a1(page, 0, clicks), a1, a2, clicks + 1, fuel - 1);
    }
  }

  /** More fuel never changes a loop that already stopped. */
  lemma ExpandFuelMonotone(page: Page, activate: Activation, fuel: nat, more: nat)
    requires Expand(page, activate, fuel).Expanded?
    requires fuel <= more
    ensures Expand(page, activate, more) == Expand(page, activate, fuel)
  {
    ExpandFindsEveryRun(page, activate, more, Expand(page, activate, fuel).trace);
  }

  /** The loop has no deadline: against a browser that keeps the first
      button displayed after every click, no amount of fuel ends it. */
  lemma {:induction false} NoTerminationGuarantee(page: Page, activate: Activation, clicks: nat, fuel: nat)
    requires !Stops(page)
    requires forall q: Page, n: nat :: !Stops(activate(q, 0, n))
    ensures Loop(page, activate, clicks, fuel) == OutOfFuel
    decreases fuel
  {
    if fuel > 0 {
      NoTerminationGuarantee(activate(page, 0, clicks), activate, clicks + 1, fuel - 1);
    }
  }

  /** The number of clicks the loop made before it stopped. */
  function Clicks(page: Page, activate: Activation, fuel: nat): (n: nat)
    requires Expand(page, activate, fuel).Expanded?
    ensures n <= fuel
  {
    |Expand(page, activate, fuel).trace| - 1
  }

  /** `get_products_from_page` after navigation (app/parse.py:102-120): run
      the loop, query the containers once it stops, and extract one product
      per container, in document order. */
  method GetProductsFromPage(start: Page, activate: Activation, query: ContainerQuery, fuel: nat)
      returns (r: Result<seq<Product>, Error>)
    requires Expand(start, activate, fuel).Expanded?
    ensures var row := query(FinalPage(start, activate, fuel), Clicks(start, activate, fuel));
      r.Success? <==> forall i | 0 <= i < |row| :: ParseItem(row[i]).Success?
    ensures var row := query(FinalPage(start, activate, fuel), Clicks(start, activate, fuel));
      r.Success? ==> |r.value| == |row| && forall i | 0 <= i < |row| :: ParseItem(row[i]) == Success(r.value[i])
    ensures var row := query(FinalPage(start, activate, fuel), Clicks(start, activate, fuel));
      r.Failure? ==>
        exists k | 0 <= k < |row| ::
          && (forall i | 0 <= i < k :: ParseItem(row[i]).Success?)
          && ParseItem(row[k]) == Failure(r.error)
  {
    var row := query(FinalPage(start, activate, fuel), Clicks(start, activate, fuel));
    r := ParseRow(row);
  }
}
