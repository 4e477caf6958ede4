/** `main`: drive the browser through the route search, collect the step
    instructions, write them to the workbook, take the screenshot, and map
    the outcome (or the exception that ended the run) to the exit code. */
module RouteExtraction {
  import opened Wrappers
  import opened Page
  import opened Locate
  import opened Polling
  import opened Instructions
  import opened Sheet

  const ConsentLocators: seq<Locator> := [
    Locator(CssSelector, "button[aria-label='Accept all']"),
    Locator(CssSelector, "button[aria-label='I agree']")
  ]

  const DirectionsLocators: seq<Locator> := [
    Locator(CssSelector, "button[data-value='Directions']"),
    Locator(CssSelector, "button[aria-label='Directions']"),
    Locator(XPath, "//button[@data-value='Directions']")
  ]

  const StartLocators: seq<Locator> := [
    Locator(CssSelector, "input[aria-label^='Choose starting point']"),
    Locator(CssSelector, "input[aria-label^='Starting point']"),
    Locator(CssSelector, "input.tactile-searchbox-input[aria-label*='starting']"),
    Locator(CssSelector, "input.tactile-searchbox-input")
  ]

  const DestinationLocators: seq<Locator> := [
    Locator(CssSelector, "input[aria-label^='Choose destination']"),
    Locator(CssSelector, "input[aria-label^='Destination']"),
    Locator(CssSelector, "input.tactile-searchbox-input[aria-label*='destination']"),
    Locator(CssSelector, "input.tactile-searchbox-input")
  ]

  const RouteCardLocators: seq<Locator> := [Locator(CssSelector, "div[data-trip-index]")]

  const StepsToggleLocators: seq<Locator> := [
    Locator(CssSelector, "button[data-value='Steps']"),
    Locator(CssSelector, "button[aria-label='Steps']"),
    Locator(CssSelector, "button[data-value='Details']"),
    Locator(CssSelector, "button[aria-label='Details']")
  ]

  const StepLocator: Locator := Locator(CssSelector, "div[data-step-index]")

  /** The address fragment that shows the directions view is open. */
  const DirectionsPath: string := "/dir/"

  /** The calls into the browser and the file system that may raise. */
  datatype Stage =
    | Launch            // webdriver.Chrome(options=options)
    | OpenSite          // driver.get("https://maps.google.com")
    | ClickConsent      // the click inside the consent try_click_optional
    | ClickDirections   // directions_button.click()
    | EnterStart        // clear and send_keys on the start input
    | EnterDestination  // clear and send_keys on the destination input
    | ClickRoute        // route_cards[0].click()
    | ClickStepsToggle  // the click inside the steps try_click_optional
    | SaveWorkbook      // workbook.save(file_path)
    | SaveScreenshot    // save_full_page_screenshot

  /** What the browser shows and does during one run: the pages seen on the
      polls of each wait (within that wait's timeout), the addresses seen
      while waiting for the directions view, the page the step elements are
      read from, and the failure each fallible call raises, if any. */
  datatype Scenario = Scenario(
    consentPages: seq<Page>,
    directionsPages: seq<Page>,
    startPages: seq<Page>,
    destinationPages: seq<Page>,
    urls: seq<string>,
    routePages: seq<Page>,
    togglePages: seq<Page>,
    stepPages: seq<Page>,
    stepsPage: Page,
    faults: map<Stage, Failure>)

  /** How a run ends: the exit code, the exception that stopped it (if any),
      the worksheet written to disk, whether the screenshot was written, and
      whether `driver.quit()` ran. */
  datatype RunOutcome = RunOutcome(
    exitCode: int,
    failure: Option<Failure>,
    workbook: Option<Worksheet>,
    screenshotSaved: bool,
    browserClosed: bool)

  function Fault(sc: Scenario, stage: Stage): (f: Option<Failure>)
    ensures f.Some? <==> stage in sc.faults
    ensures f.Some? ==> f.value == sc.faults[stage]
  {
    if stage in sc.faults then Some(sc.faults[stage]) else None
  }

  /** `part` occurs in `whole` starting at index `i`. */
  ghost predicate OccursAt(whole: string, part: string, i: int)
  {
    0 <= i && i + |part| <= |whole| && whole[i..i + |part|] == part
  }

  /** Python's `part in whole` on strings. */
  function Contains(whole: string, part: string): (r: bool)
    ensures r <==> exists i :: OccursAt(whole, part, i)
  {
    if |part| > |whole| then false
    else if whole[..|part|] == part then
      assert OccursAt(whole, part, 0);
      true
    else
      var r := Contains(whole[1..], part);
      assert r <==> exists i :: OccursAt(whole, part, i) by {
        forall i | OccursAt(whole[1..], part, i) ensures OccursAt(whole, part, i + 1) {
          assert whole[1..][i..i + |part|] == whole[i + 1..i + 1 + |part|];
        }
        if exists i :: OccursAt(whole, part, i) {
          var i :| OccursAt(whole, part, i);
          assert i != 0;
          assert whole[1..][i - 1..i - 1 + |part|] == whole[i..i + |part|];
          assert OccursAt(whole[1..], part, i - 1);
        }
      }
      r
  }

  /** Whatever surrounds it, a fragment inside an address is found. */
  lemma ContainsInfix(before: string, part: string, after: string)
    ensures Contains(before + part + after, part)
  {
    var whole := before + part + after;
    assert whole[|before|..|before| + |part|] == part;
    assert OccursAt(whole, part, |before|);
  }

  /** `EC.url_contains("/dir/")`. */
  function UrlScan(): string -> Option<bool>
  {
    url => if Contains(url, DirectionsPath) then Some(true) else None
  }

  /** `EC.presence_of_all_elements_located` for the step elements: the list of
      matches, which counts only when it is not empty. */
  function StepsScan(): Page -> Option<seq<Element>>
  {
    p => var es := FindElements(p, StepLocator); if es != [] then Some(es) else None
  }

  /** The step elements the filter loop sees: the matches on the page once
      the wait succeeds, or the empty list when the wait times out. */
  ghost function CapturedSteps(sc: Scenario): seq<Element>
  {
    match Until(StepsScan(), sc.stepPages)
    case Found(_) => FindElements(sc.stepsPage, StepLocator)
    case TimedOut => []
  }

  /** The wait for the directions view succeeds exactly when some address
      seen during it contains "/dir/". */
  lemma DirectionsViewWait(urls: seq<string>)
    ensures Until(UrlScan(), urls).Found? <==>
      exists k, i :: 0 <= k < |urls| && OccursAt(urls[k], DirectionsPath, i)
  {
    if Until(UrlScan(), urls).Found? {
      var k :| 0 <= k < |urls| && UrlScan()(urls[k]).Some?;
      var i :| OccursAt(urls[k], DirectionsPath, i);
    }
  }

  /** The step wait times out exactly when no step element is present on any
      poll. */
  lemma StepWaitTimesOut(pages: seq<Page>)
    ensures Until(StepsScan(), pages).TimedOut? <==>
      forall k :: 0 <= k < |pages| ==> FindElements(pages[k], StepLocator) == []
  {
    if !Until(StepsScan(), pages).TimedOut? {
      var k :| 0 <= k < |pages| && StepsScan()(pages[k]).Some?;
      assert FindElements(pages[k], StepLocator) != [];
    }
  }

  /** The filter sees no steps exactly when the wait timed out or the page
      read after it shows none; otherwise it sees that page's matches. */
  lemma CapturedStepsCases(sc: Scenario)
    ensures CapturedSteps(sc) == [] <==>
      || (forall k :: 0 <= k < |sc.stepPages| ==> FindElements(sc.stepPages[k], StepLocator) == [])
      || FindElements(sc.stepsPage, StepLocator) == []
    ensures CapturedSteps(sc) != [] ==> CapturedSteps(sc) == FindElements(sc.stepsPage, StepLocator)
  {
    StepWaitTimesOut(sc.stepPages);
  }

  /** Every wait whose timeout ends the run succeeds. */
  ghost predicate RequiredWaitsFound(sc: Scenario)
  {
    && WaitForAnyClickableElement(sc.directionsPages, DirectionsLocators).Found?
    && WaitForAnyElement(sc.startPages, StartLocators).Found?
    && WaitForAnyElement(sc.destinationPages, DestinationLocators).Found?
    && Until(UrlScan(), sc.urls).Found?
    && WaitForAnyElements(sc.routePages, RouteCardLocators).Found?
  }

  /** No call between opening the site and opening the steps raises an
      exception that escapes: no required step fails, and neither optional
      click fails with anything but a timeout. */
  ghost predicate NavigationFaultFree(sc: Scenario)
  {
    && OpenSite !in sc.faults
    && TryClickOptional(sc.consentPages, ConsentLocators, Fault(sc, ClickConsent)).Ok?
    && ClickDirections !in sc.faults
    && EnterStart !in sc.faults
    && EnterDestination !in sc.faults
    && ClickRoute !in sc.faults
    && TryClickOptional(sc.togglePages, StepsToggleLocators, Fault(sc, ClickStepsToggle)).Ok?
  }

  /** No call of the run raises an exception that reaches `main`'s handlers. */
  ghost predicate NoFatalFault(sc: Scenario)
  {
    && Launch !in sc.faults
    && NavigationFaultFree(sc)
    && SaveWorkbook !in sc.faults
    && SaveScreenshot !in sc.faults
  }

  /** Timeouts raised by the two optional clicks never end the run. */
  lemma OptionalClickTimeoutsHarmless(sc: Scenario)
    requires forall stage :: stage in sc.faults ==>
      (stage == ClickConsent || stage == ClickStepsToggle) && sc.faults[stage] == TimeoutFailure
    ensures NoFatalFault(sc)
  {
    assert Launch !in sc.faults && OpenSite !in sc.faults && ClickDirections !in sc.faults;
    assert EnterStart !in sc.faults && EnterDestination !in sc.faults && ClickRoute !in sc.faults;
    assert SaveWorkbook !in sc.faults && SaveScreenshot !in sc.faults;
  }

  /** The `except` clauses of `main`: every caught exception gives 1, a run
      that reaches `return 0` gives 0. */
  function ExitCode(failure: Option<Failure>): (code: int)
    ensures code == 0 <==> failure.None?
    ensures code == 0 || code == 1
  {
    match failure
    case None => 0
    case Some(TimeoutFailure) => 1
    case Some(DriverFailure) => 1
    case Some(OtherFailure) => 1
  }

  /** The first part of the `try` block of `main`, after the browser started:
      open the site, dismiss the consent dialog, open the directions panel,
      enter both places, wait for the directions view and the route cards,
      pick the first route and open its steps. */
  method Navigate(sc: Scenario) returns (failure: Option<Failure>)
    ensures failure.None? <==> RequiredWaitsFound(sc) && NavigationFaultFree(sc)
    ensures failure.Some? ==> failure.value == TimeoutFailure || failure.value in sc.faults.Values
    ensures sc.faults == map[] && RequiredWaitsFound(sc) ==> failure.None?
    ensures sc.faults == map[] && !RequiredWaitsFound(sc) ==> failure == Some(TimeoutFailure)
    ensures WaitForAnyElements(sc.routePages, RouteCardLocators).TimedOut? ==> failure.Some?
  {
    if OpenSite in sc.faults {
      return Some(sc.faults[OpenSite]);
    }

    var consent := TryClickOptional(sc.consentPages, ConsentLocators, Fault(sc, ClickConsent));
    if consent.Err? {
      return Some(consent.error);
    }

    var directions := WaitForAnyClickableElement(sc.directionsPages, DirectionsLocators);
    if directions.TimedOut? {
      return Some(TimeoutFailure);
    }
    if ClickDirections in sc.faults {
      return Some(sc.faults[ClickDirections]);
    }

    var start := WaitForAnyElement(sc.startPages, StartLocators);
    if start.TimedOut? {
      return Some(TimeoutFailure);
    }
    if EnterStart in sc.faults {
      return Some(sc.faults[EnterStart]);
    }

    var destination := WaitForAnyElement(sc.destinationPages, DestinationLocators);
    if destination.TimedOut? {
      return Some(TimeoutFailure);
    }
    if EnterDestination in sc.faults {
      return Some(sc.faults[EnterDestination]);
    }

    var directionsView := Until(UrlScan(), sc.urls);
    if directionsView.TimedOut? {
      return Some(TimeoutFailure);
    }

    var routeCards := WaitForAnyElements(sc.routePages, RouteCardLocators);
    if routeCards.TimedOut? {
      return Some(TimeoutFailure);
    }
    // The wait only ever returns a non-empty list, so the "no routes" check
    // that follows it in `main` never raises.
    assert routeCards.value != [];
    if ClickRoute in sc.faults {
      return Some(sc.faults[ClickRoute]);
    }

    var toggle := TryClickOptional(sc.togglePages, StepsToggleLocators, Fault(sc, ClickStepsToggle));
    if toggle.Err? {
      return Some(toggle.error);
    }
    return None;
  }

  /** The rest of the `try` block: wait for the step elements (an empty list
      on timeout), filter their texts, save the workbook, then the screenshot. */
  method CaptureAndSave(sc: Scenario) returns (failure: Option<Failure>, workbook: Option<Worksheet>, screenshot: bool)
    ensures failure.None? <==> screenshot
    ensures screenshot ==> workbook.Some?
    ensures failure.None? <==> SaveWorkbook !in sc.faults && SaveScreenshot !in sc.faults
    ensures failure.Some? ==> failure.value in sc.faults.Values
    ensures workbook.Some? <==> SaveWorkbook !in sc.faults
    ensures workbook.Some? ==>
      workbook.value.title == Title &&
      IsInstructionTable(workbook.value.rows, FilterInstructions(TextsOf(CapturedSteps(sc))))
    ensures Until(StepsScan(), sc.stepPages).TimedOut? && workbook.Some? ==> workbook.value.rows == [Header]
  {
    var steps: seq<Element>;
    match Until(StepsScan(), sc.stepPages) {
      case Found(_) => steps := FindElements(sc.stepsPage, StepLocator);
      case TimedOut => steps := [];
    }
    assert steps == CapturedSteps(sc);
    var instructions := CollectInstructions(steps);
    var sheet := SaveInstructionsToExcel(instructions);
    if steps == [] {
      assert TextsOf(steps) == [] && instructions == [];
      EmptyTableIsHeaderOnly(sheet.rows);
    }

    if SaveWorkbook in sc.faults {
      return Some(sc.faults[SaveWorkbook]), None, false;
    }
    if SaveScreenshot in sc.faults {
      return Some(sc.faults[SaveScreenshot]), Some(sheet), false;
    }
    return None, Some(sheet), true;
  }

  /** `main`: the browser is quit in `finally` whenever it was started. */
  method Run(sc: Scenario) returns (r: RunOutcome)
    ensures r.exitCode == 0 || r.exitCode == 1
    ensures r.exitCode == 0 <==> r.failure.None?
    ensures r.exitCode == 0 <==> r.screenshotSaved
    ensures r.screenshotSaved ==> r.workbook.Some?
    ensures r.browserClosed <==> Launch !in sc.faults
    ensures r.exitCode == 0 <==> RequiredWaitsFound(sc) && NoFatalFault(sc)
    ensures Launch in sc.faults ==> r.failure == Some(sc.faults[Launch])
    ensures r.workbook.Some? <==>
      Launch !in sc.faults && RequiredWaitsFound(sc) && NavigationFaultFree(sc) && SaveWorkbook !in sc.faults
    ensures r.failure.Some? ==> r.failure.value == TimeoutFailure || r.failure.value in sc.faults.Values
    ensures r.workbook.Some? ==>
      r.workbook.value.title == Title &&
      IsInstructionTable(r.workbook.value.rows, FilterInstructions(TextsOf(CapturedSteps(sc))))
    ensures r.exitCode == 0 ==> RequiredWaitsFound(sc)
    ensures sc.faults == map[] && RequiredWaitsFound(sc) ==> r.exitCode == 0
    ensures sc.faults == map[] && !RequiredWaitsFound(sc) ==> r.failure == Some(TimeoutFailure)
    ensures WaitForAnyElements(sc.routePages, RouteCardLocators).TimedOut? ==>
      r.exitCode == 1 && r.workbook.None? && !r.screenshotSaved
    ensures Until(StepsScan(), sc.stepPages).TimedOut? && r.workbook.Some? ==> r.workbook.value.rows == [Header]
  {
    if Launch in sc.faults {
      var f := sc.faults[Launch];
      return RunOutcome(ExitCode(Some(f)), Some(f), None, false, false);
    }
    var failure := Navigate(sc);
    if failure.Some? {
      return RunOutcome(ExitCode(failure), failure, None, false, true);
    }
    var workbook, screenshot;
    failure, workbook, screenshot := CaptureAndSave(sc);
    return RunOutcome(ExitCode(failure), failure, workbook, screenshot, true);
  }
}
