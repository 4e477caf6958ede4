# Google Maps route instructions, modelled in Dafny

This project models `PartB_Automation/maps_route_instructions.py`, a Selenium
script. The script opens Google Maps, dismisses the consent dialog, asks for
driving directions between two fixed places and waits for the route cards.
It then picks the first route, opens its step list, keeps the meaningful step
texts, writes them to a one-sheet workbook with a numbered row per
instruction, saves a screenshot, and exits with 0 on success or 1 on any
exception.

The browser is abstracted as a sequence of *pages*. A page maps each locator
(a strategy and a selector) to the elements `find_elements` would return, and
each element has its text and its displayed and enabled flags.
`WebDriverWait(driver, t).until(callback)` becomes `Polling.Until`: the
callback is applied to each page seen during the timeout in turn; the first
value that is not "nothing" wins, and when the pages run out the wait times
out. The Python exceptions become the three `Failure` kinds `TimeoutFailure`
(`TimeoutException`), `DriverFailure` (`WebDriverException`) and
`OtherFailure` (any other `Exception`). The calls that drive the browser or write files (launching the browser,
opening the site, the clicks, typing into the inputs, and the two saves) are
the `Stage`s. A `Scenario` says which stages raise, and with which failure.
The other calls that could raise are listed under "## Left out".

Modules, in dependency order:

- `wrappers.dfy` (`Wrappers`): `Option`, `Result` and `Failure`.
- `page.dfy` (`Page`): locators, elements, pages and per-poll snapshots.
- `locate.dfy` (`Locate`): the three `_locate` callbacks over one snapshot.
- `polling.dfy` (`Polling`): `until`, the three `wait_for_*` helpers and `try_click_optional`.
- `text.dfy` (`Text`): Python's `str.strip` and `str.lower` as the filter uses them.
- `instructions.dfy` (`Instructions`): the instruction filter loop of `main`.
- `sheet.dfy` (`Sheet`): the rows `save_instructions_to_excel` writes.
- `route.dfy` (`RouteExtraction`): `main`, from launching the browser to the exit code.

The check `if not route_cards` (lines 162-163) can never raise.
`wait_for_any_elements` only ever returns a non-empty list, because an empty
list is falsy and keeps the wait polling. `RouteExtraction.Navigate` asserts
this at that point.

## Model

| member | source | states |
|---|---|---|
| Page.FindElements | PartB_Automation/maps_route_instructions.py:21 | `drv.find_elements(*locator)` on the page: the page's matches for that locator, or the empty list when it has none |
| Page.Usable | PartB_Automation/maps_route_instructions.py:37 | `element.is_displayed() and element.is_enabled()`; Locate.LocateClickable and Locate.FirstUsable state how the clickable wait uses it |
| Page.Snap | PartB_Automation/maps_route_instructions.py:20-21 | one result list per locator, in priority order, each what `find_elements` returns for that locator on the page |
| Locate.LocateAny | PartB_Automation/maps_route_instructions.py:19-24 | the callback finds nothing exactly when every locator's result list is empty |
| Locate.LocateAnyFirst | PartB_Automation/maps_route_instructions.py:19-24 | it returns element 0 of the first locator whose list is non-empty |
| Locate.LocateAll | PartB_Automation/maps_route_instructions.py:48-53 | it finds nothing exactly when every list is empty, and a list it returns is never empty |
| Locate.LocateAllFirst | PartB_Automation/maps_route_instructions.py:48-53 | it returns the whole list of the first locator with a non-empty list |
| Locate.LocateAnyIsHeadOfAll | PartB_Automation/maps_route_instructions.py:48-53 | the single-element and the list callbacks agree: they succeed together, and the single element is the head of the list |
| Locate.FirstUsable | PartB_Automation/maps_route_instructions.py:36-38 | the inner loop returns a displayed and enabled element, and returns nothing exactly when no element is both |
| Locate.FirstUsableAtIndex | PartB_Automation/maps_route_instructions.py:36-38 | the inner loop returns the first displayed and enabled element of the list |
| Locate.LocateClickable | PartB_Automation/maps_route_instructions.py:33-39 | a returned element is displayed and enabled; nothing is returned exactly when no element of any locator is both |
| Locate.LocateClickableFirst | PartB_Automation/maps_route_instructions.py:33-39 | it returns the first usable element in locator order, then element order |
| Locate.PlainAndClickableDiffer | PartB_Automation/maps_route_instructions.py:33-39 | with a hidden match for the first locator and a visible one for the second, the plain callback returns the hidden element and the clickable one the visible element |
| Polling.Until | PartB_Automation/maps_route_instructions.py:26 | the wait times out exactly when no poll yields a value |
| Polling.UntilFirstHit | PartB_Automation/maps_route_instructions.py:26 | it returns the value of the first poll that yields one |
| Polling.UntilFoundIsFirstHit | PartB_Automation/maps_route_instructions.py:26 | any value it returns comes from the first poll that yields one |
| Polling.WaitForAnyElement | PartB_Automation/maps_route_instructions.py:15-26 | it times out exactly when every locator finds nothing on every poll |
| Polling.WaitForAnyElementFirst | PartB_Automation/maps_route_instructions.py:15-26 | it returns element 0 of the first matching locator on the first poll where any locator matches |
| Polling.WaitForAnyClickableElement | PartB_Automation/maps_route_instructions.py:29-41 | it times out exactly when no poll shows a displayed and enabled match; a returned element is displayed and enabled |
| Polling.WaitForAnyClickableElementFirst | PartB_Automation/maps_route_instructions.py:29-41 | it returns the first displayed and enabled element, in locator order then element order, on the first poll that shows one |
| Polling.WaitForAnyElements | PartB_Automation/maps_route_instructions.py:44-55 | it times out exactly when nothing matches on any poll; a returned list is non-empty and is one locator's full result on one poll |
| Polling.WaitForAnyElementsFirst | PartB_Automation/maps_route_instructions.py:44-55 | it returns the whole result list of the first matching locator on the first poll where any locator matches |
| Polling.ResultListIsOneLocators | PartB_Automation/maps_route_instructions.py:48-53 | a list the callback returns is one locator's complete result list |
| Polling.TryClickOptional | PartB_Automation/maps_route_instructions.py:58-64 | true exactly when a clickable element appeared and the click raised nothing; an error exactly when the click raised something other than a timeout, and it is that failure; false otherwise |
| Text.IsSpace | PartB_Automation/maps_route_instructions.py:190 | the characters `str.strip()` removes: Python's `str.isspace` set, written out as code points; Text.LeadingSpaces and Text.TrailingSpaces state how strip uses it |
| Text.LeadingSpaces | PartB_Automation/maps_route_instructions.py:190 | counts the whitespace prefix: all counted characters are whitespace and the next one is not |
| Text.TrailingSpaces | PartB_Automation/maps_route_instructions.py:190 | counts the whitespace suffix in the same way |
| Text.Strip | PartB_Automation/maps_route_instructions.py:190 | `str.strip()`; its meaning is stated by Text.StripIsInfix, Text.StripIsTrimmed and Text.StripEmptyIffBlank, which together determine the result |
| Text.StripIsInfix | PartB_Automation/maps_route_instructions.py:190 | `strip()` returns a contiguous piece of the text with only whitespace cut on either side |
| Text.StripIsTrimmed | PartB_Automation/maps_route_instructions.py:190 | a non-empty stripped text neither starts nor ends with whitespace |
| Text.StripEmptyIffBlank | PartB_Automation/maps_route_instructions.py:190-192 | the stripped text is empty exactly when the text is all whitespace, which is when `if not text` skips it |
| Text.Lower | PartB_Automation/maps_route_instructions.py:193 | `lower()` keeps the length and lowers each character |
| Instructions.IsLabel | PartB_Automation/maps_route_instructions.py:193 | the text, lowered, is "directions" or "steps"; Instructions.DirectionsIsLabel and Instructions.NotLabelByLength state what that admits |
| Instructions.Kept | PartB_Automation/maps_route_instructions.py:191-194 | a stripped text survives both `continue`s: it is non-empty and not a label; Instructions.BlankNotKept and the worked-example lemmas use it |
| Instructions.TextsOf | PartB_Automation/maps_route_instructions.py:189-190 | one text per step element, in page order |
| Instructions.FilterInstructions | PartB_Automation/maps_route_instructions.py:188-195 | no more instructions than texts, and every instruction is non-empty and not a panel label |
| Instructions.InstructionsAreKeptSelection | PartB_Automation/maps_route_instructions.py:188-195 | the instructions are, in order, exactly the stripped texts that are non-empty and not "directions" or "steps" in any case |
| Instructions.ExtendKeptSelection | PartB_Automation/maps_route_instructions.py:188-195 | one more step either appends its stripped text at its own position or leaves the selection unchanged |
| Instructions.CollectInstructions | PartB_Automation/maps_route_instructions.py:188-195 | the loop with its two `continue`s builds exactly the filtered list |
| Instructions.StripOfTrimmed | PartB_Automation/maps_route_instructions.py:190 | a text with no outer whitespace is its own strip |
| Instructions.BlankNotKept | PartB_Automation/maps_route_instructions.py:190-192 | an all-whitespace text is dropped |
| Instructions.NotLabelByLength | PartB_Automation/maps_route_instructions.py:193 | only texts as long as "directions" or "steps" can be labels |
| Instructions.DirectionsIsLabel | PartB_Automation/maps_route_instructions.py:193 | the label test ignores case: "Directions" is a label |
| Instructions.DirectionsLabelDropped | PartB_Automation/maps_route_instructions.py:193-194 | the "Directions" heading is dropped |
| Instructions.StepsLabelDropped | PartB_Automation/maps_route_instructions.py:193-194 | the "steps" heading is dropped |
| Instructions.TurnLeftKept | PartB_Automation/maps_route_instructions.py:190-195 | "Turn left" is kept unchanged |
| Instructions.ContinueStraightKept | PartB_Automation/maps_route_instructions.py:190-195 | "Continue straight" is kept unchanged |
| Instructions.FilterExample | PartB_Automation/maps_route_instructions.py:188-195 | the steps "", "  ", "Directions", "Turn left", "steps", "Continue straight" give ["Turn left", "Continue straight"] |
| Sheet.SaveInstructionsToExcel | PartB_Automation/maps_route_instructions.py:67-76 | the sheet is titled "Driving Instructions" and holds the header row followed by `[k, text]` for the k-th instruction, numbered from 1 |
| Sheet.InstructionColumn | PartB_Automation/maps_route_instructions.py:71-74 | reading back yields one text per row below the header |
| Sheet.InstructionColumnReadsBack | PartB_Automation/maps_route_instructions.py:71-74 | reading the text column of a written sheet gives back exactly the instructions, in order |
| Sheet.EmptyTableIsHeaderOnly | PartB_Automation/maps_route_instructions.py:71-74 | with no instructions the sheet holds the header row alone |
| RouteExtraction.Contains | PartB_Automation/maps_route_instructions.py:155 | `"/dir/" in url` holds exactly when the fragment occurs at some position of the address |
| RouteExtraction.ContainsInfix | PartB_Automation/maps_route_instructions.py:155 | a fragment is found whatever surrounds it |
| RouteExtraction.UrlScan | PartB_Automation/maps_route_instructions.py:155 | `EC.url_contains("/dir/")`; RouteExtraction.DirectionsViewWait states what the wait built on it does |
| RouteExtraction.DirectionsViewWait | PartB_Automation/maps_route_instructions.py:155 | the wait for the directions view succeeds exactly when some address seen during it contains "/dir/" |
| RouteExtraction.StepsScan | PartB_Automation/maps_route_instructions.py:180-182 | `presence_of_all_elements_located` on the step selector: an empty match list counts as absent; RouteExtraction.StepWaitTimesOut states the wait's outcome |
| RouteExtraction.StepWaitTimesOut | PartB_Automation/maps_route_instructions.py:180-182 | the 60-second step wait times out exactly when no poll shows a step element |
| RouteExtraction.CapturedSteps | PartB_Automation/maps_route_instructions.py:179-186 | the step list is the page's matches after a successful wait and the empty list after a timeout; RouteExtraction.CapturedStepsCases states its cases |
| RouteExtraction.CapturedStepsCases | PartB_Automation/maps_route_instructions.py:179-186 | the filter sees no steps exactly when the wait timed out or the page read afterwards has none; otherwise it sees exactly that page's matches |
| RouteExtraction.OptionalClickTimeoutsHarmless | PartB_Automation/maps_route_instructions.py:58-64 | a scenario whose only failures are timeouts of the consent or steps click has no fatal fault, so by Run's contract it exits 0 whenever the required waits succeed |
| RouteExtraction.ExitCode | PartB_Automation/maps_route_instructions.py:213-223 | the exit code is 0 or 1, and 0 exactly when no exception was caught |
| RouteExtraction.Navigate | PartB_Automation/maps_route_instructions.py:100-177 | navigation succeeds exactly when every required wait succeeds, no required step raises and neither optional click raises anything but a timeout; a reported failure is a timeout or a scenario fault; with no faults, a failed wait ends in a timeout; a route-card timeout always ends the run |
| RouteExtraction.CaptureAndSave | PartB_Automation/maps_route_instructions.py:179-211 | the workbook is written exactly when `workbook.save` does not raise, so a failing screenshot still leaves it; the saved sheet holds exactly the filtered step texts; a step-wait timeout gives a header-only sheet; the screenshot exists exactly when neither save raised |
| RouteExtraction.Run | PartB_Automation/maps_route_instructions.py:88-226 | exit code 0 or 1; 0 exactly when every required wait succeeds and no call raises (optional-click timeouts excepted); a failed launch is the reported failure; the workbook is written exactly when the browser started, every required wait succeeded, navigation raised nothing fatal and `workbook.save` did not raise; 0 exactly when the screenshot was saved; the browser is quit exactly when it started; no route cards gives exit 1 with no files; with no faults, exit 0 exactly when every required wait succeeds; missing steps still give exit 0 with a header-only sheet |

## Left out

- Real browser driving: navigation, typing into inputs, page loads and the network are abstracted as the page sequences and the fault map of a `Scenario`. The typed texts and the site address are not modelled.
- Wall-clock timing: each timeout (5, 25, 30 or 60 seconds) is stood for by the finite list of pages seen while it runs. Selenium polls at least once even with a zero timeout; the model lets an empty list time out at once.
- Calls assumed never to raise: `driver.quit()` in `finally` (line 226), which would replace `main`'s return value if it raised; the `find_elements` after the step wait (line 183); reading `driver.current_url` inside the URL wait (line 155); `Workbook()`, the sheet title and `sheet.append` (lines 68-74).
- `find_elements` raising inside a wait, and element staleness while reading `.text`, `is_displayed()` or `is_enabled()`, are not modelled. Those calls are taken to succeed.
- `save_full_page_screenshot` (lines 79-85): the layout metrics, the window resize and the image are not modelled; only whether it raises (`SaveScreenshot`).
- `workbook.save` and the openpyxl object model: the workbook is the title plus the list of appended rows; saving is only whether it raises (`SaveWorkbook`).
- The `print` progress messages, the `Path` computations and `sys.exit` are not modelled; `Run` returns the exit code instead.
- Text.Lower: lowers ASCII letters only. Python's `str.lower` also lowers other scripts; a text that lowers to "directions" or "steps" must be ASCII, so the label test is unaffected.
- Text.IsSpace: the whitespace set of Python's `str.strip()` with no argument is written out as code points. Unicode tables beyond those code points are not modelled.
- Browser options (`--start-maximized`, `--disable-notifications`) are not modelled.
