/** An abstract browser page: what `find_elements` returns for each locator. */
module Page {
  import opened Wrappers

  /** Selector strategies the script uses. */
  datatype By = CssSelector | XPath

  /** A locator candidate: a (strategy, value) pair. */
  datatype Locator = Locator(strategy: By, value: string)

  /** An opaque handle to a live page element, with the attributes the script reads. */
  datatype Element = Element(handle: nat, text: string, displayed: bool, enabled: bool)

  /** The page as seen at one instant: the elements each locator matches.
      A locator not in the map matches nothing. */
  type Page = map<Locator, seq<Element>>

  /** A per-tick snapshot: one result list per locator, in priority order. */
  type Snapshot = seq<seq<Element>>

  function FindElements(page: Page, locator: Locator): seq<Element>
  {
    if locator in page then page[locator] else []
  }

  /** The result lists of `find_elements` for each locator, in order. */
  function Snap(page: Page, locators: seq<Locator>): (s: Snapshot)
    ensures |s| == |locators|
    ensures forall i :: 0 <= i < |locators| ==> s[i] == FindElements(page, locators[i])
  {
    if locators == [] then [] else [FindElements(page, locators[0])] + Snap(page, locators[1..])
  }

  /** `element.is_displayed() and element.is_enabled()`. */
  predicate Usable(e: Element)
  {
    e.displayed && e.enabled
  }

  /** Some locator's result list holds a usable element. */
  ghost predicate HasUsable(s: Snapshot)
  {
    exists i, j :: 0 <= i < |s| && 0 <= j < |s[i]| && Usable(s[i][j])
  }

  /** Every locator's result list is empty. */
  ghost predicate AllEmpty(s: Snapshot)
  {
    forall i :: 0 <= i < |s| ==> s[i] == []
  }

  /** Locator `i` is the first, in priority order, with a non-empty result list. */
  ghost predicate FirstNonEmpty(s: Snapshot, i: int)
  {
    0 <= i < |s| && s[i] != [] && forall k :: 0 <= k < i ==> s[k] == []
  }

  /** `s[i][j]` is the first usable element in (locator order, then element order). */
  ghost predicate FirstUsableAt(s: Snapshot, i: int, j: int)
  {
    && 0 <= i < |s| && 0 <= j < |s[i]| && Usable(s[i][j])
    && (forall k, l :: 0 <= k < i && 0 <= l < |s[k]| ==> !Usable(s[k][l]))
    && (forall l :: 0 <= l < j ==> !Usable(s[i][l]))
  }
}
