/** `WebDriverWait.until` over a finite budget of polls, the three waiting
    helpers built on it, and `try_click_optional`. */
module Polling {
  import opened Wrappers
  import opened Page
  import opened Locate

  /** The outcome of a wait: the first truthy value, or a `TimeoutException`. */
  datatype Wait<+T> = Found(value: T) | TimedOut

  /** Poll `k` is the first whose scan yields something. */
  ghost predicate FirstHit<S, T>(scan: S -> Option<T>, polls: seq<S>, k: int)
  {
    0 <= k < |polls| && scan(polls[k]).Some? && forall j :: 0 <= j < k ==> scan(polls[j]).None?
  }

  /** `wait.until(scan)`: evaluate the scan on each poll in turn and return the
      first result that is not "none"; when the budget runs out, time out. */
  function Until<S, T>(scan: S -> Option<T>, polls: seq<S>): (r: Wait<T>)
    ensures r.TimedOut? <==> forall k :: 0 <= k < |polls| ==> scan(polls[k]).None?
  {
    if polls == [] then TimedOut
    else match scan(polls[0])
      case Some(v) => Found(v)
      case None =>
        var r := Until(scan, polls[1..]);
        assert r.Found? ==> exists k :: 0 <= k < |polls| && scan(polls[k]).Some? by {
          if r.Found? {
            var k :| 0 <= k < |polls[1..]| && scan(polls[1..][k]).Some?;
            assert scan(polls[k + 1]).Some?;
          }
        }
        r
  }

  /** The wait returns the value of the first poll that yields one; no later
      poll's value is ever preferred to it. */
  lemma {:induction false} UntilFirstHit<S, T>(scan: S -> Option<T>, polls: seq<S>, k: int)
    requires FirstHit(scan, polls, k)
    ensures Until(scan, polls) == Found(scan(polls[k]).value)
  {
    if k > 0 {
      assert FirstHit(scan, polls[1..], k - 1) by {
        forall j | 0 <= j < k - 1 ensures scan(polls[1..][j]).None? {
          assert polls[1..][j] == polls[j + 1];
        }
      }
      UntilFirstHit(scan, polls[1..], k - 1);
    }
  }

  /** A value the wait returns comes from the first poll that yields one. */
  lemma {:induction false} UntilFoundIsFirstHit<S, T>(scan: S -> Option<T>, polls: seq<S>)
    ensures Until(scan, polls).Found? ==>
      exists k :: FirstHit(scan, polls, k) && Until(scan, polls).value == scan(polls[k]).value
  {
    if polls != [] && scan(polls[0]).None? {
      UntilFoundIsFirstHit(scan, polls[1..]);
      if Until(scan, polls[1..]).Found? {
        var k :| FirstHit(scan, polls[1..], k) && Until(scan, polls[1..]).value == scan(polls[1..][k]).value;
        assert FirstHit(scan, polls, k + 1) by {
          forall j | 0 <= j < k + 1 ensures scan(polls[j]).None? {
            if j > 0 { assert polls[j] == polls[1..][j - 1]; }
          }
        }
      }
    } else if polls != [] {
      assert FirstHit(scan, polls, 0);
    }
  }

  /** The per-tick callbacks, each over the snapshot of the given locators. */
  function AnyElementScan(locators: seq<Locator>): Page -> Option<Element>
  {
    p => LocateAny(Snap(p, locators))
  }

  function ClickableScan(locators: seq<Locator>): Page -> Option<Element>
  {
    p => LocateClickable(Snap(p, locators))
  }

  function AnyElementsScan(locators: seq<Locator>): Page -> Option<seq<Element>>
  {
    p => LocateAll(Snap(p, locators))
  }

  /** `wait_for_any_element`. */
  function WaitForAnyElement(pages: seq<Page>, locators: seq<Locator>): (r: Wait<Element>)
    ensures r.TimedOut? <==>
      forall k, i :: 0 <= k < |pages| && 0 <= i < |locators| ==> FindElements(pages[k], locators[i]) == []
  {
    var r := Until(AnyElementScan(locators), pages);
    assert r.TimedOut? <==> forall k :: 0 <= k < |pages| ==> AllEmpty(Snap(pages[k], locators));
    r
  }

  /** `wait_for_any_clickable_element`. */
  function WaitForAnyClickableElement(pages: seq<Page>, locators: seq<Locator>): (r: Wait<Element>)
    ensures r.TimedOut? <==> forall k :: 0 <= k < |pages| ==> !HasUsable(Snap(pages[k], locators))
    ensures r.Found? ==> Usable(r.value)
  {
    var r := Until(ClickableScan(locators), pages);
    UntilFoundIsFirstHit(ClickableScan(locators), pages);
    r
  }

  /** `wait_for_any_elements`: a returned list is never empty and is one
      locator's complete result list on one poll. */
  function WaitForAnyElements(pages: seq<Page>, locators: seq<Locator>): (r: Wait<seq<Element>>)
    ensures r.TimedOut? <==>
      forall k, i :: 0 <= k < |pages| && 0 <= i < |locators| ==> FindElements(pages[k], locators[i]) == []
    ensures r.Found? ==> r.value != []
    ensures r.Found? ==>
      exists k, i :: 0 <= k < |pages| && 0 <= i < |locators| && r.value == FindElements(pages[k], locators[i])
  {
    var scan := AnyElementsScan(locators);
    var r := Until(scan, pages);
    assert r.TimedOut? <==> forall k :: 0 <= k < |pages| ==> AllEmpty(Snap(pages[k], locators));
    UntilFoundIsFirstHit(scan, pages);
    assert r.Found? ==> exists k, i :: 0 <= k < |pages| && 0 <= i < |locators| && r.value == FindElements(pages[k], locators[i]) by {
      if r.Found? {
        var k :| FirstHit(scan, pages, k) && r.value == scan(pages[k]).value;
        ResultListIsOneLocators(Snap(pages[k], locators));
      }
    }
    r
  }

  lemma {:induction false} ResultListIsOneLocators(s: Snapshot)
    ensures LocateAll(s).Some? ==> exists i :: 0 <= i < |s| && LocateAll(s).value == s[i]
  {
    if s != [] && s[0] == [] {
      ResultListIsOneLocators(s[1..]);
      if LocateAll(s).Some? {
        var i :| 0 <= i < |s[1..]| && LocateAll(s[1..]).value == s[1..][i];
        assert LocateAll(s).value == s[i + 1];
      }
    } else if s != [] {
      assert LocateAll(s).value == s[0];
    }
  }

  /** `wait_for_any_element` returns element 0 of the first matching locator on
      the first poll where any locator matches. */
  lemma WaitForAnyElementFirst(pages: seq<Page>, locators: seq<Locator>, k: int, i: int)
    requires 0 <= k < |pages|
    requires forall j, l :: 0 <= j < k && 0 <= l < |locators| ==> FindElements(pages[j], locators[l]) == []
    requires FirstNonEmpty(Snap(pages[k], locators), i)
    ensures WaitForAnyElement(pages, locators) == Found(FindElements(pages[k], locators[i])[0])
  {
    var scan := AnyElementScan(locators);
    var s := Snap(pages[k], locators);
    LocateAnyFirst(s, i);
    assert scan(pages[k]) == Some(FindElements(pages[k], locators[i])[0]);
    assert FirstHit(scan, pages, k) by {
      forall j | 0 <= j < k ensures scan(pages[j]).None? {
        var sj := Snap(pages[j], locators);
        assert AllEmpty(sj) by {
          forall l | 0 <= l < |sj| ensures sj[l] == [] {
            assert sj[l] == FindElements(pages[j], locators[l]);
          }
        }
      }
    }
    UntilFirstHit(scan, pages, k);
  }

  /** `wait_for_any_clickable_element` returns the first usable element (in
      locator order, then element order) on the first poll that shows one. */
  lemma WaitForAnyClickableElementFirst(pages: seq<Page>, locators: seq<Locator>, k: int, i: int, j: int)
    requires 0 <= k < |pages|
    requires forall m :: 0 <= m < k ==> !HasUsable(Snap(pages[m], locators))
    requires FirstUsableAt(Snap(pages[k], locators), i, j)
    ensures WaitForAnyClickableElement(pages, locators) == Found(FindElements(pages[k], locators[i])[j])
  {
    var scan := ClickableScan(locators);
    var s := Snap(pages[k], locators);
    LocateClickableFirst(s, i, j);
    assert scan(pages[k]) == Some(FindElements(pages[k], locators[i])[j]);
    assert FirstHit(scan, pages, k) by {
      forall m | 0 <= m < k ensures scan(pages[m]).None? {
        assert !HasUsable(Snap(pages[m], locators));
      }
    }
    UntilFirstHit(scan, pages, k);
  }

  /** `wait_for_any_elements` returns the whole result list of the first
      matching locator on the first poll where any locator matches. */
  lemma WaitForAnyElementsFirst(pages: seq<Page>, locators: seq<Locator>, k: int, i: int)
    requires 0 <= k < |pages|
    requires forall m, l :: 0 <= m < k && 0 <= l < |locators| ==> FindElements(pages[m], locators[l]) == []
    requires FirstNonEmpty(Snap(pages[k], locators), i)
    ensures WaitForAnyElements(pages, locators) == Found(FindElements(pages[k], locators[i]))
  {
    var scan := AnyElementsScan(locators);
    var s := Snap(pages[k], locators);
    LocateAllFirst(s, i);
    assert scan(pages[k]) == Some(FindElements(pages[k], locators[i]));
    assert FirstHit(scan, pages, k) by {
      forall m | 0 <= m < k ensures scan(pages[m]).None? {
        var sm := Snap(pages[m], locators);
        assert AllEmpty(sm) by {
          forall l | 0 <= l < |sm| ensures sm[l] == [] {
            assert sm[l] == FindElements(pages[m], locators[l]);
          }
        }
      }
    }
    UntilFirstHit(scan, pages, k);
  }

  /** `try_click_optional`: waits for a clickable element and clicks it. A
      timeout, whether of the wait or raised by the click, gives false rather
      than an error; any other failure of the click propagates. */
  function TryClickOptional(pages: seq<Page>, locators: seq<Locator>, clickFault: Option<Failure>): (r: Result<bool>)
    ensures r == Ok(true) <==>
      clickFault.None? && exists k :: 0 <= k < |pages| && HasUsable(Snap(pages[k], locators))
    ensures r.Err? <==>
      && (exists k :: 0 <= k < |pages| && HasUsable(Snap(pages[k], locators)))
      && clickFault.Some? && clickFault.value != TimeoutFailure
    ensures r.Err? ==> r.error == clickFault.value
  {
    match WaitForAnyClickableElement(pages, locators)
    case TimedOut => Ok(false)
    case Found(_) =>
      match clickFault
      case None => Ok(true)
      case Some(TimeoutFailure) => Ok(false)
      case Some(f) => Err(f)
  }
}
