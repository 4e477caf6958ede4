/** The per-tick `_locate` callbacks of the three waiting helpers, as total
    functions over one snapshot (one result list per locator, in priority order). */
module Locate {
  import opened Wrappers
  import opened Page

  /** The `_locate` of `wait_for_any_element`: element 0 of the first locator
      with any match, or nothing when every locator matched nothing. */
  function LocateAny(s: Snapshot): (r: Option<Element>)
    ensures r.None? <==> AllEmpty(s)
  {
    if s == [] then None
    else if s[0] != [] then Some(s[0][0])
    else LocateAny(s[1..])
  }

  /** The `_locate` of `wait_for_any_elements`: the whole result list of the
      first locator with any match; lists of later locators are never merged in. */
  function LocateAll(s: Snapshot): (r: Option<seq<Element>>)
    ensures r.None? <==> AllEmpty(s)
    ensures r.Some? ==> r.value != []
  {
    if s == [] then None
    else if s[0] != [] then Some(s[0])
    else LocateAll(s[1..])
  }

  /** The inner loop of the clickable `_locate`: the first usable element of one list. */
  function FirstUsable(es: seq<Element>): (r: Option<Element>)
    ensures r.Some? ==> Usable(r.value)
    ensures r.None? <==> forall j :: 0 <= j < |es| ==> !Usable(es[j])
  {
    if es == [] then None
    else if Usable(es[0]) then Some(es[0])
    else FirstUsable(es[1..])
  }

  /** The `_locate` of `wait_for_any_clickable_element`: the first displayed and
      enabled element, locator by locator; a locator whose matches are all
      unusable is passed over and the later locators are still tried. */
  function LocateClickable(s: Snapshot): (r: Option<Element>)
    ensures r.Some? ==> Usable(r.value)
    ensures r.None? <==> !HasUsable(s)
  {
    if s == [] then None
    else match FirstUsable(s[0])
      case Some(e) => Some(e)
      case None =>
        var r := LocateClickable(s[1..]);
        assert r.Some? ==> HasUsable(s) by {
          if r.Some? {
            var i, j :| 0 <= i < |s[1..]| && 0 <= j < |s[1..][i]| && Usable(s[1..][i][j]);
            assert Usable(s[i + 1][j]);
          }
        }
        assert HasUsable(s) ==> r.Some? by {
          if HasUsable(s) {
            var i, j :| 0 <= i < |s| && 0 <= j < |s[i]| && Usable(s[i][j]);
            assert i != 0;
            assert Usable(s[1..][i - 1][j]);
          }
        }
        r
  }

  /** The plain scan returns element 0 of the first non-empty locator, never
      an element of a later locator. */
  lemma {:induction false} LocateAnyFirst(s: Snapshot, i: int)
    requires FirstNonEmpty(s, i)
    ensures LocateAny(s) == Some(s[i][0])
  {
    if i > 0 {
      assert FirstNonEmpty(s[1..], i - 1);
      LocateAnyFirst(s[1..], i - 1);
    }
  }

  /** The list scan returns exactly the result list of the first non-empty locator. */
  lemma {:induction false} LocateAllFirst(s: Snapshot, i: int)
    requires FirstNonEmpty(s, i)
    ensures LocateAll(s) == Some(s[i])
  {
    if i > 0 {
      assert FirstNonEmpty(s[1..], i - 1);
      LocateAllFirst(s[1..], i - 1);
    }
  }

  /** The element scan and the list scan agree: the element is the head of the list. */
  lemma {:induction false} LocateAnyIsHeadOfAll(s: Snapshot)
    ensures LocateAny(s).Some? <==> LocateAll(s).Some?
    ensures LocateAny(s).Some? ==> LocateAny(s).value == LocateAll(s).value[0]
  {
    if s != [] && s[0] == [] {
      LocateAnyIsHeadOfAll(s[1..]);
    }
  }

  lemma {:induction false} FirstUsableAtIndex(es: seq<Element>, j: int)
    requires 0 <= j < |es| && Usable(es[j])
    requires forall l :: 0 <= l < j ==> !Usable(es[l])
    ensures FirstUsable(es) == Some(es[j])
  {
    if j > 0 {
      FirstUsableAtIndex(es[1..], j - 1);
    }
  }

  /** The clickable scan returns the first usable element in (locator order,
      then element order), however many unusable matches precede it. */
  lemma {:induction false} LocateClickableFirst(s: Snapshot, i: int, j: int)
    requires FirstUsableAt(s, i, j)
    ensures LocateClickable(s) == Some(s[i][j])
  {
    if i == 0 {
      FirstUsableAtIndex(s[0], j);
    } else {
      assert FirstUsable(s[0]).None? by {
        forall l | 0 <= l < |s[0]| ensures !Usable(s[0][l]) {
          assert 0 <= 0 < i;
        }
      }
      assert FirstUsableAt(s[1..], i - 1, j) by {
        forall k, l | 0 <= k < i - 1 && 0 <= l < |s[1..][k]| ensures !Usable(s[1..][k][l]) {
          assert s[1..][k] == s[k + 1];
        }
      }
      LocateClickableFirst(s[1..], i - 1, j);
    }
  }

  /** Where the two element scans part ways: with an unusable first match the
      plain scan still returns it, while the clickable scan falls through to
      the next locator. */
  lemma PlainAndClickableDiffer(hidden: Element, shown: Element)
    requires !Usable(hidden) && Usable(shown)
    ensures LocateAny([[hidden], [shown]]) == Some(hidden)
    ensures LocateClickable([[hidden], [shown]]) == Some(shown)
  {
    var s: Snapshot := [[hidden], [shown]];
    assert s[1..] == [[shown]];
    FirstUsableAtIndex(s[1], 0);
  }
}
