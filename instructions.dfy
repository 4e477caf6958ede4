/** The filter that turns the texts of the step elements into the captured
    instructions (the loop over `step_elements` in `main`). */
module Instructions {
  import opened Page
  import opened Text

  /** Panel labels that are not instructions, compared in lower case. */
  const Labels: set<string> := {"directions", "steps"}

  predicate IsLabel(text: string)
  {
    Lower(text) in Labels
  }

  /** A stripped text survives the filter: it is not empty and not a label. */
  predicate Kept(text: string)
  {
    text != [] && !IsLabel(text)
  }

  /** The `.text` of each step element, in page order. */
  function TextsOf(steps: seq<Element>): (texts: seq<string>)
    ensures |texts| == |steps|
    ensures forall k :: 0 <= k < |steps| ==> texts[k] == steps[k].text
  {
    if steps == [] then [] else TextsOf(steps[..|steps| - 1]) + [steps[|steps| - 1].text]
  }

  /** The captured instructions: each text stripped, kept when non-empty and
      not a label, in the order of the input. */
  function FilterInstructions(texts: seq<string>): (r: seq<string>)
    ensures |r| <= |texts|
    ensures forall k :: 0 <= k < |r| ==> Kept(r[k])
  {
    if texts == [] then []
    else
      var prior := FilterInstructions(texts[..|texts| - 1]);
      var text := Strip(texts[|texts| - 1]);
      if Kept(text) then prior + [text] else prior
  }

  /** Each text stripped, in order. */
  function StripAll(texts: seq<string>): (stripped: seq<string>)
    ensures |stripped| == |texts|
    ensures forall k :: 0 <= k < |texts| ==> stripped[k] == Strip(texts[k])
  {
    seq(|texts|, k requires 0 <= k < |texts| => Strip(texts[k]))
  }

  /** `idx` lists, in increasing order, exactly the positions of `stripped`
      whose text is kept, and `r` holds those texts. */
  ghost predicate IsKeptSelection(r: seq<string>, stripped: seq<string>, idx: seq<int>)
  {
    && |idx| == |r|
    && (forall k :: 0 <= k < |idx| ==> 0 <= idx[k] < |stripped| && r[k] == stripped[idx[k]])
    && (forall k, l :: 0 <= k < l < |idx| ==> idx[k] < idx[l])
    && (forall i :: 0 <= i < |stripped| && Kept(stripped[i]) ==> exists k :: 0 <= k < |idx| && idx[k] == i)
  }

  /** The output is the order-preserving subsequence of the stripped inputs
      made of exactly the kept ones. */
  lemma {:induction false} InstructionsAreKeptSelection(texts: seq<string>)
    ensures exists idx :: IsKeptSelection(FilterInstructions(texts), StripAll(texts), idx)
  {
    if texts == [] {
      assert FilterInstructions(texts) == [] && StripAll(texts) == [];
      assert IsKeptSelection([], [], []);
    } else {
      var init := texts[..|texts| - 1];
      InstructionsAreKeptSelection(init);
      var idx :| IsKeptSelection(FilterInstructions(init), StripAll(init), idx);
      assert StripAll(texts)[..|texts| - 1] == StripAll(init);
      var idx' := ExtendKeptSelection(FilterInstructions(init), StripAll(texts), idx);
      var text := Strip(texts[|texts| - 1]);
      assert StripAll(texts)[|texts| - 1] == text;
      assert FilterInstructions(texts) == if Kept(text) then FilterInstructions(init) + [text] else FilterInstructions(init);
    }
  }

  /** One more text either extends the selection by itself (with its
      position) or, when dropped, leaves it as it was. */
  lemma ExtendKeptSelection(prior: seq<string>, stripped: seq<string>, idx: seq<int>) returns (idx': seq<int>)
    requires stripped != []
    requires IsKeptSelection(prior, stripped[..|stripped| - 1], idx)
    ensures var text := stripped[|stripped| - 1];
      IsKeptSelection(if Kept(text) then prior + [text] else prior, stripped, idx')
  {
    var n := |stripped| - 1;
    var init := stripped[..n];
    var text := stripped[n];
    var r := if Kept(text) then prior + [text] else prior;
    idx' := if Kept(text) then idx + [n] else idx;
    forall k | 0 <= k < |idx'|
      ensures 0 <= idx'[k] < |stripped| && r[k] == stripped[idx'[k]]
    {
      if k < |idx| {
        assert idx'[k] == idx[k] && r[k] == prior[k];
        assert init[idx[k]] == stripped[idx[k]];
      }
    }
    forall k, l | 0 <= k < l < |idx'| ensures idx'[k] < idx'[l] {
      assert idx'[k] == idx[k];
    }
    forall i | 0 <= i < |stripped| && Kept(stripped[i])
      ensures exists k :: 0 <= k < |idx'| && idx'[k] == i
    {
      if i < n {
        assert init[i] == stripped[i];
        var k :| 0 <= k < |idx| && idx[k] == i;
        assert idx'[k] == i;
      } else {
        assert idx'[|idx|] == n;
      }
    }
  }

  /** The loop of `main`: strip each step's text, skip it when empty or a
      label, append it otherwise. */
  method CollectInstructions(steps: seq<Element>) returns (instructions: seq<string>)
    ensures instructions == FilterInstructions(TextsOf(steps))
  {
    instructions := [];
    for i := 0 to |steps|
      invariant instructions == FilterInstructions(TextsOf(steps[..i]))
    {
      assert TextsOf(steps[..i + 1])[..i] == TextsOf(steps[..i]);
      var text := Strip(steps[i].text);
      if text == [] {
        continue;
      }
      if IsLabel(text) {
        continue;
      }
      instructions := instructions + [text];
    }
    assert steps[..|steps|] == steps;
  }

  /** A text that neither starts nor ends with whitespace is its own strip. */
  lemma StripOfTrimmed(s: string)
    requires s != [] && !IsSpace(s[0]) && !IsSpace(s[|s| - 1])
    ensures Strip(s) == s
  {
    assert LeadingSpaces(s) == 0 && TrailingSpaces(s) == 0;
  }

  lemma BlankNotKept(s: string)
    requires AllSpace(s)
    ensures !Kept(Strip(s))
  {
    StripEmptyIffBlank(s);
  }

  /** Only a text of the length of a label can be one. */
  lemma NotLabelByLength(text: string)
    requires |text| != |"directions"| && |text| != |"steps"|
    ensures !IsLabel(text)
  {
  }

  /** The label test ignores case. */
  lemma DirectionsIsLabel()
    ensures IsLabel("Directions")
  {
    assert Lower("Directions") == "directions";
  }

  lemma DirectionsLabelDropped()
    ensures !Kept(Strip("Directions"))
  {
    StripOfTrimmed("Directions");
    DirectionsIsLabel();
  }

  lemma StepsLabelDropped()
    ensures !Kept(Strip("steps"))
  {
    StripOfTrimmed("steps");
    assert Lower("steps") == "steps";
  }

  lemma TurnLeftKept()
    ensures Strip("Turn left") == "Turn left" && Kept("Turn left")
  {
    StripOfTrimmed("Turn left");
    NotLabelByLength("Turn left");
  }

  lemma ContinueStraightKept()
    ensures Strip("Continue straight") == "Continue straight" && Kept("Continue straight")
  {
    StripOfTrimmed("Continue straight");
    NotLabelByLength("Continue straight");
  }

  /** One more text that is kept: its stripped form is appended. */
  lemma AppendKept(texts: seq<string>, t: string)
    requires Kept(Strip(t))
    ensures FilterInstructions(texts + [t]) == FilterInstructions(texts) + [Strip(t)]
  {
    assert (texts + [t])[..|texts|] == texts;
  }

  /** One more text that is dropped: the output is unchanged. */
  lemma AppendDropped(texts: seq<string>, t: string)
    requires !Kept(Strip(t))
    ensures FilterInstructions(texts + [t]) == FilterInstructions(texts)
  {
    assert (texts + [t])[..|texts|] == texts;
  }

  lemma AppendThree<T>(p: seq<T>, a: T, b: T, c: T)
    ensures p + [a] + [b] + [c] == p + [a, b, c]
  {
  }

  lemma AppendTwo<T>(p: seq<T>, a: T, b: T)
    ensures p + [a] + [b] == p + [a, b]
  {
  }

  lemma AppendToEmpty<T>(q: seq<T>)
    ensures [] + q == q
  {
  }

  lemma SixAsTwoThrees<T>(a: T, b: T, c: T, d: T, e: T, f: T)
    ensures [a, b, c] + [d, e, f] == [a, b, c, d, e, f]
  {
  }

  /** Texts that are all dropped leave the earlier output as it was. */
  lemma DropThree(p: seq<string>, t0: string, t1: string, t2: string)
    requires !Kept(Strip(t0)) && !Kept(Strip(t1)) && !Kept(Strip(t2))
    ensures FilterInstructions(p + [t0, t1, t2]) == FilterInstructions(p)
  {
    AppendDropped(p, t0);
    AppendDropped(p + [t0], t1);
    AppendDropped(p + [t0] + [t1], t2);
    AppendThree(p, t0, t1, t2);
  }

  /** Kept texts are appended in order, stripped; a dropped one between them leaves no trace. */
  lemma KeepDropKeep(p: seq<string>, t0: string, t1: string, t2: string)
    requires Kept(Strip(t0)) && !Kept(Strip(t1)) && Kept(Strip(t2))
    ensures FilterInstructions(p + [t0, t1, t2]) == FilterInstructions(p) + [Strip(t0), Strip(t2)]
  {
    AppendKept(p, t0);
    AppendDropped(p + [t0], t1);
    AppendKept(p + [t0] + [t1], t2);
    AppendThree(p, t0, t1, t2);
    AppendTwo(FilterInstructions(p), Strip(t0), Strip(t2));
  }

  /** Six texts of which only the fourth and the sixth are kept. */
  lemma FilterSix(t0: string, t1: string, t2: string, t3: string, t4: string, t5: string)
    requires !Kept(Strip(t0)) && !Kept(Strip(t1)) && !Kept(Strip(t2)) && !Kept(Strip(t4))
    requires Kept(Strip(t3)) && Kept(Strip(t5))
    ensures FilterInstructions([t0, t1, t2, t3, t4, t5]) == [Strip(t3), Strip(t5)]
  {
    var first := [t0, t1, t2];
    DropThree([], t0, t1, t2);
    AppendToEmpty(first);
    KeepDropKeep(first, t3, t4, t5);
    AppendToEmpty([Strip(t3), Strip(t5)]);
    SixAsTwoThrees(t0, t1, t2, t3, t4, t5);
  }

  /** The worked example: blanks and the two panel labels are dropped. */
  lemma FilterExample()
    ensures FilterInstructions(["", "  ", "Directions", "Turn left", "steps", "Continue straight"])
         == ["Turn left", "Continue straight"]
  {
    BlankNotKept("");
    BlankNotKept("  ");
    DirectionsLabelDropped();
    StepsLabelDropped();
    TurnLeftKept();
    ContinueStraightKept();
    FilterSix("", "  ", "Directions", "Turn left", "steps", "Continue straight");
  }
}
