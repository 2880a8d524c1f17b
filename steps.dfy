/** The step extractor `parse_recipe_for_steps`: split the recipe text into lines,
    strip each line, and keep the stripped lines that start with a one-digit step
    marker `"1."` ... `"9."`, in order. */
module Steps {
  import opened PyStr

  /** The tuple of prefixes the extractor passes to `startswith`. */
  const StepMarkers: seq<string> := ["1.", "2.", "3.", "4.", "5.", "6.", "7.", "8.", "9."]

  /** The source's test on a stripped line: `startswith` with the tuple of markers. */
  predicate HasStepMarker(t: string)
  {
    StartsWithAny(t, StepMarkers)
  }

  /** A stripped line is a step when it starts with a digit `'1'` to `'9'` and a
      period; `StepLineIsDigitDot` proves this is the tuple test. */
  predicate IsStepLine(t: string)
  {
    |t| >= 2 && '1' <= t[0] <= '9' && t[1] == '.'
  }

  /** The steps of a list of lines: the stripped lines that are step lines, in order. */
  function StepsOf(lines: seq<string>): seq<string>
  {
    if lines == [] then []
    else
      var line := Strip(lines[|lines| - 1]);
      StepsOf(lines[..|lines| - 1]) + (if IsStepLine(line) then [line] else [])
  }

  /** The steps of a recipe text, whose lines are the pieces of `split("\n")`. */
  function ExtractSteps(recipeText: string): seq<string>
  {
    StepsOf(Split(recipeText, '\n'))
  }

  /** The extractor as the source runs it: one pass over the lines, appending each
      matching stripped line to an accumulator. */
  method ParseRecipeForSteps(recipeText: string) returns (steps: seq<string>)
    ensures steps == ExtractSteps(recipeText)
    ensures |steps| <= Count(recipeText, '\n') + 1
    ensures forall k :: 0 <= k < |steps| ==> HasStepMarker(steps[k]) && IsStripped(steps[k])
  {
    steps := [];
    var lines := Split(recipeText, '\n');
    for i := 0 to |lines|
      invariant steps == StepsOf(lines[..i])
    {
      var stripped := Strip(lines[i]);
      assert HasStepMarker(stripped) <==> IsStepLine(stripped) by {
        StepLineIsDigitDot(stripped);
      }
      StepsOfPrefix(lines, i);
      if HasStepMarker(stripped) {
        steps := steps + [stripped];
      }
    }
    assert lines[..|lines|] == lines;
    assert |steps| <= Count(recipeText, '\n') + 1 by {
      StepsBound(lines);
      SplitCount(recipeText, '\n');
    }
    assert forall k :: 0 <= k < |steps| ==> HasStepMarker(steps[k]) && IsStripped(steps[k]) by {
      StepsAreStrippedMarkers(lines);
      forall k | 0 <= k < |steps| ensures HasStepMarker(steps[k]) {
        StepLineIsDigitDot(steps[k]);
      }
    }
  }

  /** One more line adds its stripped form when that is a step line. */
  lemma {:induction false} StepsOfPrefix(lines: seq<string>, i: nat)
    requires i < |lines|
    ensures StepsOf(lines[..i + 1]) ==
      StepsOf(lines[..i]) + (if IsStepLine(Strip(lines[i])) then [Strip(lines[i])] else [])
  {
    assert lines[..i + 1][..i] == lines[..i];
  }

  /** The tuple test is the digit-dot rule: a first character `'1'` to `'9'` and a
      period second, so `"0."` and `"10."` do not qualify. */
  lemma {:induction false} StepLineIsDigitDot(t: string)
    ensures HasStepMarker(t) <==> IsStepLine(t)
  {
    StartsWithAnyExists(t, StepMarkers);
    assert forall k :: 0 <= k < |StepMarkers| ==>
      |StepMarkers[k]| == 2 && StepMarkers[k][0] as int == '1' as int + k && StepMarkers[k][1] == '.';
    if IsStepLine(t) {
      var k := t[0] as int - '1' as int;
      assert t[..2] == [t[0], '.'] == StepMarkers[k];
      assert StartsWith(t, StepMarkers[k]);
    }
    if HasStepMarker(t) {
      var k :| 0 <= k < |StepMarkers| && StartsWith(t, StepMarkers[k]);
      assert t[..2] == StepMarkers[k];
      assert t[0] == StepMarkers[k][0] && t[1] == StepMarkers[k][1];
    }
  }

  /** No more steps than lines. */
  lemma {:induction false} StepsBound(lines: seq<string>)
    ensures |StepsOf(lines)| <= |lines|
  {
    if lines != [] {
      StepsBound(lines[..|lines| - 1]);
    }
  }

  /** Every step is a stripped line with a step marker: `strip()` leaves it unchanged,
      and it starts with a digit `'1'` to `'9'` and a period. */
  lemma {:induction false} StepsAreStrippedMarkers(lines: seq<string>)
    ensures forall k :: 0 <= k < |StepsOf(lines)| ==>
      IsStepLine(StepsOf(lines)[k]) && IsStripped(StepsOf(lines)[k])
  {
    if lines != [] {
      StepsAreStrippedMarkers(lines[..|lines| - 1]);
      var i, j := StripIsSlice(lines[|lines| - 1]);
    }
  }

  /** The per-step facts in the form the source promises. */
  lemma {:induction false} StepShape(lines: seq<string>, k: nat)
    requires k < |StepsOf(lines)|
    ensures Strip(StepsOf(lines)[k]) == StepsOf(lines)[k]
    ensures |StepsOf(lines)[k]| >= 2 && '1' <= StepsOf(lines)[k][0] <= '9'
    ensures StepsOf(lines)[k][1] == '.'
  {
    StepsAreStrippedMarkers(lines);
    StripStripped(StepsOf(lines)[k]);
  }

  /** The steps of two runs of lines are the steps of each, one after the other. */
  lemma {:induction false} StepsOfConcat(a: seq<string>, b: seq<string>)
    ensures StepsOf(a + b) == StepsOf(a) + StepsOf(b)
  {
    if b == [] {
      assert a + b == a;
    } else {
      var n := |b| - 1;
      var front := b[..n];
      var x := b[n];
      var tail := if IsStepLine(Strip(x)) then [Strip(x)] else [];
      assert StepsOf(a + b) == StepsOf(a + front) + tail by {
        assert a + b == (a + front) + [x];
        StepsOfSnoc(a + front, x);
      }
      assert StepsOf(b) == StepsOf(front) + tail by {
        assert b == front + [x];
        StepsOfSnoc(front, x);
      }
      StepsOfConcat(a, front);
      assert StepsOf(a) + StepsOf(front) + tail == StepsOf(a) + (StepsOf(front) + tail);
    }
  }

  /** Appending one line appends its stripped self when it is a step line. */
  lemma {:induction false} StepsOfSnoc(lines: seq<string>, x: string)
    ensures StepsOf(lines + [x]) ==
      StepsOf(lines) + (if IsStepLine(Strip(x)) then [Strip(x)] else [])
  {
    var all := lines + [x];
    assert all[..|all| - 1] == lines;
    assert all[|all| - 1] == x;
  }

  /** Extraction distributes over a newline. */
  lemma {:induction false} ExtractStepsNewline(a: string, b: string)
    ensures ExtractSteps(a + "\n" + b) == ExtractSteps(a) + ExtractSteps(b)
  {
    SplitConcat(a, b, '\n');
    StepsOfConcat(Split(a, '\n'), Split(b, '\n'));
  }

  /** The indices of the lines whose stripped form is a step line, in line order. */
  ghost function StepIndices(lines: seq<string>): seq<nat>
  {
    if lines == [] then []
    else
      var n := |lines| - 1;
      StepIndices(lines[..n]) + (if IsStepLine(Strip(lines[n])) then [n] else [])
  }

  /** Step `k` is the stripped line at the `k`-th step-line index. */
  lemma {:induction false} StepIndicesPick(lines: seq<string>)
    ensures |StepIndices(lines)| == |StepsOf(lines)|
    ensures forall k :: 0 <= k < |StepsOf(lines)| ==>
      StepIndices(lines)[k] < |lines| && StepsOf(lines)[k] == Strip(lines[StepIndices(lines)[k]])
  {
    if lines != [] {
      var n := |lines| - 1;
      var front := lines[..n];
      StepIndicesPick(front);
      var r, rf, ix, ixf := StepsOf(lines), StepsOf(front), StepIndices(lines), StepIndices(front);
      forall k | 0 <= k < |r| ensures ix[k] < |lines| && r[k] == Strip(lines[ix[k]]) {
        if k < |rf| {
          assert r[k] == rf[k] && ix[k] == ixf[k];
          assert lines[ixf[k]] == front[ixf[k]];
        }
      }
    }
  }

  /** The step-line indices are in range and strictly increasing. */
  lemma {:induction false} StepIndicesIncreasing(lines: seq<string>)
    ensures forall k :: 0 <= k < |StepIndices(lines)| ==> StepIndices(lines)[k] < |lines|
    ensures forall k, m :: 0 <= k < m < |StepIndices(lines)| ==> StepIndices(lines)[k] < StepIndices(lines)[m]
  {
    if lines != [] {
      var n := |lines| - 1;
      StepIndicesIncreasing(lines[..n]);
    }
  }

  /** An index is a step-line index exactly when its stripped line is a step line. */
  lemma {:induction false} StepIndicesExact(lines: seq<string>)
    ensures forall j :: 0 <= j < |lines| ==> (IsStepLine(Strip(lines[j])) <==> j in StepIndices(lines))
  {
    if lines != [] {
      var n := |lines| - 1;
      var front := lines[..n];
      StepIndicesExact(front);
      StepIndicesIncreasing(front);
      var ixf := StepIndices(front);
      var tail: seq<nat> := if IsStepLine(Strip(lines[n])) then [n] else [];
      assert StepIndices(lines) == ixf + tail;
      assert n !in ixf;
      forall j | 0 <= j < |lines|
        ensures IsStepLine(Strip(lines[j])) <==> j in ixf + tail
      {
        if j < n {
          assert lines[j] == front[j];
          assert j !in tail;
        }
      }
    }
  }

  /** The steps are the stripped lines at the step-line indices, in increasing order
      of index: nothing is reordered, dropped or deduplicated. */
  lemma {:induction false} StepsAreOrderedFilter(lines: seq<string>) returns (idx: seq<nat>)
    ensures |idx| == |StepsOf(lines)|
    ensures forall k :: 0 <= k < |idx| ==> idx[k] < |lines| && StepsOf(lines)[k] == Strip(lines[idx[k]])
    ensures forall k, m :: 0 <= k < m < |idx| ==> idx[k] < idx[m]
    ensures forall j :: 0 <= j < |lines| ==> (IsStepLine(Strip(lines[j])) <==> j in idx)
  {
    idx := StepIndices(lines);
    StepIndicesPick(lines);
    StepIndicesIncreasing(lines);
    StepIndicesExact(lines);
  }

  /** A text yields no steps exactly when none of its stripped lines is a step line. */
  lemma {:induction false} NoStepsIff(lines: seq<string>)
    ensures StepsOf(lines) == [] <==> forall j :: 0 <= j < |lines| ==> !IsStepLine(Strip(lines[j]))
  {
    var idx := StepsAreOrderedFilter(lines);
    if StepsOf(lines) != [] {
      assert idx[0] in idx;
    }
  }

  /** The number of steps is at most the number of lines, one more than the number
      of newlines. */
  lemma {:induction false} ExtractStepsBound(recipeText: string)
    ensures |ExtractSteps(recipeText)| <= |Split(recipeText, '\n')| == Count(recipeText, '\n') + 1
  {
    StepsBound(Split(recipeText, '\n'));
    SplitCount(recipeText, '\n');
  }

  /** The empty text has one empty line and no steps. */
  lemma {:induction false} EmptyTextNoSteps()
    ensures Split("", '\n') == [""] && ExtractSteps("") == []
  {
    assert !IsStepLine(Strip(""));
  }

  /** A text without a newline is a single line. */
  lemma {:induction false} SingleLine(line: string)
    requires '\n' !in line
    ensures ExtractSteps(line) == if IsStepLine(Strip(line)) then [Strip(line)] else []
  {
    SplitNoSeparator(line, '\n');
    assert [line][..0] == [];
  }

  /** A line numbered 10 or more is not returned, whatever padding precedes the
      number and whatever follows it: the second character of the stripped line is
      a digit, not the period. */
  lemma {:induction false} TwoDigitIsNotAStep(pad: string, d1: char, d2: char, rest: string)
    requires forall k :: 0 <= k < |pad| ==> IsSpace(pad[k]) && pad[k] != '\n'
    requires '1' <= d1 <= '9' && '0' <= d2 <= '9' && '\n' !in rest
    ensures ExtractSteps(pad + [d1, d2] + rest) == []
  {
    var u := [d1, d2] + rest;
    var line := pad + u;
    assert pad + [d1, d2] + rest == line;
    assert '\n' !in line by {
      forall k | 0 <= k < |line| ensures line[k] != '\n' {
        if k >= |pad| + 2 {
          assert line[k] == rest[k - |pad| - 2];
        }
      }
    }
    SingleLine(line);
    assert Strip(line) == TrimEnd(u) by {
      TrimStartSkipsSpace(pad, u);
    }
    var t := TrimEnd(u);
    TrimEndIsPrefix(u);
    if |t| >= 2 {
      assert t[1] == u[1] == d2;
    }
  }

  /** `lstrip()` removes a run of whitespace in front of a non-whitespace character. */
  lemma {:induction false} TrimStartSkipsSpace(pad: string, u: string)
    requires forall k :: 0 <= k < |pad| ==> IsSpace(pad[k])
    requires u != [] && !IsSpace(u[0])
    ensures TrimStart(pad + u) == u
  {
    if pad != [] {
      assert (pad + u)[0] == pad[0];
      assert (pad + u)[1..] == pad[1..] + u;
      TrimStartSkipsSpace(pad[1..], u);
    } else {
      assert pad + u == u;
    }
  }

  /** A step line surrounded by blanks is returned stripped, its marker kept. */
  lemma {:induction false} PaddedStepIsStripped(pad1: string, step: string, pad2: string)
    requires forall k :: 0 <= k < |pad1| ==> pad1[k] == ' '
    requires forall k :: 0 <= k < |pad2| ==> pad2[k] == ' '
    requires IsStripped(step) && IsStepLine(step) && '\n' !in step
    ensures ExtractSteps(pad1 + step + pad2) == [step]
  {
    var line := pad1 + step + pad2;
    assert '\n' !in line by {
      forall k | 0 <= k < |line| ensures line[k] != '\n' {
        if k < |pad1| {
        } else if k < |pad1| + |step| {
          assert line[k] == step[k - |pad1|];
        } else {
          assert line[k] == pad2[k - |pad1| - |step|];
        }
      }
    }
    SingleLine(line);
    PadStrip(pad1, step, pad2);
  }

  /** `strip()` removes exactly the blank padding around a stripped string. */
  lemma {:induction false} PadStrip(pad1: string, step: string, pad2: string)
    requires forall k :: 0 <= k < |pad1| ==> pad1[k] == ' '
    requires forall k :: 0 <= k < |pad2| ==> pad2[k] == ' '
    requires IsStripped(step) && step != []
    ensures Strip(pad1 + step + pad2) == step
  {
    var i, j := StripIsSlice(pad1 + step + pad2);
    var line := pad1 + step + pad2;
    assert line[|pad1|] == step[0];
    assert line[|pad1| + |step| - 1] == step[|step| - 1];
    assert i == |pad1|;
    assert j == |pad1| + |step|;
    assert line[i..j] == step;
  }

  /** A stripped step line without a newline is one step. */
  lemma {:induction false} OneStepLine(a: string)
    requires IsStripped(a) && IsStepLine(a) && '\n' !in a
    ensures ExtractSteps(a) == [a]
  {
    StripStripped(a);
    SingleLine(a);
  }

  /** Three stripped step lines joined by newlines yield those three lines as steps. */
  lemma {:induction false} ThreeLineRecipe(a: string, b: string, c: string)
    requires IsStripped(a) && IsStepLine(a) && '\n' !in a
    requires IsStripped(b) && IsStepLine(b) && '\n' !in b
    requires IsStripped(c) && IsStepLine(c) && '\n' !in c
    ensures ExtractSteps(a + "\n" + b + "\n" + c) == [a, b, c]
  {
    OneStepLine(a);
    OneStepLine(b);
    OneStepLine(c);
    ExtractStepsNewline(a, b);
    ExtractStepsNewline(a + "\n" + b, c);
    assert [a] + [b] + [c] == [a, b, c];
  }
}
