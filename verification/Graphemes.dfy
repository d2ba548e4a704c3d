/**
  The regrouping loop of `Util::SplitStringToUtf8Graphemes`, on text that is already split into
  code points and with an output vector that starts empty.
*/
module Graphemes {
  type CodePoint = nat

  const STANDALONE: CodePoint := 0
  const ZERO_WIDTH_JOINER: CodePoint := 0x200D
  const VARIATION_SELECTOR_16: CodePoint := 0xFE0F
  const ENCLOSING_KEYCAP: CodePoint := 0x20E3

  predicate IsRegionalIndicator(c: CodePoint) {
    0x1F1E6 <= c <= 0x1F1FF
  }

  /** Code points that join whatever stands before them. */
  predicate Extends(c: CodePoint) {
    || c == 0x3099 || c == 0x309A          // voiced sound marks
    || 0xFE00 <= c <= 0xFE0F               // standardized variation selectors
    || 0xE0100 <= c <= 0xE01EF             // ideographic variation selectors
    || 0x1F3FB <= c <= 0x1F3FF             // emoji modifiers
    || 0xE0020 <= c <= 0xE007F             // tags
    || c == ZERO_WIDTH_JOINER
  }

  predicate Joins(prev: CodePoint, c: CodePoint) {
    Extends(c) || prev == ZERO_WIDTH_JOINER || (prev == VARIATION_SELECTOR_16 && c == ENCLOSING_KEYCAP)
  }

  predicate IsFlag(prev: CodePoint, c: CodePoint) {
    IsRegionalIndicator(prev) && IsRegionalIndicator(c)
  }

  // ---------- boundaries, declaratively ----------

  /** How many regional indicators in a row end right before position i. */
  function RunBefore(cps: seq<CodePoint>, i: nat): (n: nat)
    requires i <= |cps|
    ensures n <= i && (n > 0 <==> i > 0 && IsRegionalIndicator(cps[i - 1]))
  {
    if i == 0 || !IsRegionalIndicator(cps[i - 1]) then 0 else 1 + RunBefore(cps, i - 1)
  }

  /** A grapheme starts at position i. */
  predicate Boundary(cps: seq<CodePoint>, i: nat)
    requires i < |cps|
  {
    i == 0 || !(Joins(cps[i - 1], cps[i]) || (IsFlag(cps[i - 1], cps[i]) && RunBefore(cps, i) % 2 == 1))
  }

  function Flatten(groups: seq<seq<CodePoint>>): seq<CodePoint> {
    if groups == [] then [] else Flatten(groups[..|groups| - 1]) + groups[|groups| - 1]
  }

  /** Where group k starts. */
  function Offset(groups: seq<seq<CodePoint>>, k: nat): nat
    requires k <= |groups|
  {
    |Flatten(groups[..k])|
  }

  ghost predicate IsStart(groups: seq<seq<CodePoint>>, i: nat) {
    exists k :: 0 <= k < |groups| && Offset(groups, k) == i
  }

  /** groups is the division of the first n code points at exactly the boundaries among them. */
  ghost predicate Divides(groups: seq<seq<CodePoint>>, cps: seq<CodePoint>, n: nat)
    requires n <= |cps|
  {
    && Flatten(groups) == cps[..n]
    && (forall k :: 0 <= k < |groups| ==> groups[k] != [])
    && (forall i :: 0 <= i < n ==> (IsStart(groups, i) <==> Boundary(cps, i)))
  }

  // ---------- the program ----------

  /** The code point the program remembers: none after the second half of a flag. */
  function Remembered(cps: seq<CodePoint>, i: nat): CodePoint
    requires i <= |cps|
  {
    if i == 0 || (RunBefore(cps, i) > 0 && RunBefore(cps, i) % 2 == 0) then STANDALONE else cps[i - 1]
  }

  method SplitIntoGraphemes(cps: seq<CodePoint>) returns (graphemes: seq<seq<CodePoint>>)
    ensures Divides(graphemes, cps, |cps|)
  {
    hide Divides, Extends, RunBefore, Boundary;
    graphemes := [];
    var prev := STANDALONE;
    DividesNothing(cps);
    for i := 0 to |cps|
      invariant Divides(graphemes, cps, i)
      invariant i > 0 <==> graphemes != []
      invariant prev == Remembered(cps, i)
    {
      var codepoint := cps[i];
      BoundaryTest(cps, i);
      RememberedNext(cps, i);
      var last := |graphemes| - 1;
      if IsFlag(prev, codepoint) && graphemes != [] {
        DividesAppend(graphemes, cps, i);
        graphemes := graphemes[last := graphemes[last] + [codepoint]];
        prev := STANDALONE;
        continue;
      }
      if Joins(prev, codepoint) && graphemes != [] {
        DividesAppend(graphemes, cps, i);
        graphemes := graphemes[last := graphemes[last] + [codepoint]];
      } else {
        DividesPush(graphemes, cps, i);
        graphemes := graphemes + [[codepoint]];
      }
      prev := codepoint;
    }
  }

  lemma RegionalIsPlain(c: CodePoint)
    requires IsRegionalIndicator(c)
    ensures !Extends(c) && c != ZERO_WIDTH_JOINER && c != VARIATION_SELECTOR_16
  {
  }

  /** The program's test, on what it remembers, decides the boundary. */
  lemma BoundaryTest(cps: seq<CodePoint>, i: nat)
    requires i < |cps|
    ensures var prev := Remembered(cps, i);
            i > 0 ==> (Boundary(cps, i) <==> !(IsFlag(prev, cps[i]) || Joins(prev, cps[i])))
    ensures i == 0 ==> Boundary(cps, i) && !IsFlag(Remembered(cps, i), cps[i])
  {
    hide Extends;
    if i > 0 && IsRegionalIndicator(cps[i - 1]) { RegionalIsPlain(cps[i - 1]); }
  }

  lemma RememberedNext(cps: seq<CodePoint>, i: nat)
    requires i < |cps|
    ensures Remembered(cps, i + 1) == if i > 0 && IsFlag(Remembered(cps, i), cps[i]) then STANDALONE else cps[i]
  {
  }

  lemma DividesNothing(cps: seq<CodePoint>)
    ensures Divides([], cps, 0)
  {
  }

  lemma FlattenPush(groups: seq<seq<CodePoint>>, g: seq<CodePoint>)
    ensures Flatten(groups + [g]) == Flatten(groups) + g
  {
    assert (groups + [g])[..|groups|] == groups;
  }

  lemma DividesPush(groups: seq<seq<CodePoint>>, cps: seq<CodePoint>, n: nat)
    requires n < |cps| && Divides(groups, cps, n) && Boundary(cps, n)
    ensures Divides(groups + [[cps[n]]], cps, n + 1)
  {
    hide Boundary, Flatten;
    var g := [cps[n]];
    var more := groups + [g];
    FlattenPush(groups, g);
    assert cps[..n + 1] == cps[..n] + g;
    assert forall k :: 0 <= k <= |groups| ==> more[..k] == groups[..k];
    assert groups[..|groups|] == groups;
    assert Offset(more, |groups|) == n;
    forall i | 0 <= i < n + 1
      ensures IsStart(more, i) <==> Boundary(cps, i)
    {
      if i < n {
        StartKept(groups, more, i);
      }
    }
  }

  /** Starts before the last group do not depend on what follows. */
  lemma StartKept(groups: seq<seq<CodePoint>>, more: seq<seq<CodePoint>>, i: nat)
    requires |groups| <= |more| && forall k :: 0 <= k <= |groups| && k < |more| ==> more[..k] == groups[..k]
    requires |more| > |groups| ==> Offset(more, |groups|) > i && |more| == |groups| + 1
    ensures IsStart(groups, i) <==> IsStart(more, i)
  {
    hide Flatten;
    assert forall k :: 0 <= k < |groups| ==> Offset(more, k) == Offset(groups, k);
  }

  lemma DividesAppend(groups: seq<seq<CodePoint>>, cps: seq<CodePoint>, n: nat)
    requires n < |cps| && Divides(groups, cps, n) && groups != [] && !Boundary(cps, n)
    ensures var last := |groups| - 1;
            Divides(groups[last := groups[last] + [cps[n]]], cps, n + 1)
  {
    hide Boundary, Flatten;
    var last := |groups| - 1;
    var init, g := groups[..last], groups[last];
    var more := groups[last := g + [cps[n]]];
    assert more == init + [g + [cps[n]]] && groups == init + [g];
    FlattenPush(init, g);
    FlattenPush(init, g + [cps[n]]);
    assert Flatten(more) == Flatten(groups) + [cps[n]];
    assert cps[..n + 1] == cps[..n] + [cps[n]];
    assert forall k :: 0 <= k <= last ==> more[..k] == groups[..k];
    forall i | 0 <= i < n + 1
      ensures IsStart(more, i) <==> Boundary(cps, i)
    {
      StartKept(groups, more, i);
      if i == n {
        NoStartAtEnd(groups);
      }
    }
  }

  /** The end of the text is not the start of a group. */
  lemma NoStartAtEnd(groups: seq<seq<CodePoint>>)
    requires forall k :: 0 <= k < |groups| ==> groups[k] != []
    ensures !IsStart(groups, |Flatten(groups)|)
  {
    forall k | 0 <= k < |groups|
      ensures Offset(groups, k) < |Flatten(groups)|
    {
      OffsetBelowEnd(groups, k);
    }
  }

  lemma {:induction false} OffsetBelowEnd(groups: seq<seq<CodePoint>>, k: nat)
    requires k < |groups| && forall j :: 0 <= j < |groups| ==> groups[j] != []
    ensures Offset(groups, k) < |Flatten(groups)|
  {
    var init := groups[..|groups| - 1];
    if k < |groups| - 1 {
      OffsetBelowEnd(init, k);
      assert init[..k] == groups[..k];
    }
  }

  // ---------- what follows for flags ----------

  lemma {:induction false} RunLengthInRun(cps: seq<CodePoint>, start: nat, j: nat)
    requires start + j <= |cps| && (start == 0 || !IsRegionalIndicator(cps[start - 1]))
    requires forall i :: start <= i < start + j ==> IsRegionalIndicator(cps[i])
    ensures RunBefore(cps, start + j) == j
  {
    if j > 0 { RunLengthInRun(cps, start, j - 1); }
  }

  /**
    Rules GB12 and GB13 of section 3.1.1 of UAX #29: in a run of regional indicators that starts at
    `start`, a grapheme starts at the j-th following one exactly when j is even.
  */
  lemma RegionalIndicatorsPairUp(cps: seq<CodePoint>, start: nat, j: nat)
    requires 0 < j && start + j < |cps| && (start == 0 || !IsRegionalIndicator(cps[start - 1]))
    requires forall i :: start <= i <= start + j ==> IsRegionalIndicator(cps[i])
    ensures Boundary(cps, start + j) <==> j % 2 == 0
  {
    RunLengthInRun(cps, start, j);
    RegionalIsPlain(cps[start + j]);
    RegionalIsPlain(cps[start + j - 1]);
  }

  /** Only one division into graphemes meets the specification. */
  lemma {:induction false} DivisionUnique(a: seq<seq<CodePoint>>, b: seq<seq<CodePoint>>, cps: seq<CodePoint>, n: nat)
    requires n <= |cps| && Divides(a, cps, n) && Divides(b, cps, n)
    ensures a == b
    decreases n
  {
    hide Boundary;
    if a == [] || b == [] {
      EmptyFlatten(a);
      EmptyFlatten(b);
    } else {
      var k, m := |a| - 1, |b| - 1;
      LastStart(a, cps, n);
      LastStart(b, cps, n);
      OffsetBelowEnd(a, k);
      OffsetBelowEnd(b, m);
      var p := Offset(a, k);
      assert p == Offset(b, m);
      DividesInit(a, cps, n);
      DividesInit(b, cps, n);
      DivisionUnique(a[..k], b[..m], cps, p);
      assert a == a[..k] + [a[k]] && b == b[..m] + [b[m]];
      assert a[k] == cps[p..n] == b[m];
    }
  }

  lemma EmptyFlatten(groups: seq<seq<CodePoint>>)
    requires forall k :: 0 <= k < |groups| ==> groups[k] != []
    ensures Flatten(groups) == [] <==> groups == []
  {
  }

  /** The last group starts at the last boundary. */
  lemma LastStart(groups: seq<seq<CodePoint>>, cps: seq<CodePoint>, n: nat)
    requires n <= |cps| && Divides(groups, cps, n) && groups != []
    ensures var p := Offset(groups, |groups| - 1);
            && p < n && Boundary(cps, p) && (forall i :: p < i < n ==> !Boundary(cps, i))
            && groups[|groups| - 1] == cps[p..n]
  {
    hide Boundary;
    var k := |groups| - 1;
    OffsetBelowEnd(groups, k);
    assert IsStart(groups, Offset(groups, k));
    forall i | Offset(groups, k) < i < n
      ensures !Boundary(cps, i)
    {
      forall j | 0 <= j < |groups|
        ensures Offset(groups, j) != i
      {
        OffsetsGrow(groups, j, k);
      }
    }
  }

  lemma {:induction false} OffsetsGrow(groups: seq<seq<CodePoint>>, j: nat, k: nat)
    requires j <= k <= |groups|
    ensures Offset(groups, j) <= Offset(groups, k)
    decreases k
  {
    if j < k {
      OffsetsGrow(groups, j, k - 1);
      assert groups[..k][..k - 1] == groups[..k - 1];
    }
  }

  /** Leaving out the last group divides the text in front of it. */
  lemma DividesInit(groups: seq<seq<CodePoint>>, cps: seq<CodePoint>, n: nat)
    requires n <= |cps| && Divides(groups, cps, n) && groups != []
    ensures var k := |groups| - 1;
            Offset(groups, k) <= n && Divides(groups[..k], cps, Offset(groups, k))
  {
    hide Boundary;
    var k := |groups| - 1;
    var init, p := groups[..k], Offset(groups, k);
    assert Flatten(init) == cps[..p];
    assert forall j :: 0 <= j <= k ==> init[..j] == groups[..j];
    forall i | 0 <= i < p
      ensures IsStart(init, i) <==> Boundary(cps, i)
    {
      StartKept(init, groups, i);
    }
  }

  // ---------- what joins and what does not ----------

  /** Joiners, variation selectors, voiced sound marks, emoji modifiers and tags stand with what is before them. */
  lemma MarksJoin(groups: seq<seq<CodePoint>>, cps: seq<CodePoint>, i: nat)
    requires Divides(groups, cps, |cps|) && 0 < i < |cps|
    requires
      || cps[i] == 0x200D || 0xFE00 <= cps[i] <= 0xFE0F || 0xE0100 <= cps[i] <= 0xE01EF
      || cps[i] == 0x3099 || cps[i] == 0x309A || 0x1F3FB <= cps[i] <= 0x1F3FF || 0xE0020 <= cps[i] <= 0xE007F
    ensures !IsStart(groups, i)
  {
    hide IsStart, Flatten;
  }

  /** Whatever follows a zero width joiner stands with it. */
  lemma JoinerJoins(groups: seq<seq<CodePoint>>, cps: seq<CodePoint>, i: nat)
    requires Divides(groups, cps, |cps|) && 0 < i < |cps| && cps[i - 1] == 0x200D
    ensures !IsStart(groups, i)
  {
    hide IsStart, Flatten;
  }

  /** An enclosing keycap stands with a variation selector 16, and with nothing else. */
  lemma KeycapJoins(groups: seq<seq<CodePoint>>, cps: seq<CodePoint>, i: nat)
    requires Divides(groups, cps, |cps|) && 0 < i < |cps| && cps[i] == 0x20E3
    ensures IsStart(groups, i) <==> cps[i - 1] != 0xFE0F && cps[i - 1] != 0x200D
  {
    hide IsStart, Flatten;
  }

  /** Flags stand in pairs, counted from the start of their run. */
  lemma FlagsPairUp(groups: seq<seq<CodePoint>>, cps: seq<CodePoint>, start: nat, j: nat)
    requires Divides(groups, cps, |cps|)
    requires 0 < j && start + j < |cps| && (start == 0 || !(0x1F1E6 <= cps[start - 1] <= 0x1F1FF))
    requires forall i :: start <= i <= start + j ==> 0x1F1E6 <= cps[i] <= 0x1F1FF
    ensures IsStart(groups, start + j) <==> j % 2 == 0
  {
    hide IsStart, Flatten, Boundary;
    RegionalIndicatorsPairUp(cps, start, j);
  }

  /** Everything else starts a grapheme of its own. */
  lemma OthersStart(groups: seq<seq<CodePoint>>, cps: seq<CodePoint>, i: nat)
    requires Divides(groups, cps, |cps|) && i < |cps|
    requires
      || i == 0
      || !(|| cps[i] == 0x200D || 0xFE00 <= cps[i] <= 0xFE0F || 0xE0100 <= cps[i] <= 0xE01EF
           || cps[i] == 0x3099 || cps[i] == 0x309A || 0x1F3FB <= cps[i] <= 0x1F3FF || 0xE0020 <= cps[i] <= 0xE007F
           || cps[i - 1] == 0x200D || (cps[i - 1] == 0xFE0F && cps[i] == 0x20E3)
           || (0x1F1E6 <= cps[i - 1] <= 0x1F1FF && 0x1F1E6 <= cps[i] <= 0x1F1FF))
    ensures IsStart(groups, i)
  {
    hide IsStart, Flatten;
  }
}
