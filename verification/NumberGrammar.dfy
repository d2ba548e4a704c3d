/**
  Which token sequences the reducer accepts, as a grammar that reads units as they come instead of
  trying the four places one after the other.
*/
module NumberGrammar {
  import opened Wrappers
  import opened NumberParser

  predicate AtBoundary(ns: Tokens) {
    ns == [] || ns[0] >= 10000
  }

  predicate IsUnit(u: nat) {
    u == 10 || u == 100 || u == 1000
  }

  /** A section, the tokens up to a rank or the end: not a coefficient, or its value and what follows it. */
  datatype Section = Refused | Ends(value: nat, rest: Tokens)

  function Plus(n: nat, s: Section): Section {
    if s.Ends? then Ends(n + s.value, s.rest) else s
  }

  /**
    The rest of a section in which everything must stay below `limit`: 10000 where a section starts,
    and afterwards the unit just read. Behind 10 only one digit may stand.
  */
  function SectionFrom(ns: Tokens, limit: nat): Section
    decreases |ns|, 1
  {
    if limit == 10 then LastDigit(ns) else AtPlace(SkipZeros(ns), limit)
  }

  function LastDigit(ns: Tokens): Section {
    if AtBoundary(ns) then Ends(0, ns)
    else if ns[0] < 10 && AtBoundary(ns[1..]) then Ends(ns[0], ns[1..])
    else Refused
  }

  /** Behind leading zeros: the end, a unit, a run of digits, or a digit and its unit. */
  function AtPlace(s: Tokens, limit: nat): Section
    decreases |s|, 0
  {
    if AtBoundary(s) then (if limit < 10000 then Ends(0, s) else Refused)
    else if s[0] == 20 then Plus(20, SectionFrom(s[1..], 10))
    else if s[0] >= 10 then
      if IsUnit(s[0]) && s[0] < limit then Plus(s[0], SectionFrom(s[1..], s[0])) else Refused
    else
      var k := RunLength(s);
      if AtBoundary(s[k..]) && Base10(s[..k]) < limit then Ends(Base10(s[..k]), s[k..])
      else if k >= 2 then (if limit < 10000 then Ends(0, []) else Refused)  // behind a unit, all the rest is dropped
      else if DigitFits(s, limit) then Plus(Scaled(s[0], s[1]), SectionFrom(s[2..], s[1]))
      else Refused
  }

  /** A digit in front of a smaller unit; 1 is not written in front of 10 and 100. */
  predicate DigitFits(s: Tokens, limit: nat) {
    |s| >= 2 && IsUnit(s[1]) && s[1] < limit && (s[0] != 1 || s[1] == 1000)
  }

  // ---------- the four places read a section ----------

  /** What the places from `base` down make of ns. */
  function PlacesFrom(ns: Tokens, base: nat, taken: bool, sum: nat): Section
    requires base == 1 || IsUnit(base)
    decreases base
  {
    if base == 1 then FromOnes(ReduceOnes(ns), taken, sum)
    else
      var r := ReduceDigits(ns, base);
      PlacesFrom(r.Rest(), base / 10, taken || r.Taken?, sum + Digit(r))
  }

  function FromOnes(r: Reduced, taken: bool, sum: nat): Section {
    if (taken || r.Taken?) && AtBoundary(r.Rest()) then Ends(sum + Digit(r), r.Rest()) else Refused
  }

  function FromPlaces(p: Places): Section {
    if p.Accepted() then Ends(p.Sum(), p.ones.Rest()) else Refused
  }

  lemma PlacesUnfold(ns: Tokens)
    ensures FromPlaces(ReadPlaces(ns)) == PlacesFrom(ns, 1000, false, 0)
  {
    hide ReduceDigits, ReduceOnes;
    var p := ReadPlaces(ns);
    assert PlacesFrom(p.tens.Rest(), 1, p.thousands.Taken? || p.hundreds.Taken? || p.tens.Taken?,
                      Digit(p.thousands) + Digit(p.hundreds) + Digit(p.tens)) == FromPlaces(p);
  }

  /** Nothing is read at the end of the input or in front of a rank. */
  lemma BoundaryDeclines(ns: Tokens, base: nat)
    requires AtBoundary(ns) && base < 10000
    ensures ReduceDigits(ns, base) == Declined(ns) && ReduceOnes(ns) == Declined(ns)
  {
  }

  lemma {:induction false} BoundaryEnds(ns: Tokens, base: nat, taken: bool, sum: nat)
    requires AtBoundary(ns) && (base == 1 || IsUnit(base))
    ensures PlacesFrom(ns, base, taken, sum) == if taken then Ends(sum, ns) else Refused
    decreases base
  {
    hide ReduceDigits, ReduceOnes;
    BoundaryDeclines(ns, base);
    if base > 1 { BoundaryEnds(ns, base / 10, taken, sum); }
  }

  /** No place above `base`, down from `limit`, takes anything of s. */
  predicate Passed(s: Tokens, base: nat, limit: nat) {
    && (base < 10 < limit ==> ReducePlace(s, 10).Declined?)
    && (base < 100 < limit ==> ReducePlace(s, 100).Declined?)
    && (base < 1000 < limit ==> ReducePlace(s, 1000).Declined?)
  }

  predicate IsLimit(limit: nat) {
    IsUnit(limit) || limit == 10000
  }

  lemma SkipZerosTwice(ns: Tokens)
    ensures SkipZeros(SkipZeros(ns)) == SkipZeros(ns)
  {
  }

  lemma OneDigitRun(s: Tokens)
    requires s != [] && s[0] < 10 && (|s| == 1 || s[1] >= 10)
    ensures RunLength(s) == 1 && Base10(s[..1]) == s[0]
  {
    RunLengthAt(s, 1);
    assert s[..1][..0] == [];
  }

  /** Where no place takes anything, the ones place and the grammar agree. */
  lemma OnesSection(s: Tokens, limit: nat)
    requires IsLimit(limit) && limit > 10 && Passed(s, 1, limit) && (s != [] ==> s[0] != 0)
    ensures FromOnes(ReduceOnes(s), limit < 10000, 0) == AtPlace(s, limit)
  {
    hide SectionFrom, CrowdedRun, RunLength, Base10;
    if !AtBoundary(s) && s[0] < 10 && (|s| == 1 || s[1] >= 10) { OneDigitRun(s); }
  }

  lemma FromOnesPlus(r: Reduced, taken: bool, sum: nat)
    ensures FromOnes(r, taken, sum) == Plus(sum, FromOnes(r, taken, 0))
  {
  }

  /** A run of two or more digits is settled by the first place that sees it. */
  lemma RunSection(s: Tokens, base: nat)
    requires IsUnit(base) && |s| >= 2 && 0 < s[0] < 10 && s[1] < 10
    ensures AtPlace(s, base * 10) ==
            if !CrowdedRun(s, base * 10) then Ends(Base10(s[..RunLength(s)]), s[RunLength(s)..])
            else if base < 1000 then Ends(0, []) else Refused
    ensures !CrowdedRun(s, base * 10) ==> AtBoundary(s[RunLength(s)..])
  {
    hide Base10, SectionFrom;
    RunAtLeastTwo(s);
  }

  lemma RunAtLeastTwo(s: Tokens)
    requires |s| >= 2 && s[0] < 10 && s[1] < 10
    ensures RunLength(s) >= 2
  {
    hide Base10;
  }

  /** A unit, alone or behind its digit, is the next step of the grammar. */
  lemma UnitSection(s: Tokens, base: nat, limit: nat)
    requires IsUnit(base) && IsLimit(limit) && base < limit && ReducePlace(s, base).Taken?
    requires s[0] >= 10 || s[1] >= 10
    ensures var r := ReducePlace(s, base); AtPlace(s, limit) == Plus(r.num, SectionFrom(r.rest, base))
  {
    hide SectionFrom, CrowdedRun, RunLength, Base10;
    if s[0] < 10 { OneDigitRun(s); }
  }

  lemma PlusTwice(a: nat, b: nat, s: Section)
    ensures Plus(a, Plus(b, s)) == Plus(a + b, s)
  {
  }

  /** The places from `base` down read exactly one section of the grammar. */
  lemma {:induction false} PlacesSection(ns: Tokens, base: nat, limit: nat, sum: nat)
    requires (base == 1 || IsUnit(base)) && IsLimit(limit) && base * 10 <= limit
    requires base * 10 < limit ==> SkipZeros(ns) == ns && Passed(ns, base, limit)
    ensures PlacesFrom(ns, base, limit < 10000, sum) == Plus(sum, SectionFrom(ns, limit))
    decreases base
  {
    hide AtPlace, ReducePlace, Passed, SkipZeros, PlacesFrom, LastDigit, FromOnes, ReduceOnes;
    PlacesStep(ns, base, limit < 10000, sum);
    if base == 1 {
      if limit == 10 { LastDigitIsOnes(ns); } else { OnesSection(ns, limit); }
      FromOnesPlus(ReduceOnes(ns), limit < 10000, sum);
    } else {
      var s := SkipZeros(ns);
      var r := ReducePlace(s, base);
      if r.Declined? {
        DeclinedStays(s, base);
        SkipZerosTwice(ns);
        PassedOneMore(s, base, limit);
        PlacesSection(s, base / 10, limit, sum);
      } else {
        TakenOrAbandoned(ns, base, limit, sum);
      }
    }
  }

  lemma PlacesStep(ns: Tokens, base: nat, taken: bool, sum: nat)
    requires base == 1 || IsUnit(base)
    ensures base == 1 ==> PlacesFrom(ns, base, taken, sum) == FromOnes(ReduceOnes(ns), taken, sum)
    ensures base > 1 ==>
              var r := ReducePlace(SkipZeros(ns), base);
              PlacesFrom(ns, base, taken, sum) == PlacesFrom(r.Rest(), base / 10, taken || r.Taken?, sum + Digit(r))
  {
    hide SkipZeros, ReducePlace, FromOnes, ReduceOnes;
  }

  lemma LastDigitIsOnes(ns: Tokens)
    ensures FromOnes(ReduceOnes(ns), true, 0) == LastDigit(ns)
  {
  }

  lemma DeclinedStays(s: Tokens, base: nat)
    requires ReducePlace(s, base).Declined?
    ensures ReducePlace(s, base) == Declined(s)
  {
    hide CrowdedRun, RunLength, Base10;
  }

  lemma PassedOneMore(s: Tokens, base: nat, limit: nat)
    requires IsUnit(base) && base < limit && IsLimit(limit) && ReducePlace(s, base).Declined?
    requires base * 10 < limit ==> Passed(s, base, limit)
    ensures Passed(s, base / 10, limit)
  {
    hide ReducePlace;
  }

  lemma TakenOrAbandoned(ns: Tokens, base: nat, limit: nat, sum: nat)
    requires IsUnit(base) && IsLimit(limit) && base * 10 <= limit
    requires base * 10 < limit ==> SkipZeros(ns) == ns && Passed(ns, base, limit)
    requires !ReducePlace(SkipZeros(ns), base).Declined?
    ensures PlacesFrom(ns, base, limit < 10000, sum) == Plus(sum, SectionFrom(ns, limit))
    decreases base, 0
  {
    hide AtPlace, PlacesFrom, CrowdedRun, RunLength, Base10, SkipZeros, Scaled;
    var s := SkipZeros(ns);
    var r := ReducePlace(s, base);
    var taken := limit < 10000;
    PlacesStep(ns, base, taken, sum);
    if s[0] < 10 && s[1] < 10 {
      RunSection(s, base);
      BoundaryEnds(r.Rest(), base / 10, taken || r.Taken?, sum + Digit(r));
    } else {
      UnitSection(s, base, limit);
      PlacesSection(r.rest, base / 10, base, sum + r.num);
      PlusTwice(sum, r.num, SectionFrom(r.rest, base));
    }
  }

  /** The reducer accepts a coefficient exactly where the grammar reads a section, with the same value and rest. */
  lemma CoefficientIsSection(ns: Tokens)
    ensures FromPlaces(ReadPlaces(ns)) == SectionFrom(ns, 10000)
  {
    hide ReadPlaces, SectionFrom, PlacesFrom;
    PlacesUnfold(ns);
    PlacesSection(ns, 1000, 10000, 0);
  }

  // ---------- whole numbers ----------

  lemma {:induction false} SectionShrinks(ns: Tokens, limit: nat)
    requires SectionFrom(ns, limit).Ends?
    ensures var t := SectionFrom(ns, limit).rest;
            AtBoundary(t) && |t| <= |ns| && (limit >= 10000 ==> |t| < |ns|)
    decreases |ns|
  {
    hide Base10, RunLength, CrowdedRun;
    var s := SkipZeros(ns);
    if limit != 10 && !AtBoundary(s) {
      if s[0] == 20 { SectionShrinks(s[1..], 10); }
      else if s[0] >= 10 { SectionShrinks(s[1..], s[0]); }
      else if RunLength(s) < 2 && DigitFits(s, limit) { SectionShrinks(s[2..], s[1]); }
    }
  }

  lemma {:induction false} SectionBelow(ns: Tokens, limit: nat)
    requires IsLimit(limit) && SectionFrom(ns, limit).Ends?
    ensures SectionFrom(ns, limit).value < limit
    decreases |ns|
  {
    hide Base10, RunLength, CrowdedRun;
    var s := SkipZeros(ns);
    if limit != 10 && !AtBoundary(s) {
      if s[0] == 20 { SectionBelow(s[1..], 10); }
      else if s[0] >= 10 { SectionBelow(s[1..], s[0]); }
      else if RunLength(s) < 2 && DigitFits(s, limit) { SectionBelow(s[2..], s[1]); }
    }
  }

  /**
    Sections on strictly decreasing ranks below `last`; behind a rank there is nothing or another
    section. This is all a caller has to check, besides the range of the value.
  */
  predicate WellFormed(ns: Tokens, last: nat)
    decreases |ns|
  {
    SectionFrom(ns, 10000).Ends? &&
    (SectionShrinks(ns, 10000);
     var t := SectionFrom(ns, 10000).rest;
     t == [] || (t[0] < last && (|t| == 1 || WellFormed(t[1..], t[0]))))
  }
}
