/**
  What a sequence of number tokens means, as a one-pass reading that knows nothing of the
  reducer, and how far the reducer agrees with it.
*/
module NumberReading {
  import opened Wrappers
  import opened NumberParser
  import opened NumberGrammar

  /**
    The usual left-to-right reading. `run` is the digit run just read, `section` the value below
    the next rank and `total` the value of the finished ranks. A unit without a digit counts once.
  */
  function ReadFrom(ns: Tokens, total: nat, section: nat, run: nat): nat {
    if ns == [] then total + section + run
    else if ns[0] < 10 then ReadFrom(ns[1..], total, section, run * 10 + ns[0])
    else if ns[0] < 10000 then ReadFrom(ns[1..], total, section + OneIfZero(run) * ns[0], 0)
    else ReadFrom(ns[1..], total + (section + run) * ns[0], 0, 0)
  }

  function OneIfZero(n: nat): nat {
    if n == 0 then 1 else n
  }

  function Reading(ns: Tokens): nat {
    ReadFrom(ns, 0, 0, 0)
  }

  /** Reading more tokens never lowers the number. */
  lemma {:induction false} ReadingGrows(ns: Tokens, total: nat, section: nat, run: nat)
    ensures ReadFrom(ns, total, section, run) >= total + section + run
  {
    if ns == [] {
    } else if ns[0] < 10 {
      ReadingGrows(ns[1..], total, section, run * 10 + ns[0]);
    } else if ns[0] < 10000 {
      AtLeastOnce(run, ns[0]);
      ReadingGrows(ns[1..], total, section + OneIfZero(run) * ns[0], 0);
    } else {
      AtLeastOnce(section + run, ns[0]);
      ReadingGrows(ns[1..], total + (section + run) * ns[0], 0, 0);
    }
  }

  lemma AtLeastOnce(n: nat, unit: nat)
    requires unit > 0
    ensures n * unit >= n && OneIfZero(n) * unit >= n
  {
    assert n * unit >= n * 1;
  }

  /** Zeros in front of a place do not count. */
  lemma {:induction false} ReadingSkipsZeros(ns: Tokens, total: nat, section: nat)
    ensures ReadFrom(ns, total, section, 0) == ReadFrom(SkipZeros(ns), total, section, 0)
    decreases |ns|
  {
    if ns != [] && ns[0] == 0 {
      ReadingSkipsZeros(ns[1..], total, section);
    }
  }

  /** Reading a run of digits accumulates its base-10 value. */
  lemma {:induction false} ReadingOfRun(ns: Tokens, k: nat, total: nat, section: nat)
    requires k <= |ns| && forall i :: 0 <= i < k ==> ns[i] < 10
    ensures ReadFrom(ns, total, section, 0) == ReadFrom(ns[k..], total, section, Base10(ns[..k]))
    decreases k
  {
    if k == 0 {
      assert ns[..0] == [] && ns[0..] == ns;
    } else {
      ReadingOfRun(ns, k - 1, total, section);
      assert ns[..k][..k - 1] == ns[..k - 1];
      assert ns[k - 1..][1..] == ns[k..];
      assert ns[k - 1..][0] == ns[k - 1];
    }
  }

  lemma {:induction false} TotalAdds(ns: Tokens, total: nat, section: nat, run: nat)
    ensures ReadFrom(ns, total, section, run) == total + ReadFrom(ns, 0, section, run)
  {
    if ns == [] {
    } else if ns[0] < 10 {
      TotalAdds(ns[1..], total, section, run * 10 + ns[0]);
    } else if ns[0] < 10000 {
      TotalAdds(ns[1..], total, section + OneIfZero(run) * ns[0], 0);
    } else {
      TotalAdds(ns[1..], total + (section + run) * ns[0], 0, 0);
      TotalAdds(ns[1..], (section + run) * ns[0], 0, 0);
    }
  }

  predicate Small(h: Tokens) {
    forall i :: 0 <= i < |h| ==> h[i] < 10000
  }

  /** A section is read on its own, and then the rank behind it. */
  lemma {:induction false} ReadingJoins(h: Tokens, t: Tokens, section: nat, run: nat)
    requires Small(h) && AtBoundary(t)
    ensures ReadFrom(h + t, 0, section, run) == ReadFrom(t, 0, ReadFrom(h, 0, section, run), 0)
    decreases |h|
  {
    if h == [] {
      assert h + t == t;
    } else {
      assert (h + t)[0] == h[0] && (h + t)[1..] == h[1..] + t;
      if h[0] < 10 {
        ReadingJoins(h[1..], t, section, run * 10 + h[0]);
      } else {
        ReadingJoins(h[1..], t, section + OneIfZero(run) * h[0], 0);
      }
    }
  }

  // ---------- what the program drops ----------

  /** Right behind this unit stands a run that the program drops: 千9999, 千一二十, 百123. */
  predicate DropsBehind(unit: nat, ns: Tokens) {
    (unit == 100 || unit == 1000) && Crowded(ns, unit)
  }

  /** Somewhere such a run is dropped. */
  predicate Misplaced(ns: Tokens) {
    ns != [] && (DropsBehind(ns[0], ns[1..]) || Misplaced(ns[1..]))
  }

  /** The tokens in front of the first run that is dropped. */
  function Kept(ns: Tokens): Tokens
    decreases |ns|, 0
  {
    if ns == [] then [] else [ns[0]] + KeptBehind(ns[0], ns[1..])
  }

  function KeptBehind(unit: nat, ns: Tokens): Tokens
    decreases |ns|, 1
  {
    if DropsBehind(unit, ns) then [] else Kept(ns)
  }

  lemma {:induction false} KeptAll(ns: Tokens)
    ensures Kept(ns) <= ns
    ensures Kept(ns) == ns <==> !Misplaced(ns)
  {
    hide DropsBehind;
    if ns != [] {
      KeptAll(ns[1..]);
      assert ns == [ns[0]] + ns[1..];
      assert Kept(ns)[1..] == KeptBehind(ns[0], ns[1..]);
      if DropsBehind(ns[0], ns[1..]) { DropsBehindUnit(ns[0], ns[1..]); }
    }
  }

  /** Dropping tokens lowers the number. */
  lemma {:induction false} KeptReads(ns: Tokens, total: nat, section: nat, run: nat)
    requires Misplaced(ns)
    ensures ReadFrom(Kept(ns), total, section, run) < ReadFrom(ns, total, section, run)
  {
    hide DropsBehind;
    var t := ns[1..];
    assert Kept(ns)[1..] == KeptBehind(ns[0], t);
    if DropsBehind(ns[0], t) {
      DroppedAtLeast10(ns[0], t, total, section + OneIfZero(run) * ns[0]);
      DropsBehindUnit(ns[0], t);
    } else if ns[0] < 10 {
      KeptReads(t, total, section, run * 10 + ns[0]);
    } else if ns[0] < 10000 {
      KeptReads(t, total, section + OneIfZero(run) * ns[0], 0);
    } else {
      KeptReads(t, total + (section + run) * ns[0], 0, 0);
    }
  }

  lemma DropsBehindUnit(unit: nat, t: Tokens)
    requires DropsBehind(unit, t)
    ensures (unit == 100 || unit == 1000) && t != []
  {
  }

  lemma DroppedAtLeast10(unit: nat, t: Tokens, total: nat, section: nat)
    requires DropsBehind(unit, t)
    ensures ReadFrom(t, total, section, 0) >= total + section + 10
  {
    hide RunLength, Base10;
    var s := SkipZeros(t);
    ReadingSkipsZeros(t, total, section);
    SkipZerosTwice(t);
    assert ReadFrom(s, total, section, 0) == ReadFrom(s[1..], total, section, s[0]);
    ReadingGrows(s[2..], total, section, s[0] * 10 + s[1]);
    assert s[1..][1..] == s[2..];
  }

  lemma {:induction false} KeptPastDigits(ns: Tokens, k: nat)
    requires k <= |ns| && forall i :: 0 <= i < k ==> ns[i] < 10
    ensures Kept(ns) == ns[..k] + Kept(ns[k..])
    decreases k
  {
    hide Crowded;
    if k == 0 {
      assert ns[..0] == [] && ns[0..] == ns;
    } else {
      KeptPastDigits(ns[1..], k - 1);
      assert ns[1..][k - 1..] == ns[k..] && ns[..k] == [ns[0]] + ns[1..][..k - 1];
    }
  }

  // ---------- one section ----------

  /** The tokens h of a section, read up to `value`, and a section on their own. */
  ghost predicate Reads(h: Tokens, limit: nat, section: nat, value: nat) {
    Small(h) && ReadFrom(h, 0, section, 0) == section + value && SectionFrom(h, limit) == Ends(value, [])
  }

  lemma NothingReads(limit: nat, section: nat)
    requires limit < 10000
    ensures Reads([], limit, section, 0)
  {
  }

  lemma DigitReads(d: U64, section: nat)
    requires d < 10
    ensures Reads([d], 10, section, d)
  {
    assert [d][1..] == [];
  }

  lemma ZeroReads(h: Tokens, limit: nat, section: nat, value: nat)
    requires limit != 10 && Reads(h, limit, section, value)
    ensures Reads([0] + h, limit, section, value)
  {
    hide AtPlace;
    assert ([0] + h)[1..] == h;
  }

  lemma RunReads(run: Tokens, limit: nat, section: nat)
    requires run != [] && run[0] != 0 && limit != 10 && Base10(run) < limit && forall i :: 0 <= i < |run| ==>
               run[i] < 10
    ensures Reads(run, limit, section, Base10(run))
  {
    hide Base10, ReadFrom, SectionFrom;
    SectionUnfold(run, limit);
    RunLengthAt(run, |run|);
    assert run[|run|..] == [] && run[..|run|] == run;
    ReadingOfRun(run, |run|, 0, section);
    EndOfReading(0, section, Base10(run));
  }

  lemma EndOfReading(total: nat, section: nat, run: nat)
    ensures ReadFrom([], total, section, run) == total + section + run
  {
  }

  lemma UnitReads(u: U64, h: Tokens, limit: nat, section: nat, value: nat)
    requires limit != 10 && (u == 20 || (IsUnit(u) && u < limit))
    requires Reads(h, if u == 20 then 10 else u, section + u, value)
    ensures Reads([u] + h, limit, section, u + value)
  {
    hide LastDigit, RunLength, Base10, SectionFrom;
    var g := [u] + h;
    SectionUnfold(g, limit);
    assert g[1..] == h;
    assert ReadFrom(g, 0, section, 0) == ReadFrom(h, 0, section + u, 0);
  }

  lemma DigitUnitReads(d: U64, u: U64, h: Tokens, limit: nat, section: nat, value: nat)
    requires limit != 10 && 0 < d < 10 && DigitFits([d, u], limit) && Reads(h, u, section + Scaled(d, u), value)
    ensures Reads([d, u] + h, limit, section, Scaled(d, u) + value)
  {
    hide SectionFrom, LastDigit;
    var g := [d, u] + h;
    assert g[2..] == h && g[1..][1..] == h;
    OneDigitRun(g);
    DigitUnitSection(g, limit);
    assert ReadFrom(g, 0, section, 0) == ReadFrom(h, 0, section + Scaled(d, u), 0);
  }

  lemma DigitUnitSection(g: Tokens, limit: nat)
    requires limit != 10 && |g| >= 2 && 0 < g[0] < 10 && DigitFits(g, limit) && RunLength(g) == 1
    ensures SectionFrom(g, limit) == Plus(Scaled(g[0], g[1]), SectionFrom(g[2..], g[1]))
  {
  }

  /** The kept tokens of a section read as its value; what the program drops contributes nothing. */
  lemma {:induction false} SectionReads(ns: Tokens, limit: nat, section: nat) returns (h: Tokens)
    requires IsLimit(limit) && SectionFrom(ns, limit).Ends?
    ensures Reads(h, limit, section, SectionFrom(ns, limit).value)
    ensures KeptBehind(limit, ns) == h + Kept(SectionFrom(ns, limit).rest)
    decreases |ns|
  {
    hide Reads, Base10, RunLength, Scaled, DropsBehind, AtPlace;
    if ns != [] { KeptUnfold(ns); }
    if DropsBehind(limit, ns) {
      DroppedSection(limit, ns);
      NothingReads(limit, section);
      h := [];
    } else if AtBoundary(ns) {
      BoundarySection(ns, limit);
      NothingReads(limit, section);
      h := [];
      assert h + Kept(ns) == Kept(ns);
    } else if limit == 10 {
      DigitReads(ns[0], section);
      h := [ns[0]];
    } else if ns[0] == 0 {
      ZeroDropsNothing(limit, ns);
      var g := SectionReads(ns[1..], limit, section);
      ZeroReads(g, limit, section, SectionFrom(ns, limit).value);
      h := [0] + g;
    } else {
      h := PlaceReads(ns, limit, section);
    }
  }

  lemma DroppedSection(limit: nat, ns: Tokens)
    requires DropsBehind(limit, ns)
    ensures SectionFrom(ns, limit) == Ends(0, []) && limit < 10000
  {
    hide Base10;
    SkipZerosTwice(ns);
    RunAtLeastTwo(SkipZeros(ns));
  }

  lemma {:induction false} PlaceReads(ns: Tokens, limit: nat, section: nat) returns (h: Tokens)
    requires IsLimit(limit) && limit != 10 && SectionFrom(ns, limit).Ends?
    requires !DropsBehind(limit, ns) && !AtBoundary(ns) && ns[0] != 0
    ensures Reads(h, limit, section, SectionFrom(ns, limit).value)
    ensures Kept(ns) == h + Kept(SectionFrom(ns, limit).rest)
    decreases |ns|, 0
  {
    hide Reads, Base10, RunLength, Scaled, CrowdedRun, SectionFrom, Kept;
    SectionUnfold(ns, limit);
    KeptUnfold(ns);
    if ns[0] >= 10 {
      var u := if ns[0] == 20 then 10 else ns[0];
      var g := SectionReads(ns[1..], u, section + ns[0]);
      UnitReads(ns[0], g, limit, section, SectionFrom(ns[1..], u).value);
      h := [ns[0]] + g;
    } else if RunLength(ns) == 1 && !AtBoundary(ns[1..]) {
      var g := SectionReads(ns[2..], ns[1], section + Scaled(ns[0], ns[1]));
      DigitUnitReads(ns[0], ns[1], g, limit, section, SectionFrom(ns[2..], ns[1]).value);
      KeptUnfold(ns[1..]);
      assert ns[1..][1..] == ns[2..];
      h := [ns[0], ns[1]] + g;
    } else {
      h := ns[..RunLength(ns)];
      FirstInRun(ns);
      KeptPastDigits(ns, RunLength(ns));
      NotDropped(limit, ns);
      RunReads(h, limit, section);
    }
  }

  lemma SectionUnfold(ns: Tokens, limit: nat)
    requires ns != [] && ns[0] != 0 && limit != 10
    ensures SectionFrom(ns, limit) == AtPlace(ns, limit)
  {
    hide AtPlace;
  }

  lemma KeptUnfold(ns: Tokens)
    requires ns != []
    ensures Kept(ns) == [ns[0]] + KeptBehind(ns[0], ns[1..])
    ensures ns[0] < 100 ==> KeptBehind(ns[0], ns[1..]) == Kept(ns[1..]) == KeptBehind(10, ns[1..])
  {
    hide Crowded;
  }

  lemma FirstInRun(ns: Tokens)
    requires ns != [] && ns[0] < 10
    ensures RunLength(ns) >= 1
  {
  }

  /** A run that is not dropped ends its section and stays below the unit. */
  lemma NotDropped(limit: nat, ns: Tokens)
    requires IsLimit(limit) && limit != 10 && ns != [] && 0 < ns[0] < 10 && !DropsBehind(limit, ns)
    requires AtPlace(ns, limit).Ends? && (RunLength(ns) > 1 || AtBoundary(ns[1..]))
    ensures AtBoundary(ns[RunLength(ns)..]) && Base10(ns[..RunLength(ns)]) < limit
  {
    hide SectionFrom, Scaled;
    if RunLength(ns) == 1 {
      OneDigitRun(ns);
    }
  }

  lemma BoundarySection(ns: Tokens, limit: nat)
    requires AtBoundary(ns) && SectionFrom(ns, limit).Ends?
    ensures SectionFrom(ns, limit) == Ends(0, ns) && limit < 10000
  {
  }

  lemma ZeroDropsNothing(limit: nat, ns: Tokens)
    requires ns != [] && ns[0] == 0
    ensures DropsBehind(limit, ns) <==> DropsBehind(limit, ns[1..])
  {
    hide CrowdedRun;
  }

  // ---------- the terms of a number ----------

  datatype Term = Term(coef: nat, base: nat)

  /** How many tokens stand in front of the first rank. */
  function SectionLength(ns: Tokens): (n: nat)
    ensures n <= |ns| && Small(ns[..n]) && AtBoundary(ns[n..])
  {
    if AtBoundary(ns) then 0 else 1 + SectionLength(ns[1..])
  }

  /** One term for each section and its rank; a section at the end has base 1. */
  function Terms(ns: Tokens): seq<Term> {
    if ns == [] then []
    else
      var n := SectionLength(ns);
      if n == |ns| then [Term(Reading(ns), 1)] else [Term(Reading(ns[..n]), ns[n])] + Terms(ns[n + 1..])
  }

  function SumOf(terms: seq<Term>): nat {
    if terms == [] then 0 else terms[0].coef * terms[0].base + SumOf(terms[1..])
  }

  /** The tokens that are ranks, in order. */
  function Ranks(ns: Tokens): seq<nat> {
    if ns == [] then [] else (if ns[0] >= 10000 then [ns[0]] else []) + Ranks(ns[1..])
  }

  function Bases(terms: seq<Term>): (bs: seq<nat>)
    ensures |bs| == |terms| && forall i :: 0 <= i < |terms| ==> bs[i] == terms[i].base
  {
    seq(|terms|, i requires 0 <= i < |terms| => terms[i].base)
  }

  lemma {:induction false} SectionLengthAt(h: Tokens, t: Tokens)
    requires Small(h) && AtBoundary(t)
    ensures SectionLength(h + t) == |h|
  {
    if h == [] {
      assert h + t == t;
    } else {
      assert (h + t)[0] == h[0] && (h + t)[1..] == h[1..] + t;
      SectionLengthAt(h[1..], t);
    }
  }

  lemma FirstTerm(h: Tokens, t: Tokens)
    requires Small(h) && AtBoundary(t) && (h != [] || t != [])
    ensures Terms(h + t) == if t == [] then [Term(Reading(h), 1)] else [Term(Reading(h), t[0])] + Terms(t[1..])
  {
    hide ReadFrom;
    SectionLengthAt(h, t);
    var ns := h + t;
    if t == [] {
      assert ns == h;
    } else {
      assert ns[..|h|] == h && ns[|h|] == t[0] && ns[|h| + 1..] == t[1..];
    }
  }

  lemma SumFirst(first: Term, terms: seq<Term>)
    ensures SumOf([first] + terms) == first.coef * first.base + SumOf(terms)
    ensures SumOf([first]) == first.coef * first.base
  {
    assert ([first] + terms)[1..] == terms && [first][1..] == [];
  }

  /** Every token sequence reads as the sum of its terms. */
  lemma {:induction false} ReadingSums(ns: Tokens)
    ensures Reading(ns) == SumOf(Terms(ns))
    decreases |ns|
  {
    hide ReadFrom, SumOf, Terms;
    EndOfReading(0, 0, 0);
    NoTerms();
    if ns != [] {
      var n := SectionLength(ns);
      var h, t := ns[..n], ns[n..];
      assert h + t == ns;
      FirstTerm(h, t);
      ReadingJoins(h, t, 0, 0);
      EndOfReading(0, Reading(h), 0);
      SumFirst(Term(Reading(h), if t == [] then 1 else t[0]), if t == [] then [] else Terms(t[1..]));
      if t != [] {
        RankReads(t, Reading(h));
        TotalAdds(t[1..], Reading(h) * t[0], 0, 0);
        ReadingSums(t[1..]);
      }
    }
  }

  lemma NoTerms()
    ensures Terms([]) == [] && SumOf([]) == 0
  {
  }

  lemma RankReads(t: Tokens, section: nat)
    requires t != [] && t[0] >= 10000
    ensures ReadFrom(t, 0, section, 0) == ReadFrom(t[1..], section * t[0], 0, 0)
  {
  }

  /** The bases are the ranks, all of them and in order, and a last 1 exactly if tokens follow the last rank. */
  lemma {:induction false} BasesAreRanks(ns: Tokens)
    ensures Bases(Terms(ns)) == Ranks(ns) + if ns != [] && ns[|ns| - 1] < 10000 then [1] else []
    decreases |ns|
  {
    hide ReadFrom, Terms, Ranks;
    NoTerms();
    if ns != [] {
      var n := SectionLength(ns);
      var h, t := ns[..n], ns[n..];
      assert h + t == ns;
      FirstTerm(h, t);
      RanksPastSection(ns, n);
      RanksFirst(t);
      if t != [] {
        BasesAreRanks(t[1..]);
        BasesFirst(Term(Reading(h), t[0]), Terms(t[1..]));
      } else {
        assert ns[|ns| - 1] == h[|ns| - 1];
        BasesFirst(Term(Reading(h), 1), []);
      }
    } else {
      RanksFirst(ns);
    }
  }

  lemma RanksFirst(t: Tokens)
    requires AtBoundary(t)
    ensures Ranks(t) == if t == [] then [] else [t[0]] + Ranks(t[1..])
  {
  }

  lemma BasesFirst(first: Term, terms: seq<Term>)
    ensures Bases([first] + terms) == [first.base] + Bases(terms) && Bases([first]) == [first.base] && Bases([]) == []
  {
  }

  lemma {:induction false} RanksPastSection(ns: Tokens, n: nat)
    requires n <= |ns| && Small(ns[..n])
    ensures Ranks(ns) == Ranks(ns[n..])
    decreases n
  {
    if n == 0 {
      assert ns[0..] == ns;
    } else {
      assert ns[0] == ns[..n][0] && ns[1..][..n - 1] == ns[..n][1..];
      RanksPastSection(ns[1..], n - 1);
      assert ns[1..][n - 1..] == ns[n..];
    }
  }

  // ---------- the whole number ----------

  /** Coefficients below 10000 on strictly decreasing ranks below `last`; only the last base may be 1. */
  ghost predicate Ranked(terms: seq<Term>, last: nat) {
    && (forall i :: 0 <= i < |terms| ==> terms[i].coef < 10000)
    && (forall i :: 0 <= i < |terms| ==> 10000 <= terms[i].base < last || (terms[i].base == 1 && i == |terms| - 1))
    && forall i, j :: 0 <= i < j < |terms| ==> terms[i].base > terms[j].base
  }

  /** The reducer accepts these tokens as a coefficient, and takes them for what they read as. */
  ghost predicate IsCoefficient(h: Tokens) {
    ReadPlaces(h).Accepted() && ReadPlaces(h).Sum() == Reading(h)
  }

  /** Every section is such a coefficient. */
  ghost predicate Coefficients(ns: Tokens)
    decreases |ns|
  {
    ns == [] ||
    var n := SectionLength(ns);
    && IsCoefficient(ns[..n])
    && (n == |ns| || Coefficients(ns[n + 1..]))
  }

  lemma FirstRanked(first: Term, terms: seq<Term>, last: nat)
    requires first.coef < 10000 && 10000 <= first.base < last && Ranked(terms, first.base)
    ensures Ranked([first] + terms, last)
  {
    var all := [first] + terms;
    forall i, j | 0 <= i < j < |all| ensures all[i].base > all[j].base {
      assert all[j] == terms[j - 1];
      if i > 0 { assert all[i] == terms[i - 1]; }
    }
  }

  lemma FirstCoefficient(h: Tokens, t: Tokens)
    requires AtBoundary(t) && h != [] && Small(h) && Reads(h, 10000, 0, Reading(h)) && (t == [] || Coefficients(t[1..]))
    ensures Coefficients(h + t)
  {
    hide IsCoefficient, Coefficients, Reads, ReadFrom, SectionLength;
    ReadsIsCoefficient(h);
    var ns := h + t;
    SectionLengthAt(h, t);
    CoefficientsUnfold(ns);
    assert ns[..|h|] == h;
    if t != [] { assert ns[|h| + 1..] == t[1..]; }
  }

  lemma CoefficientsUnfold(ns: Tokens)
    requires ns != []
    ensures var n := SectionLength(ns);
            Coefficients(ns) <==> IsCoefficient(ns[..n]) && (n == |ns| || Coefficients(ns[n + 1..]))
  {
    hide IsCoefficient, SectionLength;
  }

  lemma ReadsIsCoefficient(h: Tokens)
    requires Reads(h, 10000, 0, Reading(h))
    ensures IsCoefficient(h)
  {
    hide ReadPlaces, SectionFrom, ReadFrom;
    CoefficientIsSection(h);
  }

  /** One turn of the reducer is one term. */
  lemma TermTurn(ns: Tokens, last: nat, total: nat)
    requires SectionFrom(ns, 10000).Ends?
    ensures var v, t := SectionFrom(ns, 10000).value, SectionFrom(ns, 10000).rest;
            Interpret(ns, last, total) ==
            if t == [] then (if total + v <= U64_MAX then Some(total + v) else None)
            else if t[0] >= last || total + v * t[0] > U64_MAX then None
            else if |t| == 1 then Some(total + v * t[0])
            else Interpret(t[1..], t[0], total + v * t[0])
  {
    hide ReadPlaces, SectionFrom;
    CoefficientIsSection(ns);
  }

  lemma RefusedTurn(ns: Tokens, last: nat, total: nat)
    requires SectionFrom(ns, 10000).Refused?
    ensures Interpret(ns, last, total) == None
  {
    hide ReadPlaces, SectionFrom;
    CoefficientIsSection(ns);
  }

  lemma KeptPastRank(t: Tokens)
    requires AtBoundary(t)
    ensures Kept(t) == if t == [] then [] else [t[0]] + Kept(t[1..])
  {
    hide Crowded;
  }

  /** The first term of the kept tokens, whatever follows it. */
  lemma KeptTerms(ns: Tokens)
    requires SectionFrom(ns, 10000).Ends?
    ensures var v, t := SectionFrom(ns, 10000).value, SectionFrom(ns, 10000).rest;
            && Kept(ns) != [] && v < 10000
            && Terms(Kept(ns)) == (if t == [] then [Term(v, 1)] else [Term(v, t[0])] + Terms(Kept(t[1..])))
            && (t == [] || Coefficients(Kept(t[1..])) ==> Coefficients(Kept(ns)))
  {
    hide SectionFrom, ReadFrom, Terms, Coefficients, Kept, Crowded;
    var v, t := SectionFrom(ns, 10000).value, SectionFrom(ns, 10000).rest;
    SectionShrinks(ns, 10000);
    SectionBelow(ns, 10000);
    var h := SectionReads(ns, 10000, 0);
    NotEmptySection();
    assert Small(h);
    KeptPastRank(t);
    FirstTerm(h, Kept(t));
    if t == [] || Coefficients(Kept(t[1..])) { FirstCoefficient(h, Kept(t)); }
    assert t != [] ==> Kept(t)[1..] == Kept(t[1..]);
  }

  lemma NotEmptySection()
    ensures SectionFrom([], 10000) == Refused
  {
  }

  /**
    Exactly the well-formed sequences whose value fits 64 bits are accepted, and their value is the
    unbounded sum of the terms of the tokens that are kept.
  */
  lemma {:induction false} InterpretSums(ns: Tokens, last: nat, total: nat)
    ensures var v := total + SumOf(Terms(Kept(ns)));
            Interpret(ns, last, total) == if WellFormed(ns, last) && v <= U64_MAX then Some(v) else None
    ensures WellFormed(ns, last) ==> Kept(ns) != [] && Ranked(Terms(Kept(ns)), last) && Coefficients(Kept(ns))
    decreases |ns|
  {
    hide SectionFrom, ReadFrom, Terms, Coefficients, Kept, Interpret, SumOf;
    if SectionFrom(ns, 10000).Refused? {
      RefusedTurn(ns, last, total);
    } else {
      var v, t := SectionFrom(ns, 10000).value, SectionFrom(ns, 10000).rest;
      TermTurn(ns, last, total);
      KeptTerms(ns);
      SectionShrinks(ns, 10000);
      if t == [] {
        SumFirst(Term(v, 1), []);
      } else {
        var first, terms := Term(v, t[0]), Terms(Kept(t[1..]));
        SumFirst(first, terms);
        if |t| == 1 {
          LastRank(t);
          if t[0] < last { FirstRanked(first, terms, last); }
        } else {
          InterpretSums(t[1..], t[0], total + v * t[0]);
          if t[0] < last && WellFormed(t[1..], t[0]) { FirstRanked(first, terms, last); }
        }
      }
    }
  }

  lemma LastRank(t: Tokens)
    requires |t| == 1
    ensures Kept(t[1..]) == [] && Terms([]) == [] && SumOf([]) == 0 && Ranked([], t[0]) && Coefficients([])
  {
  }

  /** The ranks of an accepted number decrease: all of them, or those in front of the run that is dropped. */
  lemma RanksDecrease(ns: Tokens, last: nat, total: nat)
    requires Interpret(ns, last, total).Some?
    ensures var rs := Ranks(Kept(ns));
            && rs <= Ranks(ns) && (!Misplaced(ns) ==> rs == Ranks(ns))
            && (forall i :: 0 <= i < |rs| ==> rs[i] < last)
            && forall i, j :: 0 <= i < j < |rs| ==> rs[i] > rs[j]
  {
    hide Interpret, WellFormed, Terms, SumOf, Kept, Misplaced, Coefficients, Ranks;
    InterpretSums(ns, last, total);
    KeptAll(ns);
    RanksOfPrefix(Kept(ns), ns);
    var terms, rs := Terms(Kept(ns)), Ranks(Kept(ns));
    BasesAreRanks(Kept(ns));
    forall i | 0 <= i < |rs| ensures terms[i].base == rs[i] >= 10000 {
      RanksAreRanks(Kept(ns), i);
      assert Bases(terms)[i] == rs[i];
    }
  }

  lemma {:induction false} RanksOfPrefix(a: Tokens, b: Tokens)
    requires a <= b
    ensures Ranks(a) <= Ranks(b)
  {
    if a != [] { RanksOfPrefix(a[1..], b[1..]); }
  }

  lemma {:induction false} RanksAreRanks(ns: Tokens, i: nat)
    requires i < |Ranks(ns)|
    ensures Ranks(ns)[i] >= 10000
  {
    if ns[0] < 10000 { RanksAreRanks(ns[1..], i); } else if i > 0 { RanksAreRanks(ns[1..], i - 1); }
  }

  /** The value of an accepted number is the reading of the tokens that are kept. */
  lemma InterpretKeeps(ns: Tokens, last: nat, total: nat)
    ensures var v := total + Reading(Kept(ns));
            Interpret(ns, last, total) == if WellFormed(ns, last) && v <= U64_MAX then Some(v) else None
  {
    hide Interpret, WellFormed, ReadFrom, Kept, Terms, SumOf, Ranked, Coefficients;
    InterpretSums(ns, last, total);
    ReadingSums(Kept(ns));
  }

  /**
    Whenever the reducer accepts, its result is the reading of the tokens if and only if no run is
    misplaced; otherwise it is smaller.
  */
  lemma InterpretReads(ns: Tokens, last: nat, total: nat)
    requires Interpret(ns, last, total).Some?
    ensures var v := Interpret(ns, last, total).value;
            && v <= ReadFrom(ns, total, 0, 0)
            && (v == ReadFrom(ns, total, 0, 0) <==> !Misplaced(ns))
  {
    hide Interpret, WellFormed, ReadFrom, Kept, Misplaced;
    InterpretKeeps(ns, last, total);
    TotalAdds(ns, total, 0, 0);
    KeptAll(ns);
    if Misplaced(ns) { KeptReads(ns, 0, 0, 0); }
  }

  lemma CoefficientBelow10000(ns: Tokens)
    requires ReadPlaces(ns).Accepted()
    ensures ReadPlaces(ns).Sum() < 10000
  {
    hide ReadPlaces, SectionFrom;
    CoefficientIsSection(ns);
    SectionBelow(ns, 10000);
  }

  /** The central agreement: an accepted number is what its tokens read as, iff no run is misplaced. */
  lemma NormalizeReads(ns: Tokens)
    requires Normalize(ns).Some?
    ensures Normalize(ns).value <= Reading(ns)
    ensures Normalize(ns).value == Reading(ns) <==> !Misplaced(ns)
  {
    hide Interpret, ReadFrom, Misplaced;
    if MaxToken(ns) < 10 {
      DigitsOnly(ns);
    } else {
      InterpretReads(ns, U64_MAX, 0);
    }
  }

  ghost predicate AllDigitTokens(ns: Tokens) {
    forall i :: 0 <= i < |ns| ==> ns[i] < 10
  }

  /** Which token sequences are numbers, and which number they are. */
  lemma NormalizeExactly(ns: Tokens)
    ensures Normalize(ns) ==
            if ns != [] && (AllDigitTokens(ns) || WellFormed(ns, U64_MAX)) && Reading(Kept(ns)) <= U64_MAX
            then Some(Reading(Kept(ns))) else None
  {
    hide Interpret, ReadFrom, Kept, WellFormed, Misplaced;
    if AllDigitTokens(ns) {
      DigitsOnly(ns);
      KeptAll(ns);
    } else {
      InterpretKeeps(ns, U64_MAX, 0);
    }
  }

  lemma DigitsOnly(ns: Tokens)
    requires forall i :: 0 <= i < |ns| ==> ns[i] < 10
    ensures Reading(ns) == Base10(ns) && !Misplaced(ns)
  {
    hide ReadFrom, Kept, Misplaced;
    ReadingOfRun(ns, |ns|, 0, 0);
    EndOfReading(0, 0, Base10(ns));
    KeptPastDigits(ns, |ns|);
    assert ns[|ns|..] == [] && ns[..|ns|] == ns;
    KeptPastRank([]);
    KeptAll(ns);
  }

  /** 千 followed by any crowded run is accepted as 1000, whatever else comes after it. */
  lemma DroppedDigits(t: Tokens)
    requires Crowded(t, 1000)
    ensures Normalize([1000] + t) == Some(1000) && Reading([1000] + t) > 1000
  {
    hide ReduceDigits, Crowded, ReadFrom;
    var ns: Tokens := [1000] + t;
    assert ns[0] == 1000 && ns[1..] == t;
    LeadingThousand(ns);
    AbandonedIsCrowded(t, 100);
    BoundaryDeclines([], 10);
    assert MaxToken(ns) >= ns[0];
    InterpretReads(ns, U64_MAX, 0);
    assert Misplaced(ns);
  }

  lemma AbandonedIsCrowded(ns: Tokens, base: nat)
    ensures ReduceDigits(ns, base).Abandoned? <==> Crowded(ns, base * 10)
  {
    hide Base10, RunLength, SkipZeros;
  }

  lemma LeadingThousand(ns: Tokens)
    requires ns != [] && ns[0] == 1000
    ensures ReduceDigits(ns, 1000) == Taken(1000, ns[1..])
  {
  }

  /** 千9999 is such an input. */
  lemma DroppedDigitsExample()
    ensures Crowded([9, 9, 9, 9], 1000)
  {
    var t: Tokens := [9, 9, 9, 9];
    RunLengthAt(t, 4);
    assert t[..4] == t;
    assert t[..3] == [9, 9, 9] && [9, 9, 9][..2] == [9, 9];
    assert Base10([9, 9][..1]) == 9;
    assert Base10([9, 9]) == 99;
  }
}
