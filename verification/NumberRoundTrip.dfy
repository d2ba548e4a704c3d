/**
  Printed numbers, seen as the tokens their characters stand for, and what the reducer makes
  of them. A number is printed as groups of four digits, most significant group first, each
  followed by its rank 10000^r.
*/
module NumberRoundTrip {
  import opened Wrappers
  import opened NumberParser
  import opened NumberGrammar
  import opened NumberReading

  /** The digits of one group, thousands first. */
  datatype Group = Group(thousands: nat, hundreds: nat, tens: nat, ones: nat) {
    ghost predicate Valid() {
      thousands < 10 && hundreds < 10 && tens < 10 && ones < 10
    }

    function Value(): nat {
      thousands * 1000 + hundreds * 100 + tens * 10 + ones
    }
  }

  /** How a group is spelled: plain digits, kanji (十 for 10), formal kanji (壱拾), formal kanji with 廿 for 20. */
  datatype Spelling = Arabic | Kanji | Formal | FormalTwenty

  function Place(sp: Spelling, digit: U64, unit: U64): Tokens {
    if digit == 0 then []
    else if sp.Kanji? && digit == 1 then [unit]
    else if sp.FormalTwenty? && digit == 2 && unit == 10 then [20]
    else [digit, unit]
  }

  function Ones(digit: U64): Tokens {
    if digit == 0 then [] else [digit]
  }

  function DigitTokens(g: Group): (ds: Tokens)
    requires g.Valid()
    ensures |ds| == 4 && ds[0] == g.thousands && ds[1] == g.hundreds && ds[2] == g.tens && ds[3] == g.ones
  {
    [g.thousands, g.hundreds, g.tens, g.ones]
  }

  function GroupTokens(sp: Spelling, g: Group): Tokens
    requires g.Valid()
  {
    if sp.Arabic? then SkipZeros(DigitTokens(g))
    else Place(sp, g.thousands, 1000) + Place(sp, g.hundreds, 100) + Place(sp, g.tens, 10) + Ones(g.ones)
  }

  /** A leading 1 in front of 10 or 100 is not Japanese, and the reducer refuses it. */
  predicate Readable(sp: Spelling, g: Group) {
    sp.Formal? || sp.FormalTwenty? ==> g.hundreds != 1 && g.tens != 1
  }

  // ---------- single places ----------

  /** Tokens that no place of `base` starts with. */
  predicate Foreign(ns: Tokens, base: nat) {
    || ns == []
    || (ns[0] >= 10 && ns[0] != base && !(base == 10 && ns[0] == 20))
    || (0 < ns[0] < 10 && (|ns| == 1 || (ns[1] >= 10 && (ns[1] != base || (ns[0] == 1 && base != 1000)))))
  }

  lemma ForeignDeclined(ns: Tokens, base: nat)
    requires Foreign(ns, base)
    ensures ReduceDigits(ns, base) == Declined(ns)
  {
    hide RunLength, Base10;
  }

  lemma PlaceParses(sp: Spelling, digit: U64, unit: U64, t: Tokens)
    requires unit == 10 || unit == 100 || unit == 1000
    requires 0 < digit < 10 && !sp.Arabic? && (sp.Kanji? || digit != 1 || unit == 1000)
    ensures ReduceDigits(Place(sp, digit, unit) + t, unit) == Taken(digit * unit, t)
  {
    hide RunLength, Base10;
    var ns := Place(sp, digit, unit) + t;
    var k := |Place(sp, digit, unit)|;
    assert ns[k..] == t;
    assert ns[0] == Place(sp, digit, unit)[0];
    assert k == 2 ==> ns[1] == unit;
  }

  /** What follows a place of `unit` belongs to a smaller place, or to none. */
  predicate Below(ns: Tokens, unit: nat) {
    || AtBoundary(ns)
    || (10 <= ns[0] < unit)
    || (0 < ns[0] < 10 && (|ns| == 1 || 10 <= ns[1] < unit || ns[1] >= 10000))
  }

  lemma BelowForeign(ns: Tokens, unit: nat, base: nat)
    requires Below(ns, unit) && unit <= base && (base == 100 || base == 1000 || base == 10)
    ensures Foreign(ns, base)
  {
  }

  lemma PlaceBelow(sp: Spelling, digit: U64, unit: U64, t: Tokens, bound: nat)
    requires unit == 10 || unit == 100 || unit == 1000
    requires digit < 10 && !sp.Arabic? && Below(t, unit) && 20 < bound && unit < bound
    ensures Below(Place(sp, digit, unit) + t, bound)
  {
    var ns := Place(sp, digit, unit) + t;
    if digit == 0 {
      assert ns == t;
    } else {
      assert ns[0] == Place(sp, digit, unit)[0];
      assert |Place(sp, digit, unit)| == 2 ==> ns[1] == unit;
    }
  }

  lemma OnesBelow(digit: U64, t: Tokens)
    requires digit < 10 && AtBoundary(t)
    ensures Below(Ones(digit) + t, 10)
  {
    if digit == 0 { assert Ones(digit) + t == t; }
  }

  /** One place of a printed group is read back, whatever its digit. */
  lemma PlaceStep(sp: Spelling, digit: U64, unit: U64, t: Tokens)
    requires unit == 10 || unit == 100 || unit == 1000
    requires digit < 10 && !sp.Arabic? && Below(t, unit) && (sp.Kanji? || digit != 1 || unit == 1000)
    ensures var r := ReduceDigits(Place(sp, digit, unit) + t, unit);
            !r.Abandoned? && r.rest == t && Digit(r) == digit * unit && (r.Taken? <==> digit != 0)
  {
    hide ReduceDigits;
    if digit == 0 {
      assert Place(sp, digit, unit) + t == t;
      BelowForeign(t, unit, unit);
      ForeignDeclined(t, unit);
    } else {
      PlaceParses(sp, digit, unit, t);
    }
  }

  lemma OnesStep(digit: U64, t: Tokens)
    requires digit < 10 && AtBoundary(t)
    ensures var r := ReduceOnes(Ones(digit) + t);
            !r.Abandoned? && r.Rest() == t && Digit(r) == digit && (r.Taken? <==> digit != 0)
  {
    if digit == 0 { assert Ones(digit) + t == t; } else { assert (Ones(digit) + t)[1..] == t; }
  }

  /** A readable group in kanji is read back as its value, up to the boundary that follows it. */
  lemma KanjiGroupParses(sp: Spelling, g: Group, t: Tokens)
    requires g.Valid() && g.Value() > 0 && !sp.Arabic? && Readable(sp, g) && AtBoundary(t)
    ensures var p := ReadPlaces(GroupTokens(sp, g) + t);
            p.Accepted() && p.Sum() == g.Value() && p.ones.Rest() == t
  {
    hide ReduceDigits, ReduceOnes, Place, Ones, Below;
    var o := Ones(g.ones) + t;
    var x := Place(sp, g.tens, 10) + o;
    var h := Place(sp, g.hundreds, 100) + x;
    var ns := Place(sp, g.thousands, 1000) + h;
    assert GroupTokens(sp, g) + t == ns;
    OnesBelow(g.ones, t);
    PlaceBelow(sp, g.tens, 10, o, 100);
    PlaceBelow(sp, g.hundreds, 100, x, 1000);
    PlaceStep(sp, g.thousands, 1000, h);
    PlaceStep(sp, g.hundreds, 100, x);
    PlaceStep(sp, g.tens, 10, o);
    OnesStep(g.ones, t);
  }

  /** A formal group with 壱拾 or 壱百 is refused. */
  lemma UnreadableGroupRefused(sp: Spelling, g: Group, t: Tokens)
    requires g.Valid() && !sp.Arabic? && !Readable(sp, g) && AtBoundary(t)
    ensures !ReadPlaces(GroupTokens(sp, g) + t).Accepted()
  {
    hide ReduceDigits, Place, Ones, Below;
    var o := Ones(g.ones) + t;
    var x := Place(sp, g.tens, 10) + o;
    var h := Place(sp, g.hundreds, 100) + x;
    var ns := Place(sp, g.thousands, 1000) + h;
    assert GroupTokens(sp, g) + t == ns;
    OnesBelow(g.ones, t);
    PlaceBelow(sp, g.tens, 10, o, 100);
    PlaceBelow(sp, g.hundreds, 100, x, 1000);
    PlaceStep(sp, g.thousands, 1000, h);
    if g.hundreds == 1 {
      LoneOne(sp, 100, x, 100);
      LoneOne(sp, 100, x, 10);
    } else {
      PlaceStep(sp, g.hundreds, 100, x);
      LoneOne(sp, 10, o, 10);
    }
  }

  lemma LoneOne(sp: Spelling, unit: U64, t: Tokens, base: nat)
    requires (sp.Formal? || sp.FormalTwenty?) && (unit == 10 || unit == 100) && (base == 10 || base == 100)
    ensures var ns := Place(sp, 1, unit) + t;
            ReduceDigits(ns, base) == Declined(ns) && ReduceOnes(ns) == Taken(1, [unit] + t)
  {
    hide ReduceDigits;
    var ns := Place(sp, 1, unit) + t;
    ForeignDeclined(ns, base);
    assert ns[1..] == [unit] + t;
  }

  // ---------- plain digits ----------

  lemma {:induction false} Base10SkipsZeros(ds: Tokens)
    ensures Base10(SkipZeros(ds)) == Base10(ds)
    decreases |ds|
  {
    if ds != [] && ds[0] == 0 {
      Base10SkipsZeros(ds[1..]);
      Base10LeadingZero(ds);
    }
  }

  lemma {:induction false} Base10LeadingZero(ds: Tokens)
    requires ds != [] && ds[0] == 0
    ensures Base10(ds) == Base10(ds[1..])
  {
    if |ds| > 1 {
      Base10LeadingZero(ds[..|ds| - 1]);
      assert ds[..|ds| - 1][1..] == ds[1..][..|ds| - 2];
    } else {
      assert ds[..0] == [];
    }
  }

  lemma {:induction false} SkipZerosDigits(ds: Tokens)
    requires forall i :: 0 <= i < |ds| ==> ds[i] < 10
    ensures forall i :: 0 <= i < |SkipZeros(ds)| ==> SkipZeros(ds)[i] < 10
    decreases |ds|
  {
    if ds != [] && ds[0] == 0 { SkipZerosDigits(ds[1..]); }
  }

  lemma FourDigits(g: Group)
    requires g.Valid()
    ensures Base10(DigitTokens(g)) == g.Value()
  {
    var ds := DigitTokens(g);
    SingleDigit(g.thousands);
    assert [g.thousands, g.hundreds][..1] == [g.thousands];
    assert [g.thousands, g.hundreds, g.tens][..2] == [g.thousands, g.hundreds];
    assert ds[..3] == [g.thousands, g.hundreds, g.tens];
    assert Base10(ds[..3]) == Base10([g.thousands, g.hundreds]) * 10 + g.tens;
  }

  lemma WithoutZeros(ds: Tokens)
    requires Base10(ds) > 0 && forall i :: 0 <= i < |ds| ==> ds[i] < 10
    ensures var s := SkipZeros(ds);
            s != [] && Base10(s) == Base10(ds) && forall i :: 0 <= i < |s| ==> s[i] < 10
  {
    hide Base10, SkipZeros;
    Base10SkipsZeros(ds);
    SkipZerosDigits(ds);
    if SkipZeros(ds) == [] { NoDigits(); }
  }

  /** The printed digits of a nonzero group: no zero in front, and the group's value. */
  lemma ArabicTokens(g: Group)
    requires g.Valid() && g.Value() > 0
    ensures var s := GroupTokens(Arabic, g);
            s != [] && s[0] != 0 && Base10(s) == g.Value() && forall i :: 0 <= i < |s| ==> s[i] < 10
  {
    hide Base10, SkipZeros;
    FourDigits(g);
    WithoutZeros(DigitTokens(g));
  }

  lemma ArabicGroupParses(g: Group, t: Tokens)
    requires g.Valid() && g.Value() > 0 && AtBoundary(t)
    ensures var p := ReadPlaces(GroupTokens(Arabic, g) + t);
            p.Accepted() && p.Sum() == g.Value() && p.ones.Rest() == t
  {
    hide ReduceDigits, Base10, GroupTokens;
    var s := GroupTokens(Arabic, g);
    ArabicTokens(g);
    if |s| == 1 {
      assert s == [s[0]];
      SingleDigit(s[0]);
      SingleDigitParses(s[0], t);
    } else {
      RunParses(s, t);
      BoundaryDeclines(t, 100);
      BoundaryDeclines(t, 10);
    }
  }

  lemma SingleDigit(d: U64)
    ensures Base10([d]) == d
  {
    assert [d][..0] == [];
  }

  lemma SingleDigitParses(d: U64, t: Tokens)
    requires 0 < d < 10 && AtBoundary(t)
    ensures var p := ReadPlaces([d] + t);
            p.Accepted() && p.Sum() == d && p.ones.Rest() == t
  {
    hide ReduceDigits;
    var ns := [d] + t;
    assert ns[1..] == t;
    ForeignDeclined(ns, 1000);
    ForeignDeclined(ns, 100);
    ForeignDeclined(ns, 10);
  }

  lemma RunParses(s: Tokens, t: Tokens)
    requires |s| >= 2 && s[0] != 0 && (forall i :: 0 <= i < |s| ==> s[i] < 10)
    requires Base10(s) < 10000 && AtBoundary(t)
    ensures ReduceDigits(s + t, 1000) == Taken(Base10(s), t)
  {
    hide Base10;
    var ns := s + t;
    RunLengthAt(ns, |s|);
    assert ns[..|s|] == s && ns[|s|..] == t;
    assert SkipZeros(ns) == ns;
  }

  // ---------- whole numbers ----------

  function Rank(r: nat): (v: nat)
    ensures v > 0 && (r > 0 ==> v >= 10000)
  {
    if r == 0 then 1 else 10000 * Rank(r - 1)
  }

  lemma RankBounds(r: nat)
    requires r <= 4
    ensures Rank(r) <= 10000_0000_0000_0000 < U64_MAX
  {
    assert Rank(1) == 10000 && Rank(2) == 1_0000_0000 && Rank(3) == 1_0000_0000_0000;
  }

  ghost predicate AllValid(gs: seq<Group>) {
    |gs| <= 5 && forall i :: 0 <= i < |gs| ==> gs[i].Valid()
  }

  function Weight(g: Group, r: nat): nat {
    g.Value() * Rank(r)
  }

  /** The value of the `r` least significant groups; group i weighs 10000^i. */
  function GroupsValue(gs: seq<Group>, r: nat): nat
    requires r <= |gs|
  {
    if r == 0 then 0 else Weight(gs[r - 1], r - 1) + GroupsValue(gs, r - 1)
  }

  /** The tokens of the `r` least significant groups, most significant first, empty groups left out. */
  function NumberTokens(sp: Spelling, gs: seq<Group>, r: nat): Tokens
    requires r <= |gs| && AllValid(gs)
  {
    if r == 0 then []
    else if gs[r - 1].Value() == 0 then NumberTokens(sp, gs, r - 1)
    else
      RankBounds(r - 1);
      GroupTokens(sp, gs[r - 1]) + (if r == 1 then [] else [Rank(r - 1)] + NumberTokens(sp, gs, r - 1))
  }

  ghost predicate AllReadable(sp: Spelling, gs: seq<Group>, r: nat)
    requires r <= |gs|
  {
    forall i :: 0 <= i < r ==> Readable(sp, gs[i])
  }

  lemma GroupParses(sp: Spelling, g: Group, t: Tokens)
    requires g.Valid() && g.Value() > 0 && Readable(sp, g) && AtBoundary(t)
    ensures var p := ReadPlaces(GroupTokens(sp, g) + t);
            p.Accepted() && p.Sum() == g.Value() && p.ones.Rest() == t
  {
    hide ReadPlaces, GroupTokens;
    if sp.Arabic? { ArabicGroupParses(g, t); } else { KanjiGroupParses(sp, g, t); }
  }

  /** One turn of the reducer's loop, once the places of the coefficient are known. */
  lemma OneTurn(p: Places, last: nat, total: nat)
    requires p.Accepted() && (p.ones.Rest() == [] || p.ones.Rest()[0] < last)
    ensures var t := p.ones.Rest();
            var sum := if t == [] then total + p.Sum() else total + p.Sum() * t[0];
            && (sum > U64_MAX ==> Resume(p, last, total) == None)
            && (sum <= U64_MAX && |t| <= 1 ==> Resume(p, last, total) == Some(sum))
            && (sum <= U64_MAX && |t| > 1 ==> Resume(p, last, total) == Interpret(t[1..], t[0], sum))
  {
    hide Interpret;
  }

  /** What a readable group in front contributes, and where the reducer goes on. */
  lemma FirstGroup(sp: Spelling, gs: seq<Group>, r: nat, last: nat, total: nat)
    requires 0 < r <= |gs| && AllValid(gs) && gs[r - 1].Value() > 0 && Readable(sp, gs[r - 1]) && last > Rank(r - 1)
    ensures var sum := total + Weight(gs[r - 1], r - 1);
            var tail := if r == 1 then [] else NumberTokens(sp, gs, r - 1);
            Interpret(NumberTokens(sp, gs, r), last, total) ==
            if sum > U64_MAX then None else if tail == [] then Some(sum) else Interpret(tail, Rank(r - 1), sum)
  {
    hide ReadPlaces, GroupTokens, Readable, Resume, Places.Accepted, Places.Sum, Reduced.Rest, Weight, Group.Value,
        Interpret;
    var g := gs[r - 1];
    RankBounds(r - 1);
    var tail := if r == 1 then [] else NumberTokens(sp, gs, r - 1);
    var t: Tokens := if r == 1 then [] else [Rank(r - 1)] + tail;
    assert GroupTokens(sp, g) + [] == GroupTokens(sp, g);
    assert NumberTokens(sp, gs, r) == GroupTokens(sp, g) + t;
    GroupParses(sp, g, t);
    WeightIs(g, r - 1);
    InterpretIs(NumberTokens(sp, gs, r), last, total);
    OneTurn(ReadPlaces(NumberTokens(sp, gs, r)), last, total);
    assert r > 1 ==> t[1..] == tail;
  }

  lemma InterpretIs(ns: Tokens, last: nat, total: nat)
    ensures Interpret(ns, last, total) == Resume(ReadPlaces(ns), last, total)
  {
    hide ReadPlaces, Resume;
  }

  /** An empty group in front prints nothing and weighs nothing. */
  lemma EmptyGroup(sp: Spelling, gs: seq<Group>, r: nat)
    requires 0 < r <= |gs| && AllValid(gs) && gs[r - 1].Value() == 0
    ensures NumberTokens(sp, gs, r) == NumberTokens(sp, gs, r - 1) && GroupsValue(gs, r) == GroupsValue(gs, r - 1)
  {
    hide GroupTokens, Rank, Group.Value;
  }

  /** The reducer gives back the number that was printed, or fails exactly because it exceeds 64 bits. */
  lemma {:induction false} NumberParses(sp: Spelling, gs: seq<Group>, r: nat, last: nat, total: nat)
    requires r <= |gs| && AllValid(gs) && AllReadable(sp, gs, r)
    requires NumberTokens(sp, gs, r) != [] && r > 0 && last > Rank(r - 1)
    ensures Interpret(NumberTokens(sp, gs, r), last, total) ==
            if total + GroupsValue(gs, r) <= U64_MAX then Some(total + GroupsValue(gs, r)) else None
  {
    hide Interpret, NumberTokens, Readable, Group.Value, Weight, Rank;
    RankBounds(r - 1);
    NoTokens(sp, gs);
    if gs[r - 1].Value() == 0 {
      EmptyGroup(sp, gs, r);
      RankGrows(r - 1);
      NumberParses(sp, gs, r - 1, last, total);
    } else {
      FirstGroup(sp, gs, r, last, total);
      EmptyTokens(sp, gs, r - 1);
      var sum := total + Weight(gs[r - 1], r - 1);
      if r > 1 && NumberTokens(sp, gs, r - 1) != [] && sum <= U64_MAX {
        RankGrows(r - 1);
        NumberParses(sp, gs, r - 1, Rank(r - 1), sum);
      }
    }
  }

  lemma NoTokens(sp: Spelling, gs: seq<Group>)
    requires AllValid(gs)
    ensures NumberTokens(sp, gs, 0) == []
  {
  }

  lemma RankGrows(r: nat)
    requires r > 0
    ensures Rank(r) > Rank(r - 1)
  {
  }

  lemma WeightIs(g: Group, r: nat)
    ensures Weight(g, r) == g.Value() * Rank(r)
    ensures Weight(g, 0) == g.Value()
  {
    hide Group.Value;
  }

  lemma WeightSign(g: Group, r: nat)
    ensures Weight(g, r) == 0 <==> g.Value() == 0
    ensures Weight(g, 0) == g.Value()
  {
    hide Group.Value;
    if g.Value() > 0 { Positive(g.Value(), Rank(r)); }
  }

  lemma Positive(a: nat, b: nat)
    requires a > 0 && b > 0
    ensures a * b >= a && a * b >= b
  {
  }

  /** Nothing is printed exactly for zero. */
  lemma {:induction false} EmptyTokens(sp: Spelling, gs: seq<Group>, r: nat)
    requires r <= |gs| && AllValid(gs)
    ensures NumberTokens(sp, gs, r) == [] <==> GroupsValue(gs, r) == 0
  {
    hide GroupTokens, Rank, Weight;
    if r > 0 {
      EmptyTokens(sp, gs, r - 1);
      WeightSign(gs[r - 1], r - 1);
      if gs[r - 1].Value() > 0 { GroupPrintsSomething(sp, gs[r - 1]); }
    }
  }

  lemma GroupPrintsSomething(sp: Spelling, g: Group)
    requires g.Valid() && g.Value() > 0
    ensures GroupTokens(sp, g) != [] && GroupTokens(sp, g)[0] != 0
  {
    hide SkipZeros;
    if sp.Arabic? { ArabicTokens(g); }
  }

  /** One group the reducer refuses makes it refuse the whole number. */
  lemma {:induction false} NumberRefused(sp: Spelling, gs: seq<Group>, r: nat, last: nat, total: nat)
    requires r <= |gs| && AllValid(gs) && !AllReadable(sp, gs, r) && r > 0 && last > Rank(r - 1)
    ensures Interpret(NumberTokens(sp, gs, r), last, total) == None
  {
    hide Interpret, NumberTokens, Readable, Group.Value, Weight, Rank;
    RankBounds(r - 1);
    if gs[r - 1].Value() == 0 {
      EmptyGroup(sp, gs, r);
      UnreadableBelow(sp, gs, r);
      RankGrows(r - 1);
      NumberRefused(sp, gs, r - 1, last, total);
    } else if !Readable(sp, gs[r - 1]) {
      FirstGroupRefused(sp, gs, r, last, total);
    } else {
      FirstGroup(sp, gs, r, last, total);
      UnreadableNotZero(sp, gs, r - 1);
      EmptyTokens(sp, gs, r - 1);
      var sum := total + Weight(gs[r - 1], r - 1);
      if sum <= U64_MAX {
        RankGrows(r - 1);
        NumberRefused(sp, gs, r - 1, Rank(r - 1), sum);
      }
    }
  }

  lemma UnreadableBelow(sp: Spelling, gs: seq<Group>, r: nat)
    requires 0 < r <= |gs| && AllValid(gs) && gs[r - 1].Value() == 0 && !AllReadable(sp, gs, r)
    ensures r > 1 && !AllReadable(sp, gs, r - 1)
  {
  }

  lemma FirstGroupRefused(sp: Spelling, gs: seq<Group>, r: nat, last: nat, total: nat)
    requires 0 < r <= |gs| && AllValid(gs) && gs[r - 1].Value() > 0 && !Readable(sp, gs[r - 1])
    ensures Interpret(NumberTokens(sp, gs, r), last, total) == None
  {
    hide ReadPlaces, GroupTokens, Resume, Places.Accepted, Interpret;
    var g := gs[r - 1];
    RankBounds(r - 1);
    var t: Tokens := if r == 1 then [] else [Rank(r - 1)] + NumberTokens(sp, gs, r - 1);
    assert GroupTokens(sp, g) + [] == GroupTokens(sp, g);
    UnreadableGroupRefused(sp, g, t);
    InterpretIs(NumberTokens(sp, gs, r), last, total);
    RefusedPlaces(ReadPlaces(NumberTokens(sp, gs, r)), last, total);
  }

  lemma RefusedPlaces(p: Places, last: nat, total: nat)
    requires !p.Accepted()
    ensures Resume(p, last, total) == None
  {
  }

  lemma {:induction false} UnreadableNotZero(sp: Spelling, gs: seq<Group>, r: nat)
    requires r <= |gs| && AllValid(gs) && !AllReadable(sp, gs, r)
    ensures GroupsValue(gs, r) > 0
  {
    hide Weight;
    WeightSign(gs[r - 1], r - 1);
    if Readable(sp, gs[r - 1]) {
      UnreadableNotZero(sp, gs, r - 1);
    }
  }

  lemma GroupRange(sp: Spelling, g: Group)
    requires g.Valid()
    ensures g.Value() < 10000 && (g.Value() == 0 ==> Readable(sp, g))
  {
  }

  /** A number of two groups, or with a group the reducer refuses, shows a unit among its tokens. */
  lemma {:induction false} UnitShown(sp: Spelling, gs: seq<Group>, r: nat) returns (i: nat)
    requires r <= |gs| && AllValid(gs)
    requires !AllReadable(sp, gs, r) || GroupsValue(gs, r) >= 10000
    ensures i < |NumberTokens(sp, gs, r)| && NumberTokens(sp, gs, r)[i] >= 10
  {
    hide GroupTokens, Weight, Rank, Group.Value;
    var g := gs[r - 1];
    WeightSign(g, r - 1);
    GroupRange(sp, g);
    if g.Value() == 0 {
      i := UnitShown(sp, gs, r - 1);
    } else if r > 1 {
      RankBounds(r - 1);
      i := |GroupTokens(sp, g)|;
    } else {
      assert NumberTokens(sp, gs, 1) == GroupTokens(sp, g) + [] == GroupTokens(sp, g);
      assert g.Value() == GroupsValue(gs, 1) by { assert GroupsValue(gs, 0) == 0; }
      i := UnitInGroup(sp, g);
    }
  }

  lemma UnitInGroup(sp: Spelling, g: Group) returns (i: nat)
    requires g.Valid() && !Readable(sp, g)
    ensures i < |GroupTokens(sp, g)| && GroupTokens(sp, g)[i] >= 10
  {
    hide Place, Ones;
    var h, x := Place(sp, g.hundreds, 100), Place(sp, g.tens, 10);
    var k := |Place(sp, g.thousands, 1000)|;
    OneInPlace(sp, 100);
    OneInPlace(sp, 10);
    i := if g.hundreds == 1 then k + 1 else k + |h| + 1;
    assert GroupTokens(sp, g)[i] == if g.hundreds == 1 then h[1] else x[1];
  }

  lemma OneInPlace(sp: Spelling, unit: U64)
    ensures sp.Formal? || sp.FormalTwenty? ==> Place(sp, 1, unit) == [1, unit]
  {
  }

  /**
    The round trip on tokens: for every spelling and every number of at most five groups, the
    tokens of the printed number normalise to exactly that number if it fits 64 bits and all of
    its groups are readable, and to nothing otherwise.
  */
  lemma PrintedNumberNormalizes(sp: Spelling, gs: seq<Group>)
    requires AllValid(gs) && GroupsValue(gs, |gs|) > 0
    ensures var v := GroupsValue(gs, |gs|);
            Normalize(NumberTokens(sp, gs, |gs|)) == if AllReadable(sp, gs, |gs|) && v <= U64_MAX then Some(v) else None
  {
    hide NumberTokens, Interpret, ReadFrom, AllReadable, Misplaced;
    var ns, v := NumberTokens(sp, gs, |gs|), GroupsValue(gs, |gs|);
    EmptyTokens(sp, gs, |gs|);
    RankBounds(|gs| - 1);
    if AllReadable(sp, gs, |gs|) {
      NumberParses(sp, gs, |gs|, U64_MAX, 0);
    } else {
      NumberRefused(sp, gs, |gs|, U64_MAX, 0);
    }
    if MaxToken(ns) < 10 {
      if !AllReadable(sp, gs, |gs|) || v >= 10000 {
        var i := UnitShown(sp, gs, |gs|);
        assert false;
      }
      InterpretReads(ns, U64_MAX, 0);
      DigitsOnly(ns);
    }
  }
}
