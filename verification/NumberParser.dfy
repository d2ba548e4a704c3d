/**
  The reducer of `NumberUtil`: it turns a sequence of number tokens such as
  [1, 10000, 2, 1000, 3, 100, 4, 10, 5] into the 64-bit number it is read as.

  Iterators that the program moves by reference are indices here; the specification
  functions work on the suffix that starts at such an index.
*/
module NumberParser {
  import opened Wrappers

  const U64_MAX: nat := 0xFFFF_FFFF_FFFF_FFFF
  const TWO_TO_64: nat := 0x1_0000_0000_0000_0000

  type U64 = n: nat | n <= U64_MAX
  type Tokens = seq<U64>

  // ---------- checked 64-bit arithmetic ----------

  method AddAndCheckOverflow(arg1: U64, arg2: U64) returns (ok: bool, output: U64)
    ensures ok <==> arg1 + arg2 <= U64_MAX == 18446744073709551615
    ensures output == (arg1 + arg2) % TWO_TO_64
    ensures ok ==> output == arg1 + arg2
  {
    output := (arg1 + arg2) % TWO_TO_64;
    if arg2 > U64_MAX - arg1 {
      return false, output;
    }
    return true, output;
  }

  method MultiplyAndCheckOverflow(arg1: U64, arg2: U64) returns (ok: bool, output: U64)
    ensures ok <==> arg1 * arg2 <= U64_MAX == 18446744073709551615
    ensures output == (arg1 * arg2) % TWO_TO_64
    ensures ok ==> output == arg1 * arg2
  {
    output := (arg1 * arg2) % TWO_TO_64;
    if arg1 != 0 {
      QuotientBound(arg1, arg2, U64_MAX);
      if arg2 > U64_MAX / arg1 {
        return false, output;
      }
    }
    return true, output;
  }

  lemma QuotientBound(a: nat, b: nat, m: nat)
    requires a != 0
    ensures b <= m / a <==> a * b <= m
  {
    var q := m / a;
    assert m == a * q + m % a;
    if b <= q {
      assert a * b <= a * q;
    } else {
      assert a * (q + 1) <= a * b;
      assert a * (q + 1) == a * q + a;
    }
  }

  // ---------- runs of digits ----------

  /** The number a sequence of digits denotes in base 10, unbounded. */
  function Base10(ds: Tokens): nat {
    if ds == [] then 0 else Base10(ds[..|ds| - 1]) * 10 + ds[|ds| - 1]
  }

  /** How many leading tokens are single digits. */
  function RunLength(ns: Tokens): (k: nat)
    ensures k <= |ns|
    ensures forall i :: 0 <= i < k ==> ns[i] < 10
    ensures k < |ns| ==> ns[k] >= 10
  {
    if ns == [] || ns[0] >= 10 then 0 else 1 + RunLength(ns[1..])
  }

  lemma {:induction false} RunLengthAt(ns: Tokens, k: nat)
    requires k <= |ns|
    requires forall i :: 0 <= i < k ==> ns[i] < 10
    requires k < |ns| ==> ns[k] >= 10
    ensures RunLength(ns) == k
  {
    if k > 0 { RunLengthAt(ns[1..], k - 1); }
  }

  /** A longer run of digits never denotes a smaller number, so an overflow met on the way stays one. */
  lemma {:induction false} Base10Grows(ds: Tokens, k: nat)
    requires k <= |ds|
    ensures Base10(ds[..k]) <= Base10(ds)
  {
    if k == |ds| {
      assert ds[..k] == ds;
    } else {
      Base10Grows(ds[..|ds| - 1], k);
      assert ds[..|ds| - 1][..k] == ds[..k];
    }
  }

  lemma NoDigits()
    ensures Base10([]) == 0
  {
  }

  lemma Base10Step(ds: Tokens, k: nat)
    requires k < |ds|
    ensures Base10(ds[..k + 1]) == Base10(ds[..k]) * 10 + ds[k] <= Base10(ds)
  {
    assert ds[..k + 1][..k] == ds[..k];
    Base10Grows(ds, k + 1);
  }

  function SkipZeros(ns: Tokens): (s: Tokens)
    ensures s != [] ==> s[0] != 0
    ensures |s| <= |ns|
  {
    if ns != [] && ns[0] == 0 then SkipZeros(ns[1..]) else ns
  }

  method ReduceLeadingNumbersAsBase10System(ns: Tokens, begin: nat) returns (ok: bool, next: nat, output: U64)
    requires begin <= |ns|
    ensures begin <= next <= |ns|
    ensures var k := RunLength(ns[begin..]);
            && (ok <==> Base10(ns[begin..begin + k]) <= U64_MAX)
            && (ok ==> next == begin + k && output == Base10(ns[begin..begin + k]))
  {
    hide Base10, RunLength;
    ghost var k := RunLength(ns[begin..]);
    ghost var run: Tokens := ns[begin..begin + k];
    output, next := 0, begin;
    NoDigits();
    assert run[..0] == [];
    assert forall i :: begin <= i < begin + k ==> ns[i] == ns[begin..][i - begin];
    assert begin + k < |ns| ==> ns[begin + k] == ns[begin..][k];
    while next < |ns|
      invariant begin <= next <= begin + k
      invariant output == Base10(run[..next - begin])
    {
      if ns[next] >= 10 {
        break;
      }
      Base10Step(run, next - begin);
      var fits;
      fits, output := MultiplyAndCheckOverflow(output, 10);
      if !fits {
        return false, next, output;
      }
      fits, output := AddAndCheckOverflow(output, ns[next]);
      if !fits {
        return false, next, output;
      }
      next := next + 1;
    }
    assert run[..next - begin] == run;
    ok := true;
  }

  method InterpretNumbersAsBase10System(ns: Tokens) returns (ok: bool, output: U64)
    ensures ok <==> (forall i :: 0 <= i < |ns| ==> ns[i] < 10) && Base10(ns) <= U64_MAX
    ensures ok ==> output == Base10(ns)
  {
    var success, begin;
    success, begin, output := ReduceLeadingNumbersAsBase10System(ns, 0);
    assert ns[0..] == ns;
    ghost var k := RunLength(ns);
    if forall i :: 0 <= i < |ns| ==> ns[i] < 10 {
      RunLengthAt(ns, |ns|);
    }
    assert ns[0..|ns|] == ns;
    ok := success && begin == |ns|;
  }

  // ---------- one coefficient, a number below 10000 ----------

  /** What one digit-place reducer does: take a number, leave the place empty, or give up on all that follows. */
  datatype Reduced = Taken(num: nat, rest: Tokens) | Declined(rest: Tokens) | Abandoned
  {
    function Rest(): Tokens {
      if Abandoned? then [] else rest
    }
  }

  /**
    A run of two or more digits opens `s` that does not fit below `limit` or that a token
    below 10000 follows. This is the guard under which the program drops the rest of its input.
  */
  predicate CrowdedRun(s: Tokens, limit: nat) {
    && |s| >= 2 && s[0] < 10 && s[1] < 10
    && var k := RunLength(s);
       Base10(s[..k]) >= limit || (k < |s| && s[k] < 10000)
  }

  predicate Crowded(ns: Tokens, limit: nat) {
    CrowdedRun(SkipZeros(ns), limit)
  }

  function Scaled(digit: nat, base: nat): (r: nat)
    ensures digit < 10 && base > 0 ==> r < base * 10
  {
    digit * base
  }

  /** Reads the place of `base` (10, 100 or 1000) from tokens that do not start with a zero. */
  function ReducePlace(s: Tokens, base: nat): (r: Reduced) {
    if s == [] then Declined(s)
    else if s[0] < 10 then
      if |s| < 2 then Declined(s)
      else if s[1] < 10 then
        if CrowdedRun(s, base * 10) then Abandoned else Taken(Base10(s[..RunLength(s)]), s[RunLength(s)..])
      else if s[1] != base || (s[0] == 1 && base != 1000) then Declined(s)
      else Taken(Scaled(s[0], base), s[2..])
    else if s[0] == base || (base == 10 && s[0] == 20) then Taken(s[0], s[1..])
    else Declined(s)
  }

  function ReduceDigits(ns: Tokens, base: nat): (r: Reduced) {
    ReducePlace(SkipZeros(ns), base)
  }

  method SkipLeadingZeros(ns: Tokens, begin: nat) returns (next: nat)
    requires begin <= |ns|
    ensures begin <= next <= |ns|
    ensures ns[next..] == SkipZeros(ns[begin..])
  {
    next := begin;
    while next != |ns| && ns[next] == 0
      invariant begin <= next <= |ns|
      invariant SkipZeros(ns[next..]) == SkipZeros(ns[begin..])
      decreases |ns| - next
    {
      assert ns[next..][1..] == ns[next + 1..];
      next := next + 1;
    }
  }

  /** The branch for two leading digits: the run is the number, or everything after it is dropped. */
  method ReduceRun(ns: Tokens, begin: nat, base: U64) returns (ok: bool, next: nat, num: U64)
    requires begin + 2 <= |ns| && ns[begin] < 10 && ns[begin + 1] < 10
    requires base == 10 || base == 100 || base == 1000
    ensures begin <= next <= |ns|
    ensures var s := ns[begin..];
            && (ok <==> !CrowdedRun(s, base * 10))
            && (ok ==> num == Base10(s[..RunLength(s)]) < base * 10 && ns[next..] == s[RunLength(s)..])
            && (!ok ==> next == |ns|)
  {
    ghost var s: Tokens := ns[begin..];
    ghost var k := RunLength(s);
    assert s[..k] == ns[begin..begin + k];
    ok, next, num := ReduceLeadingNumbersAsBase10System(ns, begin);
    if !ok || num >= base * 10 || (next != |ns| && ns[next] < 10000) {
      return false, |ns|, num;
    }
    assert ns[next..] == s[k..];
  }

  method ReduceDigitsHelper(ns: Tokens, begin: nat, base: U64) returns (ok: bool, next: nat, num: U64)
    requires begin <= |ns|
    requires base == 10 || base == 100 || base == 1000
    ensures begin <= next <= |ns|
    ensures var r := ReduceDigits(ns[begin..], base);
            && ns[next..] == r.Rest()
            && (ok <==> r.Taken?)
            && (ok ==> num == r.num && num < base * 10)
  {
    hide SkipZeros, Base10, RunLength, CrowdedRun, Scaled;
    num := 0;
    next := SkipLeadingZeros(ns, begin);
    ghost var s: Tokens := ns[next..];
    if next == |ns| {
      return false, next, num;
    }
    var leading := ns[next];
    assert leading == s[0];
    if leading < 10 {
      if |ns| - next < 2 {
        return false, next, num;
      }
      var following := ns[next + 1];
      assert following == s[1];
      if following < 10 {
        ok, next, num := ReduceRun(ns, next, base);
        return ok, next, num;
      }
      if following != base || (leading == 1 && base != 1000) {
        return false, next, num;
      }
      num := Scaled(leading, base);
      assert ns[next + 2..] == s[2..];
      return true, next + 2, num;
    }
    if leading == base || (base == 10 && leading == 20) {
      num := leading;
      assert ns[next + 1..] == s[1..];
      return true, next + 1, num;
    }
    return false, next, num;
  }

  function ReduceOnes(ns: Tokens): (r: Reduced) {
    if ns == [] || ns[0] >= 10 then Declined(ns) else Taken(ns[0], ns[1..])
  }

  method ReduceOnesDigit(ns: Tokens, begin: nat) returns (ok: bool, next: nat, num: U64)
    requires begin <= |ns|
    ensures begin <= next <= |ns|
    ensures var r := ReduceOnes(ns[begin..]);
            && ns[next..] == r.Rest()
            && (ok <==> r.Taken?)
            && (ok ==> num == r.num && num < 10)
  {
    if begin == |ns| || ns[begin] >= 10 {
      return false, begin, 0;
    }
    assert ns[begin..][1..] == ns[begin + 1..];
    return true, begin + 1, ns[begin];
  }

  function Digit(r: Reduced): nat {
    if r.Taken? then r.num else 0
  }

  /** The four places of a coefficient, thousands first, each starting where the previous one stopped. */
  datatype Places = Places(thousands: Reduced, hundreds: Reduced, tens: Reduced, ones: Reduced) {
    function Sum(): nat {
      Digit(thousands) + Digit(hundreds) + Digit(tens) + Digit(ones)
    }

    /** Some place was taken, and the input ends or a rank of at least 10000 follows. */
    predicate Accepted() {
      && (thousands.Taken? || hundreds.Taken? || tens.Taken? || ones.Taken?)
      && (ones.Rest() == [] || ones.Rest()[0] >= 10000)
    }
  }

  function ReadPlaces(ns: Tokens): Places {
    var t := ReduceDigits(ns, 1000);
    var h := ReduceDigits(t.Rest(), 100);
    var x := ReduceDigits(h.Rest(), 10);
    Places(t, h, x, ReduceOnes(x.Rest()))
  }

  method ReduceNumberLessThan10000(ns: Tokens, begin: nat) returns (ok: bool, next: nat, num: U64)
    requires begin <= |ns|
    ensures begin <= next <= |ns|
    ensures var p := ReadPlaces(ns[begin..]);
            && ns[next..] == p.ones.Rest()
            && (ok <==> p.Accepted())
            && num == p.Sum() && num < 11110
  {
    hide ReduceDigits, ReduceOnes;
    num := 0;
    var success := false;
    var taken, n;
    taken, next, n := ReduceDigitsHelper(ns, begin, 1000);
    if taken { num := num + n; success := true; }
    taken, next, n := ReduceDigitsHelper(ns, next, 100);
    if taken { num := num + n; success := true; }
    taken, next, n := ReduceDigitsHelper(ns, next, 10);
    if taken { num := num + n; success := true; }
    taken, next, n := ReduceOnesDigit(ns, next);
    if taken { num := num + n; success := true; }
    ghost var rest := ns[next..];
    assert next < |ns| ==> ns[next] == rest[0];
    ok := success && (next == |ns| || ns[next] >= 10000);
  }

  // ---------- the whole number ----------

  /**
    The value of a token sequence that starts inside a number: `last` is the rank before it and
    `total` what the ranks before it add up to. None when the order of the ranks, the shape of a
    coefficient or the 64-bit range is violated.
  */
  function Interpret(ns: Tokens, last: nat, total: nat): (r: Option<nat>)
    decreases |ns|, 1
  {
    PlacesShrink(ns);
    Resume(ReadPlaces(ns), last, total)
  }

  /** Goes on after the places of one coefficient have been read. */
  function Resume(p: Places, last: nat, total: nat): (r: Option<nat>)
    decreases |p.ones.Rest()|, 0
  {
    var rest := p.ones.Rest();
    if !p.Accepted() then None
    else if rest == [] then
      if total + p.Sum() <= U64_MAX then Some(total + p.Sum()) else None
    else if rest[0] >= last then None
    else
      var sum := total + p.Sum() * rest[0];
      if sum > U64_MAX then None
      else if |rest| == 1 then Some(sum)
      else Interpret(rest[1..], rest[0], sum)
  }

  lemma ReduceShrinks(ns: Tokens, base: nat)
    ensures var r := ReduceDigits(ns, base);
            |r.Rest()| <= |ns| && (r.Taken? ==> |r.rest| < |ns|)
  {
    hide Base10, SkipZeros, RunLength, CrowdedRun;
  }

  lemma PlacesShrink(ns: Tokens)
    ensures var p := ReadPlaces(ns);
            |p.ones.Rest()| <= |ns| && (p.Accepted() ==> |p.ones.Rest()| < |ns|)
  {
    hide ReduceDigits;
    var p := ReadPlaces(ns);
    ReduceShrinks(ns, 1000);
    ReduceShrinks(p.thousands.Rest(), 100);
    ReduceShrinks(p.hundreds.Rest(), 10);
  }

  method InterpretNumbersInJapaneseWay(ns: Tokens) returns (ok: bool, output: U64)
    ensures var r := Interpret(ns, U64_MAX, 0);
            && (ok <==> r.Some?)
            && (ok ==> output == r.value)
  {
    hide ReadPlaces;
    var last: U64 := U64_MAX;
    var begin := 0;
    output := 0;
    assert ns[0..] == ns;
    while true
      invariant begin <= |ns|
      invariant Interpret(ns, U64_MAX, 0) == Interpret(ns[begin..], last, output)
      decreases |ns| - begin
    {
      PlacesShrink(ns[begin..]);
      var reduced, coef;
      reduced, begin, coef := ReduceNumberLessThan10000(ns, begin);
      ghost var rest := ns[begin..];
      if !reduced {
        return false, output;
      }
      if begin == |ns| {
        assert rest == [];
        ok, output := AddAndCheckOverflow(output, coef);
        return ok, output;
      }
      assert ns[begin] == rest[0];
      if ns[begin] >= last {
        return false, output;
      }
      var fits, delta := MultiplyAndCheckOverflow(coef, ns[begin]);
      if !fits {
        return false, output;
      }
      fits, output := AddAndCheckOverflow(output, delta);
      if !fits {
        return false, output;
      }
      last := ns[begin];
      begin := begin + 1;
      assert ns[begin..] == rest[1..];
      if begin == |ns| {
        break;
      }
    }
    ok := true;
  }

  /** The largest token of a nonempty sequence. */
  function MaxToken(ns: Tokens): (m: nat)
    requires ns != []
    ensures m in ns && forall i :: 0 <= i < |ns| ==> ns[i] <= m
  {
    if |ns| == 1 then ns[0]
    else
      var m := MaxToken(ns[1..]);
      if ns[0] >= m then ns[0] else m
  }

  function Normalize(ns: Tokens): (r: Option<nat>) {
    if ns == [] then None
    else if MaxToken(ns) < 10 then
      if Base10(ns) <= U64_MAX then Some(Base10(ns)) else None
    else Interpret(ns, U64_MAX, 0)
  }

  method NormalizeNumbersHelper(ns: Tokens) returns (ok: bool, output: U64)
    ensures ok <==> Normalize(ns).Some?
    ensures ok ==> output == Normalize(ns).value
  {
    if |ns| == 0 {
      return false, 0;
    }
    var max := ns[0];
    for i := 1 to |ns|
      invariant max in ns
      invariant forall j :: 0 <= j < i ==> ns[j] <= max
    {
      if max < ns[i] { max := ns[i]; }
    }
    assert max == MaxToken(ns);
    if max < 10 {
      ok, output := InterpretNumbersAsBase10System(ns);
    } else {
      ok, output := InterpretNumbersInJapaneseWay(ns);
    }
  }
}
