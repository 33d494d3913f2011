/**
Five-field cron expressions as bit masks (manifest/cron.go).

Go's int is 64 bits here, and `v += step` in the mask loop can wrap around for a step close to the largest
integer.  The masks are therefore compared with the sets the fields denote on both sides of that line.
*/
module Cron {

  import opened Common

  const MAX_INT: int := 0x7FFF_FFFF_FFFF_FFFF
  const TWO_64: int := 0x1_0000_0000_0000_0000

  // ----- bits -----

  /** 1 << v. */
  function One(v: nat): bv64
    requires v < 64
  {
    (1 as bv64) << (v as bv6)
  }

  predicate At(mask: bv64, x: bv64) {
    mask & x != 0
  }

  predicate Bit(mask: bv64, v: nat)
    requires v < 64
  {
    At(mask, One(v))
  }

  lemma PositionKept(v: nat)
    requires v < 64
    ensures (v as bv6) as nat == v
  {
  }

  lemma PowersApart(p: bv6, q: bv6)
    requires p != q
    ensures ((1 as bv64) << p) & ((1 as bv64) << q) == 0
  {
  }

  lemma PowerSelf(p: bv6)
    ensures ((1 as bv64) << p) & ((1 as bv64) << p) != 0
  {
  }

  lemma OneBit(v: nat, w: nat)
    requires v < 64 && w < 64
    ensures Bit(One(v), w) <==> v == w
  {
    PositionKept(v);
    PositionKept(w);
    if v == w {
      PowerSelf(v as bv6);
    } else {
      PowersApart(v as bv6, w as bv6);
    }
  }

  lemma OrHas(a: bv64, b: bv64, x: bv64)
    requires At(a, x)
    ensures At(a | b, x)
  {
  }

  lemma OrHasToo(a: bv64, b: bv64, x: bv64)
    requires At(b, x)
    ensures At(a | b, x)
  {
  }

  lemma OrHasNot(a: bv64, b: bv64, x: bv64)
    requires !At(a, x) && !At(b, x)
    ensures !At(a | b, x)
  {
  }

  lemma UnionBit(a: bv64, b: bv64, w: nat)
    requires w < 64
    ensures Bit(a | b, w) <==> Bit(a, w) || Bit(b, w)
  {
    if Bit(a, w) {
      OrHas(a, b, One(w));
    } else if Bit(b, w) {
      OrHasToo(a, b, One(w));
    } else {
      OrHasNot(a, b, One(w));
    }
  }

  lemma NoBits(w: nat)
    requires w < 64
    ensures !Bit(0, w)
  {
  }

  /** The positions set in a mask. */
  ghost function Bits(mask: bv64): set<nat> {
    set w: nat | w < 64 && Bit(mask, w)
  }

  lemma BitsOr(a: bv64, b: bv64)
    ensures Bits(a | b) == Bits(a) + Bits(b)
  {
    forall w: nat | w < 64
      ensures Bit(a | b, w) <==> Bit(a, w) || Bit(b, w)
    {
      UnionBit(a, b, w);
    }
  }

  lemma BitsZero()
    ensures Bits(0) == {}
  {
    forall w: nat | w < 64
      ensures !Bit(0, w)
    {
      NoBits(w);
    }
  }

  /** 1 << uint(v), which is zero for every v outside the word. */
  function Shl(v: int): bv64 {
    if 0 <= v < 64 then One(v) else 0
  }

  ghost function Single(v: int): set<nat> {
    if 0 <= v < 64 then {v} else {}
  }

  lemma BitsShl(v: int)
    ensures Bits(Shl(v)) == Single(v)
  {
    if 0 <= v < 64 {
      forall w: nat | w < 64
        ensures Bit(One(v), w) <==> v == w
      {
        OneBit(v, w);
      }
    } else {
      BitsZero();
    }
  }

  // ----- narrowing -----

  /** What a conversion to an n-bit unsigned integer keeps. */
  function Narrow(mask: bv64, n: nat): bv64 {
    if n == 8 then mask & 0xFF else if n == 16 then mask & 0xFFFF else if n == 32 then mask & 0xFFFF_FFFF else mask
  }

  lemma Kept(mask: bv64, x: bv64, p: bv64)
    requires p & x == p
    ensures (mask & x) & p == mask & p
  {
  }

  lemma LowBit(v: nat, n: nat)
    requires v < n && v < 64
    ensures Narrow(One(v), n) == One(v)
  {
  }

  lemma NarrowBit(mask: bv64, n: nat, w: nat)
    requires n in {8, 16, 32} && w < n
    ensures Bit(Narrow(mask, n), w) <==> Bit(mask, w)
  {
    LowBit(w, n);
    Kept(mask, if n == 8 then 0xFF else if n == 16 then 0xFFFF else 0xFFFF_FFFF, One(w));
  }

  // ----- the mask loop -----

  /** What `lo-hi/step` denotes. */
  predicate InSteps(lo: int, hi: int, step: int, v: int)
    requires step > 0
  {
    lo <= v <= hi && (v - lo) % step == 0
  }

  /** u, u - d, u - 2d, ... down to zero. */
  predicate Strays(u: int, d: int, v: int)
    requires d > 0
    decreases u
  {
    u >= 0 && (v == u || Strays(u - d, d, v))
  }

  /** The loop variable never passes the largest integer. */
  predicate Tame(lo: int, step: int) {
    lo + step <= MAX_INT
  }

  /** The positions the loop really sets. */
  predicate Sets(lo: int, hi: int, step: int, v: int)
    requires 0 < step <= MAX_INT
  {
    if Tame(lo, step) then InSteps(lo, hi, step, v) else Strays(lo, TWO_64 - 2 * step, v)
  }

  function Wrap(x: int): int {
    if x > MAX_INT then x - TWO_64 else x
  }

  lemma {:induction false} ProductGap(p: int, q: int, step: int)
    requires step > 0 && p < q
    ensures p * step + step <= q * step
    decreases q - p
  {
    assert (q - 1) * step + step == q * step;
    if p < q - 1 {
      ProductGap(p, q - 1, step);
    } else {
      assert p == q - 1;
    }
  }

  lemma SameMultiple(a: int, b: int, step: int)
    requires step > 0 && a % step == 0 && b % step == 0 && a <= b < a + step
    ensures a == b
  {
    var p, q := a / step, b / step;
    assert a == step * p && b == step * q;
    if p < q {
      ProductGap(p, q, step);
    }
    if q < p {
      ProductGap(q, p, step);
    }
  }

  lemma NextMultiple(a: int, step: int)
    requires step > 0 && a % step == 0
    ensures (a + step) % step == 0
  {
    var p, q, r := a / step, (a + step) / step, (a + step) % step;
    assert a == step * p && a + step == step * q + r;
    if p + 1 < q {
      ProductGap(p + 1, q, step);
    }
    if q < p + 1 {
      ProductGap(q, p + 1, step);
    }
  }

  /** The positions set before the loop variable reached v. */
  ghost predicate SoFar(bits: set<nat>, lo: int, hi: int, step: int, v: int)
    requires step > 0
  {
    forall w: nat :: w in bits <==> w < 64 && InSteps(lo, hi, step, w) && w < v
  }

  ghost predicate StraysSoFar(bits: set<nat>, lo: int, d: int, rest: int)
    requires d > 0
  {
    forall w: nat :: (w in bits || Strays(rest, d, w)) <==> Strays(lo, d, w)
  }

  lemma TameStep(bits: set<nat>, lo: int, hi: int, step: int, v: int)
    requires 0 <= lo <= v <= hi < 64 && step > 0 && (v - lo) % step == 0 && SoFar(bits, lo, hi, step, v)
    ensures SoFar(bits + Single(v), lo, hi, step, v + step) && (v + step - lo) % step == 0
  {
    NextMultiple(v - lo, step);
    forall w: nat
      ensures w in bits + Single(v) <==> w < 64 && InSteps(lo, hi, step, w) && w < v + step
    {
      if InSteps(lo, hi, step, w) && v <= w < v + step {
        SameMultiple(v - lo, w - lo, step);
      }
    }
  }

  lemma StrayStep(bits: set<nat>, lo: int, d: int, rest: int)
    requires d > 0 && rest < 64 && StraysSoFar(bits, lo, d, rest)
    ensures StraysSoFar(bits + Single(rest), lo, d, rest - d)
  {
    forall w: nat
      ensures (w in bits + Single(rest) || Strays(rest - d, d, w)) <==> Strays(lo, d, w)
    {
      assert Strays(rest, d, w) <==> rest >= 0 && (w == rest || Strays(rest - d, d, w));
    }
  }

  /** Where the loop stands: `rest` is the next stray position once the variable wraps around. */
  ghost predicate Stage(bits: set<nat>, lo: int, hi: int, step: int, v: int, rest: int)
    requires 0 < step <= MAX_INT
  {
    if Tame(lo, step) then
      lo <= v <= hi + step && (v - lo) % step == 0 && SoFar(bits, lo, hi, step, v)
    else
      var d := TWO_64 - 2 * step;
      && -2 * d <= rest <= lo && StraysSoFar(bits, lo, d, rest)
      && ((v == rest && rest >= -d)
          || (v == rest - step && rest + d > MAX_INT - step && rest >= -d)
          || (v > hi && rest < 0))
  }

  function Rank(lo: int, hi: int, step: int, v: int, rest: int): int {
    if Tame(lo, step) then hi - v else if v == rest then 2 * rest + 600 else 2 * rest + 601
  }

  /** One turn of the loop. */
  lemma StageStep(bits: set<nat>, lo: int, hi: int, step: int, v: int, rest: int) returns (next: int)
    requires 0 <= lo <= hi < 64 && 0 < step <= MAX_INT && Stage(bits, lo, hi, step, v, rest) && v <= hi
    ensures Stage(bits + Single(v), lo, hi, step, Wrap(v + step), next)
    ensures 0 <= Rank(lo, hi, step, v, rest) && Rank(lo, hi, step, Wrap(v + step), next) < Rank(lo, hi, step, v, rest)
  {
    next := rest;
    if Tame(lo, step) {
      TameStep(bits, lo, hi, step, v);
      if v > lo {
        SmallStep(lo, v, step);
      }
    } else if v == rest {
      next := rest - (TWO_64 - 2 * step);
      StrayStep(bits, lo, TWO_64 - 2 * step, rest);
    } else {
      assert bits + Single(v) == bits;
    }
  }

  lemma SmallStep(lo: int, v: int, step: int)
    requires lo < v && step > 0 && (v - lo) % step == 0
    ensures step <= v - lo
  {
    if v - lo < step {
      SameMultiple(0, v - lo, step);
    }
  }

  /** The mask of one part is what the loop sets. */
  method StepMask(lo: int, hi: int, step: int) returns (mask: bv64)
    requires 0 <= lo <= hi < 64 && 0 < step <= MAX_INT
    ensures forall w: nat :: w in Bits(mask) <==> Sets(lo, hi, step, w)
  {
    mask := 0;
    var v := lo;
    ghost var rest, bits := lo, {};
    BitsZero();
    while v <= hi
      invariant Bits(mask) == bits && Stage(bits, lo, hi, step, v, rest)
      decreases Rank(lo, hi, step, v, rest)
    {
      BitsOr(mask, Shl(v));
      BitsShl(v);
      rest := StageStep(bits, lo, hi, step, v, rest);
      bits := bits + Single(v);
      mask := mask | Shl(v);
      v := Wrap(v + step);
    }
    StageEnd(bits, lo, hi, step, v, rest);
  }

  lemma StageEnd(bits: set<nat>, lo: int, hi: int, step: int, v: int, rest: int)
    requires 0 <= lo <= hi < 64 && 0 < step <= MAX_INT && Stage(bits, lo, hi, step, v, rest) && v > hi
    ensures forall w: nat :: w in bits <==> Sets(lo, hi, step, w)
  {
  }

  /** Whatever the step, no position above hi is ever set. */
  lemma {:induction false} StraysStayLow(u: int, d: int, w: int)
    requires d > 0 && Strays(u, d, w)
    ensures 0 <= w <= u
    decreases u
  {
    if w != u {
      StraysStayLow(u - d, d, w);
    }
  }

  /** The loop sets exactly what the part denotes, if and only if two steps from the start stay below 2^64. */
  lemma SetsIsExact(lo: int, hi: int, step: int)
    requires 0 <= lo <= hi < 64 && 0 < step <= MAX_INT
    ensures (forall v: nat :: Sets(lo, hi, step, v) <==> InSteps(lo, hi, step, v)) <==> lo + 2 * step < TWO_64
  {
    if !Tame(lo, step) {
      var d := TWO_64 - 2 * step;
      forall v: nat
        ensures InSteps(lo, hi, step, v) <==> v == lo
      {
        if v > lo && InSteps(lo, hi, step, v) {
          SmallStep(lo, v, step);
        }
      }
      if lo >= d {
        assert Strays(lo - d, d, lo - d);
        assert Sets(lo, hi, step, lo - d);
      } else {
        forall v: nat
          ensures Strays(lo, d, v) <==> v == lo
        {
          assert !Strays(lo - d, d, v);
        }
      }
    }
  }

  // ----- reading a field -----

  function Digits(s: string): (r: Option<int>)
    ensures r.Some? ==> s != "" && r.value >= 0
  {
    if s == "" || !('0' <= s[|s| - 1] <= '9') then None
    else if |s| == 1 then Some((s[0] - '0') as int)
    else
      var front := Digits(s[..|s| - 1]);
      if front.None? then None else Some(10 * front.value + (s[|s| - 1] - '0') as int)
  }

  /** A decimal number that fits a 64-bit integer, with an optional sign. */
  function Atoi(s: string): (r: Option<int>)
    ensures r.Some? ==> -MAX_INT - 1 <= r.value <= MAX_INT
  {
    var signed := s != "" && (s[0] == '-' || s[0] == '+');
    var n := Digits(if signed then s[1..] else s);
    if n.None? then None
    else
      var v := if signed && s[0] == '-' then -n.value else n.value;
      if -MAX_INT - 1 <= v <= MAX_INT then Some(v) else None
  }

  datatype Range = Range(lo: int, hi: int, step: int)

  function Bounds(base: string, min: int, max: int): Option<(int, int)> {
    if base == "*" then Some((min, max))
    else if Find(base, '-') < |base| then
      var i := Find(base, '-');
      var lo, hi := Atoi(base[..i]), Atoi(base[i + 1..]);
      if lo.None? || hi.None? || lo.value > hi.value then None else Some((lo.value, hi.value))
    else
      var n := Atoi(base);
      if n.None? then None else Some((n.value, n.value))
  }

  /** One comma-separated part: a value, a range or `*`, optionally with a step; None when it is refused. */
  function PartOf(part: string, min: int, max: int): (r: Option<Range>)
    requires min <= max
    ensures r.Some? ==> min <= r.value.lo <= r.value.hi <= max && 0 < r.value.step <= MAX_INT
  {
    var i := Find(part, '/');
    var step := if i < |part| then Atoi(part[i + 1..]) else Some(1);
    if step.None? || step.value <= 0 then None
    else
      var b := Bounds(part[..i], min, max);
      if b.None? || b.value.0 < min || b.value.1 > max then None
      else Some(Range(b.value.0, b.value.1, step.value))
  }

  function Split(s: string, c: char): (r: seq<string>)
    ensures r != []
    decreases |s|
  {
    var i := Find(s, c);
    if i == |s| then [s] else [s[..i]] + Split(s[i + 1..], c)
  }

  predicate IsSpace(c: char) {
    c == ' ' || '\t' <= c <= '\r'
  }

  function WordEnd(s: string): (i: nat)
    ensures i <= |s|
    ensures s != "" && !IsSpace(s[0]) ==> i > 0
  {
    if s == "" || IsSpace(s[0]) then 0 else 1 + WordEnd(s[1..])
  }

  /** The words between white space. */
  function Fields(s: string): seq<string>
    decreases |s|
  {
    if s == "" then []
    else if IsSpace(s[0]) then Fields(s[1..])
    else [s[..WordEnd(s)]] + Fields(s[WordEnd(s)..])
  }

  // ----- what a field means -----

  type Limits = l: (int, int) | 0 <= l.0 <= l.1 < 64 witness (0, 0)

  ghost predicate GoodField(field: string, l: Limits) {
    field == "*" || forall i :: 0 <= i < |Split(field, ',')| ==> PartOf(Split(field, ',')[i], l.0, l.1).Some?
  }

  predicate PartDenotes(part: string, l: Limits, v: int) {
    var r := PartOf(part, l.0, l.1);
    r.Some? && InSteps(r.value.lo, r.value.hi, r.value.step, v)
  }

  predicate PartSets(part: string, l: Limits, v: int) {
    var r := PartOf(part, l.0, l.1);
    r.Some? && Sets(r.value.lo, r.value.hi, r.value.step, v)
  }

  /** The values a field stands for. */
  ghost predicate Denotes(field: string, l: Limits, v: int) {
    if field == "*" then l.0 <= v <= l.1
    else exists i :: 0 <= i < |Split(field, ',')| && PartDenotes(Split(field, ',')[i], l, v)
  }

  /** The values its mask holds. */
  ghost predicate Encodes(field: string, l: Limits, v: int) {
    if field == "*" then l.0 <= v <= l.1
    else exists i :: 0 <= i < |Split(field, ',')| && PartSets(Split(field, ',')[i], l, v)
  }

  predicate TamePart(part: string, l: Limits) {
    var r := PartOf(part, l.0, l.1);
    r.Some? ==> r.value.lo + 2 * r.value.step < TWO_64
  }

  ghost predicate TameField(field: string, l: Limits) {
    forall i :: 0 <= i < |Split(field, ',')| ==> TamePart(Split(field, ',')[i], l)
  }

  lemma TameFieldIsExact(field: string, l: Limits, v: nat)
    requires TameField(field, l)
    ensures Encodes(field, l, v) <==> Denotes(field, l, v)
  {
    forall i | 0 <= i < |Split(field, ',')|
      ensures PartSets(Split(field, ',')[i], l, v) <==> PartDenotes(Split(field, ',')[i], l, v)
    {
      assert TamePart(Split(field, ',')[i], l);
      var r := PartOf(Split(field, ',')[i], l.0, l.1);
      if r.Some? {
        SetsIsExact(r.value.lo, r.value.hi, r.value.step);
      }
    }
  }

  /** A position the wrapped-around loop sets although the part does not denote it. */
  predicate Strayed(part: string, l: Limits, v: int) {
    var r := PartOf(part, l.0, l.1);
    r.Some? && !Tame(r.value.lo, r.value.step) && v != r.value.lo && Strays(r.value.lo, TWO_64 - 2 * r.value.step, v)
  }

  lemma SetsItsStrays(lo: int, hi: int, step: int, v: nat)
    requires 0 <= lo <= hi < 64 && 0 < step <= MAX_INT
    ensures Sets(lo, hi, step, v) <==>
            InSteps(lo, hi, step, v) || (!Tame(lo, step) && v != lo && Strays(lo, TWO_64 - 2 * step, v))
  {
    if !Tame(lo, step) && v > lo && (v - lo) % step == 0 {
      SmallStep(lo, v, step);
    }
  }

  lemma PartSetsItsStrays(part: string, l: Limits, v: nat)
    ensures PartSets(part, l, v) <==> PartDenotes(part, l, v) || Strayed(part, l, v)
  {
    var r := PartOf(part, l.0, l.1);
    if r.Some? {
      SetsItsStrays(r.value.lo, r.value.hi, r.value.step, v);
    }
  }

  ghost predicate StraysCovered(field: string, l: Limits, parts: seq<string>) {
    forall i, v: nat :: 0 <= i < |parts| && Strayed(parts[i], l, v) ==> Denotes(field, l, v)
  }

  /** A field encodes what it denotes if and only if every stray position is denoted by one of its other parts. */
  lemma FieldIsExactIff(field: string, l: Limits)
    requires field != "*"
    ensures (forall v: nat :: Encodes(field, l, v) <==> Denotes(field, l, v)) <==> StraysCovered(field, l, Split(field, ','))
  {
    var parts := Split(field, ',');
    forall v: nat
      ensures Denotes(field, l, v) ==> Encodes(field, l, v)
      ensures Encodes(field, l, v) && StraysCovered(field, l, parts) ==> Denotes(field, l, v)
    {
      if Denotes(field, l, v) {
        var i :| 0 <= i < |parts| && PartDenotes(parts[i], l, v);
        PartSetsItsStrays(parts[i], l, v);
      }
      if Encodes(field, l, v) {
        var i :| 0 <= i < |parts| && PartSets(parts[i], l, v);
        PartSetsItsStrays(parts[i], l, v);
      }
    }
    forall i, v: nat | 0 <= i < |parts| && Strayed(parts[i], l, v)
      ensures Encodes(field, l, v)
    {
      PartSetsItsStrays(parts[i], l, v);
    }
  }

  lemma PartWithinLimits(part: string, l: Limits, v: int)
    requires PartSets(part, l, v)
    ensures 0 <= v <= l.1
  {
    var r := PartOf(part, l.0, l.1).value;
    if !Tame(r.lo, r.step) {
      StraysStayLow(r.lo, TWO_64 - 2 * r.step, v);
    }
  }

  // ----- writing a part -----

  function Decimal(n: nat): (s: string)
    ensures s != "" && forall i :: 0 <= i < |s| ==> '0' <= s[i] <= '9'
  {
    if n < 10 then ['0' + n as char] else Decimal(n / 10) + ['0' + (n % 10) as char]
  }

  lemma {:induction false} DigitsOfDecimal(n: nat)
    ensures Digits(Decimal(n)) == Some(n)
  {
    if n >= 10 {
      DigitsOfDecimal(n / 10);
      var s, c := Decimal(n / 10), '0' + (n % 10) as char;
      assert Decimal(n) == s + [c] && (s + [c])[..|s|] == s;
    }
  }

  /** Numbers survive being written and read. */
  lemma AtoiOfDecimal(n: nat)
    requires n <= MAX_INT
    ensures Atoi(Decimal(n)) == Some(n)
  {
    DigitsOfDecimal(n);
    assert '0' <= Decimal(n)[0] <= '9';
  }

  /** The text of a stepped range. */
  function Written(r: Range): string
    requires 0 <= r.lo && 0 <= r.hi && 0 < r.step
  {
    Decimal(r.lo) + ['-'] + Decimal(r.hi) + ['/'] + Decimal(r.step)
  }

  lemma BoundsOfWritten(lo: nat, hi: nat, min: int, max: int)
    requires lo <= hi <= MAX_INT
    ensures Bounds(Decimal(lo) + ['-'] + Decimal(hi), min, max) == Some((lo, hi))
  {
    var text := Decimal(lo) + ['-'] + Decimal(hi);
    FindFirst(Decimal(lo), '-', Decimal(hi));
    assert text != "*" by {
      assert text[0] == Decimal(lo)[0];
    }
    assert text[..|Decimal(lo)|] == Decimal(lo) && text[|Decimal(lo)| + 1..] == Decimal(hi);
    AtoiOfDecimal(lo);
    AtoiOfDecimal(hi);
  }

  /** Every range and step within the limits can be written, and reads back as itself. */
  lemma PartOfWritten(r: Range, min: int, max: int)
    requires 0 <= min <= r.lo <= r.hi <= max <= MAX_INT && 0 < r.step <= MAX_INT
    ensures PartOf(Written(r), min, max) == Some(r)
  {
    var base := Decimal(r.lo) + ['-'] + Decimal(r.hi);
    assert '/' !in base;
    FindFirst(base, '/', Decimal(r.step));
    assert Written(r)[..|base|] == base && Written(r)[|base| + 1..] == Decimal(r.step);
    BoundsOfWritten(r.lo, r.hi, min, max);
    AtoiOfDecimal(r.step);
  }

  /** 5-31/9223372036854775807, with the largest integer as step. */
  const HUGE := Range(5, 31, MAX_INT)

  /** As day of month it denotes the 5th, and also fires on the 3rd and the 1st. */
  lemma HugeStepStrays(v: nat)
    ensures PartDenotes(Written(HUGE), DOM, v) <==> v == 5
    ensures PartSets(Written(HUGE), DOM, v) <==> v == 5 || v == 3 || v == 1
  {
    PartOfWritten(HUGE, 1, 31);
    HugeSets(v);
  }

  lemma HugeSets(v: nat)
    ensures InSteps(5, 31, MAX_INT, v) <==> v == 5
    ensures Sets(5, 31, MAX_INT, v) <==> v == 5 || v == 3 || v == 1
  {
    assert Strays(1, 2, v) <==> v == 1;
    assert Strays(3, 2, v) <==> v == 3 || v == 1;
    assert Strays(5, 2, v) <==> v == 5 || v == 3 || v == 1;
  }

  /** A mask never reaches beyond its field. */
  lemma EncodesWithinLimits(field: string, l: Limits, v: int)
    requires Encodes(field, l, v)
    ensures 0 <= v <= l.1
  {
    if field != "*" {
      var parts := Split(field, ',');
      var i :| 0 <= i < |parts| && PartSets(parts[i], l, v);
      PartWithinLimits(parts[i], l, v);
    }
  }

  // ----- parsing -----

  method FullMask(l: Limits) returns (mask: bv64)
    ensures forall w: nat :: w in Bits(mask) <==> l.0 <= w <= l.1
  {
    mask := 0;
    ghost var bits: set<nat> := {};
    BitsZero();
    for v := l.0 to l.1 + 1
      invariant Bits(mask) == bits && forall w: nat :: w in bits <==> l.0 <= w < v
    {
      BitsOr(mask, Shl(v));
      BitsShl(v);
      bits := bits + Single(v);
      mask := mask | Shl(v);
    }
  }

  method ParsePart(part: string, l: Limits) returns (r: Option<bv64>)
    ensures r.None? <==> PartOf(part, l.0, l.1).None?
    ensures r.Some? ==> forall w: nat :: w in Bits(r.value) <==> PartSets(part, l, w)
  {
    var range := PartOf(part, l.0, l.1);
    if range.None? {
      return None;
    }
    var mask := StepMask(range.value.lo, range.value.hi, range.value.step);
    return Some(mask);
  }

  /** The mask of a field, and whether the field is anything but `*`. */
  method ParseField(field: string, l: Limits) returns (r: Option<(bv64, bool)>)
    ensures r.Some? <==> GoodField(field, l)
    ensures r.Some? ==> (r.value.1 <==> field != "*")
    ensures r.Some? ==> forall w: nat :: w in Bits(r.value.0) <==> Encodes(field, l, w)
  {
    if field == "*" {
      var full := FullMask(l);
      return Some((full, false));
    }
    var parts := Split(field, ',');
    var mask: bv64 := 0;
    ghost var bits: set<nat> := {};
    BitsZero();
    for i := 0 to |parts|
      invariant Bits(mask) == bits
      invariant forall j :: 0 <= j < i ==> PartOf(parts[j], l.0, l.1).Some?
      invariant Union(parts, l, i, bits)
    {
      var m := ParsePart(parts[i], l);
      if m.None? {
        return None;
      }
      BitsOr(mask, m.value);
      UnionStep(parts, l, i, bits, Bits(m.value));
      bits := bits + Bits(m.value);
      mask := mask | m.value;
    }
    return Some((mask, true));
  }

  /** The positions the first n parts set between them. */
  ghost predicate Union(parts: seq<string>, l: Limits, n: nat, bits: set<nat>) {
    n <= |parts| && forall w: nat :: w in bits <==> exists j :: 0 <= j < n && PartSets(parts[j], l, w)
  }

  lemma UnionStep(parts: seq<string>, l: Limits, n: nat, bits: set<nat>, more: set<nat>)
    requires n < |parts| && Union(parts, l, n, bits)
    requires forall w: nat :: w in more <==> PartSets(parts[n], l, w)
    ensures Union(parts, l, n + 1, bits + more)
  {
    forall w: nat
      ensures w in bits + more <==> exists j :: 0 <= j < n + 1 && PartSets(parts[j], l, w)
    {
      assert w in bits <==> exists j :: 0 <= j < n && PartSets(parts[j], l, w);
    }
  }

  lemma NarrowDrops(mask: bv64, n: nat, w: nat)
    requires n in {8, 16, 32} && n <= w < 64
    ensures !Bit(Narrow(mask, n), w)
  {
    HighBit(w, n);
    var x: bv64 := if n == 8 then 0xFF else if n == 16 then 0xFFFF else 0xFFFF_FFFF;
    Dropped(mask, x, One(w));
  }

  lemma HighBit(v: nat, n: nat)
    requires n in {8, 16, 32} && n <= v < 64
    ensures Narrow(One(v), n) == 0
  {
  }

  lemma Dropped(mask: bv64, x: bv64, p: bv64)
    requires p & x == 0
    ensures (mask & x) & p == 0
  {
  }

  /** The narrowing conversion loses no bit of a field that fits. */
  lemma NarrowKeepsAll(mask: bv64, n: nat)
    requires n in {8, 16, 32} && forall w: nat :: w in Bits(mask) ==> w < n
    ensures Bits(Narrow(mask, n)) == Bits(mask)
  {
    forall w: nat | w < 64
      ensures Bit(Narrow(mask, n), w) <==> Bit(mask, w)
    {
      if w < n {
        NarrowBit(mask, n, w);
      } else {
        NarrowDrops(mask, n, w);
        assert w !in Bits(mask);
      }
    }
  }

  datatype Schedule = Schedule(
    minute: bv64, hour: bv64, dom: bv64, month: bv64, dow: bv64,
    domRestricted: bool, dowRestricted: bool)

  const MINUTE: Limits := (0, 59)
  const HOUR: Limits := (0, 23)
  const DOM: Limits := (1, 31)
  const MONTH: Limits := (1, 12)
  const DOW: Limits := (0, 6)

  function LimitsOf(i: nat): Limits
    requires i < 5
  {
    [MINUTE, HOUR, DOM, MONTH, DOW][i]
  }

  /** The mask holds what the field encodes. */
  ghost predicate Holds(mask: bv64, field: string, l: Limits) {
    forall w: nat :: w in Bits(mask) <==> Encodes(field, l, w)
  }

  ghost predicate Represents(s: Schedule, f: seq<string>)
    requires |f| == 5
  {
    && Holds(s.minute, f[0], MINUTE) && Holds(s.hour, f[1], HOUR) && Holds(s.dom, f[2], DOM)
    && Holds(s.month, f[3], MONTH) && Holds(s.dow, f[4], DOW)
    && (s.domRestricted <==> f[2] != "*") && (s.dowRestricted <==> f[4] != "*")
  }

  /** A field parsed and narrowed to the width it is stored in. */
  method ParseNarrow(field: string, l: Limits, n: nat) returns (r: Option<(bv64, bool)>)
    requires n in {8, 16, 32} && l.1 < n
    ensures r.Some? <==> GoodField(field, l)
    ensures r.Some? ==> (r.value.1 <==> field != "*") && Holds(r.value.0, field, l)
  {
    r := ParseField(field, l);
    if r.Some? {
      forall w: nat | w in Bits(r.value.0)
        ensures w < n
      {
        EncodesWithinLimits(field, l, w);
      }
      NarrowKeepsAll(r.value.0, n);
      r := Some((Narrow(r.value.0, n), r.value.1));
    }
  }

  method ParseSchedule(expr: string) returns (r: Option<Schedule>)
    ensures r.Some? <==> |Fields(expr)| == 5 && forall i :: 0 <= i < 5 ==> GoodField(Fields(expr)[i], LimitsOf(i))
    ensures r.Some? ==> Represents(r.value, Fields(expr))
  {
    var fields := Fields(expr);
    if |fields| != 5 {
      return None;
    }
    assert LimitsOf(0) == MINUTE && LimitsOf(1) == HOUR && LimitsOf(2) == DOM && LimitsOf(3) == MONTH && LimitsOf(4) == DOW;
    var minute := ParseField(fields[0], MINUTE);
    if minute.None? {
      return None;
    }
    var hour := ParseNarrow(fields[1], HOUR, 32);
    if hour.None? {
      return None;
    }
    var dom := ParseNarrow(fields[2], DOM, 32);
    if dom.None? {
      return None;
    }
    var month := ParseNarrow(fields[3], MONTH, 16);
    if month.None? {
      return None;
    }
    var dow := ParseNarrow(fields[4], DOW, 8);
    if dow.None? {
      return None;
    }
    return Some(Schedule(minute.value.0, hour.value.0, dom.value.0, month.value.0, dow.value.0, dom.value.1, dow.value.1));
  }

  // ----- firing -----

  datatype Time = Time(minute: nat, hour: nat, day: nat, month: nat, weekday: nat)

  predicate ValidTime(t: Time) {
    t.minute <= 59 && t.hour <= 23 && 1 <= t.day <= 31 && 1 <= t.month <= 12 && t.weekday <= 6
  }

  predicate Matches(s: Schedule, t: Time)
    requires ValidTime(t)
  {
    if !Bit(s.minute, t.minute) || !Bit(s.hour, t.hour) || !Bit(s.month, t.month) then false
    else
      var domOk, dowOk := Bit(s.dom, t.day), Bit(s.dow, t.weekday);
      if s.domRestricted && s.dowRestricted then domOk || dowOk else domOk && dowOk
  }

  /** Cron's rule: with both day fields restricted, either is enough. */
  predicate Rule(minute: bool, hour: bool, dom: bool, month: bool, dow: bool, bothRestricted: bool) {
    minute && hour && month && if bothRestricted then dom || dow else dom && dow
  }

  /** The expression fires at t, by the values its fields stand for. */
  ghost predicate Fires(f: seq<string>, t: Time)
    requires |f| == 5
  {
    Rule(Denotes(f[0], MINUTE, t.minute), Denotes(f[1], HOUR, t.hour), Denotes(f[2], DOM, t.day),
         Denotes(f[3], MONTH, t.month), Denotes(f[4], DOW, t.weekday), f[2] != "*" && f[4] != "*")
  }

  /** The same, by the values its masks hold. */
  ghost predicate MaskFires(f: seq<string>, t: Time)
    requires |f| == 5
  {
    Rule(Encodes(f[0], MINUTE, t.minute), Encodes(f[1], HOUR, t.hour), Encodes(f[2], DOM, t.day),
         Encodes(f[3], MONTH, t.month), Encodes(f[4], DOW, t.weekday), f[2] != "*" && f[4] != "*")
  }

  lemma HoldsMeans(mask: bv64, field: string, l: Limits, v: nat)
    requires Holds(mask, field, l) && v < 64
    ensures Bit(mask, v) <==> Encodes(field, l, v)
  {
    assert v in Bits(mask) <==> Bit(mask, v);
  }

  /** A parsed schedule fires at exactly the minutes its masks hold. */
  lemma MatchesMeansMasks(s: Schedule, f: seq<string>, t: Time)
    requires |f| == 5 && Represents(s, f) && ValidTime(t)
    ensures Matches(s, t) <==> MaskFires(f, t)
  {
    HoldsMeans(s.minute, f[0], MINUTE, t.minute);
    HoldsMeans(s.hour, f[1], HOUR, t.hour);
    HoldsMeans(s.dom, f[2], DOM, t.day);
    HoldsMeans(s.month, f[3], MONTH, t.month);
    HoldsMeans(s.dow, f[4], DOW, t.weekday);
  }

  ghost predicate TameFields(f: seq<string>)
    requires |f| == 5
  {
    forall i :: 0 <= i < 5 ==> TameField(f[i], LimitsOf(i))
  }

  /** Those are exactly the minutes the expression denotes, unless a step is close to the largest integer. */
  lemma MasksMeanFires(f: seq<string>, t: Time)
    requires |f| == 5 && TameFields(f)
    ensures MaskFires(f, t) <==> Fires(f, t)
  {
    assert TameField(f[0], LimitsOf(0)) && TameField(f[1], LimitsOf(1)) && TameField(f[2], LimitsOf(2));
    assert TameField(f[3], LimitsOf(3)) && TameField(f[4], LimitsOf(4));
    TameFieldIsExact(f[0], MINUTE, t.minute);
    TameFieldIsExact(f[1], HOUR, t.hour);
    TameFieldIsExact(f[2], DOM, t.day);
    TameFieldIsExact(f[3], MONTH, t.month);
    TameFieldIsExact(f[4], DOW, t.weekday);
  }

  /** A stepped star counts as restricted, although it may stand for every day. */
  lemma SteppedStarIsRestricted(r: Schedule, f: seq<string>, t: Time)
    requires |f| == 5 && Represents(r, f) && ValidTime(t) && f[2] == "*/1" && f[4] != "*"
    requires Bit(r.minute, t.minute) && Bit(r.hour, t.hour) && Bit(r.month, t.month)
    ensures Matches(r, t)
  {
    assert f[2][0] == '*' && f[2][1] == '/' && f[2][2] == '1';
    assert Find("*/1", ',') == 3;
    assert Split(f[2], ',') == [f[2]];
    assert f[2][..1] == "*" && f[2][2..] == "1";
    assert Atoi("1") == Some(1);
    assert Find(f[2], '/') == 1;
    assert PartOf(f[2], 1, 31) == Some(Range(1, 31, 1));
    assert PartSets(Split(f[2], ',')[0], DOM, t.day);
    assert t.day in Bits(r.dom);
  }
}
