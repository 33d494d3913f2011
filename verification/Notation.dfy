/**
What the text of a cron expression says, character by character (manifest/cron.go).

`Cron` reads an expression the way the Go code does, cutting at separators; here numbers, parts, fields and whole expressions
are described by how they are written.
*/
module Notation {
  import opened Common
  import opened Cron

  // ----- numbers -----

  predicate AllDigits(s: string) {
    forall i :: 0 <= i < |s| ==> '0' <= s[i] <= '9'
  }

  /** Reading on after v: every further digit makes ten times as much, and the digit. */
  function ReadOn(v: nat, s: string): nat
    requires AllDigits(s)
    decreases |s|
  {
    if s == "" then v else ReadOn(10 * v + (s[0] as int - 48), s[1..])
  }

  function Value(s: string): nat
    requires AllDigits(s)
  {
    ReadOn(0, s)
  }

  lemma {:induction false} AppendDigit(v: nat, s: string, c: char)
    requires AllDigits(s + [c]) && AllDigits(s)
    ensures ReadOn(v, s + [c]) == 10 * ReadOn(v, s) + (c as int - 48)
    decreases |s|
  {
    var t := s + [c];
    if s == "" {
      assert t == [c] && t[1..] == "";
    } else {
      assert t[1..] == s[1..] + [c];
      AppendDigit(10 * v + (s[0] as int - 48), s[1..], c);
    }
  }

  lemma {:induction false} DigitsSome(s: string)
    ensures Digits(s).Some? <==> s != "" && AllDigits(s)
  {
    if |s| > 1 {
      var front, c := s[..|s| - 1], s[|s| - 1];
      DigitsSome(front);
      assert s == front + [c];
      AllDigitsBut(front, c);
    }
  }

  lemma AllDigitsBut(front: string, c: char)
    ensures AllDigits(front + [c]) <==> AllDigits(front) && '0' <= c <= '9'
  {
    var s := front + [c];
    assert s[|front|] == c && forall i :: 0 <= i < |front| ==> s[i] == front[i];
  }

  lemma DigitOf(c: char)
    requires '0' <= c <= '9'
    ensures (c - '0') as int == c as int - 48
  {
  }

  lemma {:induction false} DigitsValue(s: string)
    requires s != "" && AllDigits(s)
    ensures Digits(s) == Some(Value(s))
  {
    if |s| == 1 {
      DigitOf(s[0]);
      assert ReadOn(0, s) == ReadOn(s[0] as int - 48, s[1..]) && s[1..] == "";
    } else {
      var front, c := s[..|s| - 1], s[|s| - 1];
      assert s == front + [c];
      AllDigitsBut(front, c);
      DigitsValue(front);
      DigitOf(c);
      AppendDigit(0, front, c);
    }
  }

  lemma DigitsMean(s: string)
    ensures Digits(s).Some? <==> s != "" && AllDigits(s)
    ensures Digits(s).Some? ==> Digits(s).value == Value(s)
  {
    DigitsSome(s);
    if s != "" && AllDigits(s) {
      DigitsValue(s);
    }
  }

  /** The text is v in decimal, with or without a sign and leading zeros, and v fits a 64-bit integer. */
  ghost predicate Numeral(s: string, v: int) {
    && -9_223_372_036_854_775_808 <= v <= 9_223_372_036_854_775_807
    && exists sign: string, d: string :: Signed(s, sign, d, v)
  }

  ghost predicate Signed(s: string, sign: string, d: string, v: int) {
    && s == sign + d && d != "" && AllDigits(d)
    && ((sign in {"", "+"} && v == Value(d)) || (sign == "-" && -v == Value(d)))
  }

  lemma {:induction false} NumberExactly(s: string, v: int)
    ensures Atoi(s) == Some(v) <==> Numeral(s, v)
  {
    if Atoi(s) == Some(v) {
      ReadIsNumeral(s, v);
    }
    if Numeral(s, v) {
      NumeralIsRead(s, v);
    }
  }

  lemma ReadIsNumeral(s: string, v: int)
    requires Atoi(s) == Some(v)
    ensures Numeral(s, v)
  {
    var signed := s != "" && (s[0] == '-' || s[0] == '+');
    var d := if signed then s[1..] else s;
    DigitsMean(d);
    assert Signed(s, if signed then [s[0]] else "", d, v);
  }

  lemma NumeralIsRead(s: string, v: int)
    requires Numeral(s, v)
    ensures Atoi(s) == Some(v)
  {
    var sign: string, d: string :| Signed(s, sign, d, v);
    assert '0' <= d[0] <= '9';
    SignIs(s, sign, d);
    DigitsMean(d);
  }

  lemma SignIs(s: string, sign: string, e: string)
    requires s == sign + e && sign in {"", "+", "-"} && e != "" && '0' <= e[0] <= '9'
    ensures sign == "" <==> !(s[0] == '-' || s[0] == '+')
    ensures sign == "" ==> s == e
    ensures sign != "" ==> sign == [s[0]] && s[1..] == e
  {
  }

  // ----- parts -----

  /** Everything, a stretch from a to b, or one number. */
  ghost predicate Spans(base: string, min: int, max: int, lo: int, hi: int) {
    || (base == "*" && lo == min && hi == max)
    || (lo <= hi && Stretch(base, lo, hi))
    || ('-' !in base && base != "*" && Numeral(base, lo) && hi == lo)
  }

  ghost predicate Stretch(base: string, lo: int, hi: int) {
    exists a: string, b: string :: Cut(base, '-', a, b) && Numeral(a, lo) && Numeral(b, hi)
  }

  /** The text has this separator, and it is between these two for the first time. */
  ghost predicate Cut(s: string, c: char, a: string, b: string) {
    s == a + [c] + b && c !in a
  }

  lemma CutAt(s: string, c: char, a: string, b: string)
    requires Cut(s, c, a, b)
    ensures Find(s, c) == |a| < |s| && s[..|a|] == a && s[|a| + 1..] == b && c in s
  {
    FindFirst(a, c, b);
    assert s[|a|] == c;
  }

  lemma CutHas(s: string, c: char, a: string, b: string)
    ensures Cut(s, c, a, b) ==> c in s
  {
    if Cut(s, c, a, b) {
      assert s[|a|] == c;
    }
  }

  lemma CutsOrNot(s: string, c: char)
    ensures var i := Find(s, c);
            if i < |s| then Cut(s, c, s[..i], s[i + 1..]) && c in s else c !in s && s[..i] == s
  {
    var i := Find(s, c);
    if i < |s| {
      assert s == s[..i] + [c] + s[i + 1..];
    }
  }

  lemma {:induction false} SpanExactly(base: string, min: int, max: int, lo: int, hi: int)
    ensures Bounds(base, min, max) == Some((lo, hi)) <==> Spans(base, min, max, lo, hi)
  {
    CutsOrNot(base, '-');
    assert base == "*" ==> '-' !in base by {
      assert "*"[0] == '*';
    }
    if Find(base, '-') < |base| {
      StretchExactly(base, lo, hi);
    } else {
      NumberExactly(base, lo);
      NoStretch(base, lo, hi);
    }
  }

  lemma NoStretch(base: string, lo: int, hi: int)
    requires '-' !in base
    ensures !Stretch(base, lo, hi)
  {
    forall a: string, b: string
      ensures !Cut(base, '-', a, b)
    {
      CutHas(base, '-', a, b);
    }
  }

  lemma {:induction false} StretchExactly(base: string, lo: int, hi: int)
    requires Find(base, '-') < |base|
    ensures var i := Find(base, '-');
            Stretch(base, lo, hi) <==> Atoi(base[..i]) == Some(lo) && Atoi(base[i + 1..]) == Some(hi)
  {
    CutsOrNot(base, '-');
    var i := Find(base, '-');
    if Atoi(base[..i]) == Some(lo) && Atoi(base[i + 1..]) == Some(hi) {
      ReadIsStretch(base, base[..i], base[i + 1..], lo, hi);
    }
    if a: string, b: string :| Cut(base, '-', a, b) && Numeral(a, lo) && Numeral(b, hi) {
      CutAt(base, '-', a, b);
      NumeralIsRead(a, lo);
      NumeralIsRead(b, hi);
    }
  }

  lemma ReadIsStretch(base: string, a: string, b: string, lo: int, hi: int)
    requires Cut(base, '-', a, b) && Atoi(a) == Some(lo) && Atoi(b) == Some(hi)
    ensures Stretch(base, lo, hi)
  {
    ReadIsNumeral(a, lo);
    ReadIsNumeral(b, hi);
  }

  /** A part of a field: a span within the limits, in steps of one or of the positive number after a slash. */
  ghost predicate Reads(part: string, min: int, max: int, r: Range) {
    && min <= r.lo && r.hi <= max && r.step > 0
    && (('/' !in part && r.step == 1 && Spans(part, min, max, r.lo, r.hi)) ||
        Stepped(part, min, max, r))
  }

  ghost predicate Stepped(part: string, min: int, max: int, r: Range) {
    exists base: string, t: string :: Cut(part, '/', base, t) && Numeral(t, r.step) && Spans(base, min, max, r.lo, r.hi)
  }

  lemma {:induction false} PartExactly(part: string, min: int, max: int, r: Range)
    requires min <= max
    ensures PartOf(part, min, max) == Some(r) <==> Reads(part, min, max, r)
  {
    CutsOrNot(part, '/');
    if Find(part, '/') < |part| {
      SteppedExactly(part, min, max, r);
    } else {
      SpanExactly(part, min, max, r.lo, r.hi);
      NotStepped(part, min, max, r);
    }
  }

  lemma NotStepped(part: string, min: int, max: int, r: Range)
    requires '/' !in part
    ensures !Stepped(part, min, max, r)
  {
    forall base: string, t: string
      ensures !Cut(part, '/', base, t)
    {
      CutHas(part, '/', base, t);
    }
  }

  lemma {:induction false} SteppedExactly(part: string, min: int, max: int, r: Range)
    requires Find(part, '/') < |part|
    ensures var i := Find(part, '/');
            Stepped(part, min, max, r) <==> Atoi(part[i + 1..]) == Some(r.step) && Bounds(part[..i], min, max) == Some((r.lo, r.hi))
  {
    CutsOrNot(part, '/');
    var i := Find(part, '/');
    if Atoi(part[i + 1..]) == Some(r.step) && Bounds(part[..i], min, max) == Some((r.lo, r.hi)) {
      ReadIsStepped(part, part[..i], part[i + 1..], min, max, r);
    }
    if base: string, t: string :| Cut(part, '/', base, t) && Numeral(t, r.step) && Spans(base, min, max, r.lo, r.hi) {
      CutAt(part, '/', base, t);
      NumeralIsRead(t, r.step);
      SpanExactly(base, min, max, r.lo, r.hi);
    }
  }

  lemma ReadIsStepped(part: string, base: string, t: string, min: int, max: int, r: Range)
    requires Cut(part, '/', base, t) && Atoi(t) == Some(r.step) && Bounds(base, min, max) == Some((r.lo, r.hi))
    ensures Stepped(part, min, max, r)
  {
    ReadIsNumeral(t, r.step);
    SpanExactly(base, min, max, r.lo, r.hi);
  }

  // ----- fields -----

  /** The parts with one separator between any two. */
  function Separated(parts: seq<string>, c: char): string
    requires parts != []
  {
    if |parts| == 1 then parts[0] else parts[0] + [c] + Separated(parts[1..], c)
  }

  ghost predicate Without(parts: seq<string>, c: char) {
    forall p :: p in parts ==> c !in p
  }

  lemma {:induction false} SplitExactly(s: string, c: char, parts: seq<string>)
    ensures Split(s, c) == parts <==> parts != [] && Without(parts, c) && s == Separated(parts, c)
    decreases |s|
  {
    CutsOrNot(s, c);
    var i := Find(s, c);
    if i < |s| {
      var rest := s[i + 1..];
      SplitExactly(rest, c, Split(rest, c));
      assert Split(s, c)[1..] == Split(rest, c);
      if parts != [] && Without(parts, c) && s == Separated(parts, c) {
        SeparatedIsSplit(parts, c);
      }
    } else if parts != [] && Without(parts, c) && s == Separated(parts, c) {
      SeparatedIsSplit(parts, c);
    }
  }

  lemma {:induction false} SeparatedIsSplit(parts: seq<string>, c: char)
    requires parts != [] && Without(parts, c)
    ensures Split(Separated(parts, c), c) == parts
    decreases |parts|
  {
    assert parts[0] in parts;
    if |parts| == 1 {
      FindNone(parts[0], c);
    } else {
      SeparatedIsSplit(parts[1..], c);
      var rest := Separated(parts[1..], c);
      assert Cut(Separated(parts, c), c, parts[0], rest);
      CutAt(Separated(parts, c), c, parts[0], rest);
      assert parts == [parts[0]] + parts[1..];
    }
  }

  /** The field stands for v: it is a star and v within the limits, or one of its parts reaches v in steps from its start. */
  ghost predicate StandsFor(field: string, min: int, max: int, v: int) {
    if field == "*" then min <= v <= max
    else exists parts: seq<string> :: ListOf(field, parts) && exists i :: 0 <= i < |parts| && Reaches(parts[i], min, max, v)
  }

  ghost predicate ListOf(field: string, parts: seq<string>) {
    parts != [] && Without(parts, ',') && field == Separated(parts, ',')
  }

  ghost predicate Reaches(part: string, min: int, max: int, v: int) {
    exists r :: Reads(part, min, max, r) && OnStep(r, v)
  }

  predicate OnStep(r: Range, v: int)
    requires r.step > 0
  {
    r.lo <= v <= r.hi && (v - r.lo) % r.step == 0
  }

  lemma ReachesExactly(part: string, l: Limits, v: int)
    ensures PartDenotes(part, l, v) <==> Reaches(part, l.0, l.1, v)
  {
    if PartDenotes(part, l, v) {
      var r := PartOf(part, l.0, l.1).value;
      PartExactly(part, l.0, l.1, r);
      StepMeans(r, v);
    }
    if r :| Reads(part, l.0, l.1, r) && OnStep(r, v) {
      PartExactly(part, l.0, l.1, r);
      StepMeans(r, v);
    }
  }

  lemma StepMeans(r: Range, v: int)
    requires r.step > 0
    ensures OnStep(r, v) <==> InSteps(r.lo, r.hi, r.step, v)
  {
  }

  lemma {:induction false} FieldExactly(field: string, l: Limits, v: int)
    ensures Denotes(field, l, v) <==> StandsFor(field, l.0, l.1, v)
  {
    var parts := Split(field, ',');
    SplitExactly(field, ',', parts);
    forall i | 0 <= i < |parts|
      ensures PartDenotes(parts[i], l, v) <==> Reaches(parts[i], l.0, l.1, v)
    {
      ReachesExactly(parts[i], l, v);
    }
    if qs: seq<string> :| ListOf(field, qs) && exists i :: 0 <= i < |qs| && Reaches(qs[i], l.0, l.1, v) {
      SplitExactly(field, ',', qs);
    }
    assert ListOf(field, parts);
  }

  ghost predicate Readable(field: string, min: int, max: int) {
    field == "*" || exists parts: seq<string> :: ListOf(field, parts) && AllReadable(parts, min, max)
  }

  ghost predicate AllReadable(parts: seq<string>, min: int, max: int) {
    forall i :: 0 <= i < |parts| ==> CanRead(parts[i], min, max)
  }

  ghost predicate CanRead(part: string, min: int, max: int) {
    exists r :: Reads(part, min, max, r)
  }

  lemma PartReadable(part: string, l: Limits)
    ensures PartOf(part, l.0, l.1).Some? <==> CanRead(part, l.0, l.1)
  {
    if PartOf(part, l.0, l.1).Some? {
      PartExactly(part, l.0, l.1, PartOf(part, l.0, l.1).value);
    }
    if r :| Reads(part, l.0, l.1, r) {
      PartExactly(part, l.0, l.1, r);
    }
  }

  lemma PartsReadable(parts: seq<string>, l: Limits)
    ensures AllReadable(parts, l.0, l.1) <==> forall i :: 0 <= i < |parts| ==> PartOf(parts[i], l.0, l.1).Some?
  {
    forall i | 0 <= i < |parts|
      ensures PartOf(parts[i], l.0, l.1).Some? <==> CanRead(parts[i], l.0, l.1)
    {
      PartReadable(parts[i], l);
    }
  }

  /** A field is accepted exactly if it is a star or every part between its commas can be read. */
  lemma {:induction false} GoodExactly(field: string, l: Limits)
    ensures GoodField(field, l) <==> Readable(field, l.0, l.1)
  {
    var parts := Split(field, ',');
    SplitExactly(field, ',', parts);
    PartsReadable(parts, l);
    assert ListOf(field, parts);
    if qs: seq<string> :| ListOf(field, qs) && AllReadable(qs, l.0, l.1) {
      SplitExactly(field, ',', qs);
    }
  }

  // ----- expressions -----

  predicate Blank(c: char) {
    c as int in {9, 10, 11, 12, 13, 32}
  }

  /** The words of the text, between stretches of white space. */
  ghost predicate Words(s: string, words: seq<string>)
    decreases |words|
  {
    if words == [] then forall i :: 0 <= i < |s| ==> Blank(s[i])
    else exists i: nat, j: nat :: WordAt(s, i, j) && words[0] == s[i..j] && Words(s[j..], words[1..])
  }

  /** After blanks only, characters i up to j are a whole word. */
  ghost predicate WordAt(s: string, i: nat, j: nat) {
    && i < j <= |s| && (forall k :: 0 <= k < i ==> Blank(s[k])) && (forall k :: i <= k < j ==> !Blank(s[k]))
    && (j < |s| ==> Blank(s[j]))
  }

  lemma SpaceMeans(c: char)
    ensures IsSpace(c) <==> Blank(c)
  {
  }

  lemma {:induction false} WordEndIs(s: string, j: nat)
    requires j <= |s| && (forall k :: 0 <= k < j ==> !Blank(s[k])) && (j < |s| ==> Blank(s[j]))
    ensures WordEnd(s) == j
  {
    if j > 0 {
      WordEndIs(s[1..], j - 1);
    }
  }

  lemma {:induction false} WordIsFirst(s: string, i: nat, j: nat)
    requires WordAt(s, i, j)
    ensures Fields(s) == [s[i..j]] + Fields(s[j..])
    decreases i
  {
    if i == 0 {
      WordEndIs(s, j);
      assert s[0..j] == s[..j];
    } else {
      assert Blank(s[0]);
      WordIsFirst(s[1..], i - 1, j - 1);
      assert s[1..][i - 1..j - 1] == s[i..j] && s[1..][j - 1..] == s[j..];
    }
  }

  lemma {:induction false} FirstWord(s: string) returns (i: nat, j: nat)
    ensures (forall k :: 0 <= k < |s| ==> Blank(s[k])) ==> Fields(s) == []
    ensures !(forall k :: 0 <= k < |s| ==> Blank(s[k])) ==> WordAt(s, i, j)
    decreases |s|
  {
    i, j := 0, 0;
    if s != "" {
      assert forall k :: 0 < k < |s| ==> s[k] == s[1..][k - 1];
      if Blank(s[0]) {
        i, j := FirstWord(s[1..]);
        i, j := i + 1, j + 1;
      } else {
        j := EndOf(s);
      }
    }
  }

  lemma {:induction false} EndOf(s: string) returns (j: nat)
    ensures j <= |s| && (forall k :: 0 <= k < j ==> !Blank(s[k])) && (j < |s| ==> Blank(s[j]))
    ensures s != "" && !Blank(s[0]) ==> j > 0
  {
    j := 0;
    if s != "" && !Blank(s[0]) {
      j := EndOf(s[1..]);
      j := j + 1;
      assert forall k :: 0 < k < |s| ==> s[k] == s[1..][k - 1];
    }
  }

  /** The words the schedule is cut into are the words of the text. */
  lemma {:induction false} WordsExactly(s: string, words: seq<string>)
    ensures Fields(s) == words <==> Words(s, words)
    decreases |s|
  {
    var i, j := FirstWord(s);
    if forall k :: 0 <= k < |s| ==> Blank(s[k]) {
      NoWord(s);
    } else {
      WordIsFirst(s, i, j);
      if words != [] {
        WordsExactly(s[j..], words[1..]);
        assert words == [words[0]] + words[1..];
        if m: nat, n: nat :| WordAt(s, m, n) && words[0] == s[m..n] && Words(s[n..], words[1..]) {
          OneFirstWord(s, i, j, m, n);
        }
      }
    }
  }

  lemma NoWord(s: string)
    requires forall k :: 0 <= k < |s| ==> Blank(s[k])
    ensures forall m: nat, n: nat :: !WordAt(s, m, n)
  {
    forall m: nat, n: nat
      ensures !WordAt(s, m, n)
    {
      assert m < |s| ==> Blank(s[m]);
    }
  }

  lemma OneFirstWord(s: string, i: nat, j: nat, m: nat, n: nat)
    requires WordAt(s, i, j) && WordAt(s, m, n)
    ensures i == m && j == n
  {
    assert !Blank(s[i]) && !Blank(s[m]);
    assert (j < |s| ==> Blank(s[j])) && (n < |s| ==> Blank(s[n]));
  }

  /**
  The minutes an expression of five words denotes: minute, hour and month must be stood for, and the day by its date and its
  weekday, or by either if both are anything but a star.
  */
  lemma ExpressionExactly(expr: string, f: seq<string>, t: Time)
    requires Words(expr, f) && |f| == 5
    ensures Fields(expr) == f
    ensures Fires(f, t) <==>
              && StandsFor(f[0], 0, 59, t.minute) && StandsFor(f[1], 0, 23, t.hour) && StandsFor(f[3], 1, 12, t.month)
              && if f[2] == "*" || f[4] == "*" then StandsFor(f[2], 1, 31, t.day) && StandsFor(f[4], 0, 6, t.weekday)
                 else StandsFor(f[2], 1, 31, t.day) || StandsFor(f[4], 0, 6, t.weekday)
  {
    WordsExactly(expr, f);
    FieldExactly(f[0], MINUTE, t.minute);
    FieldExactly(f[1], HOUR, t.hour);
    FieldExactly(f[2], DOM, t.day);
    FieldExactly(f[3], MONTH, t.month);
    FieldExactly(f[4], DOW, t.weekday);
  }

  /** And exactly the expressions of five words are accepted that can be read within those limits. */
  lemma AcceptedExactly(expr: string, f: seq<string>)
    requires Words(expr, f)
    ensures |Fields(expr)| == 5 && (forall i :: 0 <= i < 5 ==> GoodField(Fields(expr)[i], LimitsOf(i))) <==>
              && |f| == 5 && Readable(f[0], 0, 59) && Readable(f[1], 0, 23) && Readable(f[2], 1, 31) && Readable(f[3], 1, 12)
              && Readable(f[4], 0, 6)
  {
    WordsExactly(expr, f);
    if |f| == 5 {
      GoodExactly(f[0], LimitsOf(0));
      GoodExactly(f[1], LimitsOf(1));
      GoodExactly(f[2], LimitsOf(2));
      GoodExactly(f[3], LimitsOf(3));
      GoodExactly(f[4], LimitsOf(4));
      assert (forall i :: 0 <= i < 5 ==> GoodField(f[i], LimitsOf(i))) <==>
        GoodField(f[0], LimitsOf(0)) && GoodField(f[1], LimitsOf(1)) && GoodField(f[2], LimitsOf(2)) &&
        GoodField(f[3], LimitsOf(3)) && GoodField(f[4], LimitsOf(4));
    }
  }
}
