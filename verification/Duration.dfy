/** Durations as text: printing, the short form, and parsing. */
module Duration {
  import opened Common
  import opened Numbers
  import opened Text

  const MICROSECOND := 1_000
  const MILLISECOND := 1_000_000
  const SECOND := 1_000_000_000
  const MINUTE := 60 * SECOND
  const HOUR := 60 * MINUTE

  const MAX_INT64 := 0x7FFF_FFFF_FFFF_FFFF
  const LIMIT := MAX_INT64 + 1

  /** Nanoseconds in 64 bits. */
  type Duration = d: int | -LIMIT <= d <= MAX_INT64

  // ---- printing ----

  /** The last `prec` digits of `v`, without trailing zeros. */
  function FracDigits(v: nat, prec: nat, shown: bool): string {
    if prec == 0 then ""
    else
      var p := shown || v % 10 != 0;
      FracDigits(v / 10, prec - 1, p) + if p then [Digit(v % 10)] else ""
  }

  function Frac(v: nat, prec: nat): string {
    var ds := FracDigits(v, prec, false);
    if ds == "" then "" else "." + ds
  }

  /** The standard form, such as 1h0m1.5s. */
  function Standard(d: Duration): string {
    if d < 0 then "-" + Magnitude(-(d as int)) else Magnitude(d)
  }

  function Magnitude(u: nat): string {
    if u == 0 then "0s"
    else if u < MICROSECOND then Decimal(u) + "ns"
    else if u < MILLISECOND then Decimal(u / MICROSECOND) + Frac(u, 3) + "\U{B5}s"
    else if u < SECOND then Decimal(u / MILLISECOND) + Frac(u, 6) + "ms"
    else
      var secs := u / SECOND;
      Clock(secs / 3600, secs / 60 % 60, Decimal(secs % 60) + Frac(u, 9))
  }

  /** Hours and minutes before the text of the seconds. */
  function Clock(h: nat, m: nat, sec: string): string {
    var seconds := sec + "s";
    if h == 0 && m == 0 then seconds
    else
      var minutes := Decimal(m) + "m" + seconds;
      if h == 0 then minutes else Decimal(h) + "h" + minutes
  }

  predicate HasSuffix(s: string, t: string) {
    |t| <= |s| && s[|s| - |t|..] == t
  }

  function TrimSuffix(s: string, t: string): string {
    if HasSuffix(s, t) then s[..|s| - |t|] else s
  }

  function DropZeros(str: string): string {
    var str1 := if HasSuffix(str, "m0s") then TrimSuffix(str, "0s") else str;
    if HasSuffix(str1, "h0m") then TrimSuffix(str1, "0m") else str1
  }

  /** The short form: without trailing zero units. */
  function ShortDur(d: Duration): string {
    DropZeros(Standard(d))
  }

  // ---- parsing ----

  datatype Parsed = Time(d: Duration) | Bad

  /** The floating-point product of a fraction of `k` digits with a unit. */
  type Product = (nat, nat, nat) -> nat

  function Pow10(k: nat): (p: nat)
    ensures p > 0
  {
    if k == 0 then 1 else 10 * Pow10(k - 1)
  }

  /** Where the unit is divisible by the scale, every operand and result is a whole
      number below the 2^53 up to which IEEE 754 double arithmetic is exact. */
  ghost predicate Exact(product: Product) {
    forall f: nat, unit: nat, k: nat | k <= 9 && f < Pow10(k) && 0 < unit <= HOUR && unit % Pow10(k) == 0 ::
      product(f, unit, k) == f * (unit / Pow10(k))
  }

  /** The digits at the front, read after `x`: the number, unless it overflows,
      and what follows. */
  function LeadingInt(s: string, x: nat): (Option<nat>, string) {
    if s == "" || !IsDigit(s[0]) then (Some(x), s)
    else if x > MAX_INT64 / 10 then (None, s)
    else
      var x' := 10 * x + DigitValue(s[0]);
      if x' > LIMIT then (None, s) else LeadingInt(s[1..], x')
  }

  /** The digits of a fraction: the number they make, how many of them count, and what
      follows; digits that would overflow are passed over. */
  function LeadingFraction(s: string, x: nat, k: nat, over: bool): (nat, nat, string) {
    if s == "" || !IsDigit(s[0]) then (x, k, s)
    else
      var x' := 10 * x + DigitValue(s[0]);
      if over || x > MAX_INT64 / 10 || x' > LIMIT then LeadingFraction(s[1..], x, k, true)
      else LeadingFraction(s[1..], x', k + 1, false)
  }

  /** Once one digit of a fraction does not fit, it and all after it are passed over. */
  lemma {:induction false} DigitsPassedOver(digits: string, rest: string, x: nat, k: nat, over: bool)
    requires AllDigits(digits) && (rest != "" ==> !IsDigit(rest[0])) && (over || x > MAX_INT64 / 10)
    ensures LeadingFraction(digits + rest, x, k, over) == (x, k, rest)
    decreases |digits|
  {
    if digits == "" {
      assert digits + rest == rest;
    } else {
      assert (digits + rest)[1..] == digits[1..] + rest;
      DigitsPassedOver(digits[1..], rest, x, k, true);
    }
  }

  predicate EndsUnit(c: char) {
    c == '.' || IsDigit(c)
  }

  function UnitLength(s: string): nat
    ensures UnitLength(s) <= |s|
  {
    if s == "" || EndsUnit(s[0]) then 0 else 1 + UnitLength(s[1..])
  }

  function UnitValue(u: string): Option<nat> {
    if u == "ns" then Some(1)
    else if u == "us" || u == "\U{B5}s" || u == "\U{3BC}s" then Some(MICROSECOND)
    else if u == "ms" then Some(MILLISECOND)
    else if u == "s" then Some(SECOND)
    else if u == "m" then Some(MINUTE)
    else if u == "h" then Some(HOUR)
    else None
  }

  /** The sum is kept in 64 bits: twice the limit wraps around to zero. */
  function Added(d: nat, v: nat): nat {
    (d + v) % 0x1_0000_0000_0000_0000
  }

  /** One number without its unit: its whole part, its fraction with the digits that
      count, and the rest. */
  function ReadNumber(s: string): (r: Option<(nat, nat, nat, string)>)
    ensures r.Some? ==> |r.value.3| <= |s|
  {
    LeadingIntRest(s, 0);
    var (v, s1) := LeadingInt(s, 0);
    if v.None? then None
    else if s1 != "" && s1[0] == '.' then
      LeadingFractionRest(s1[1..], 0, 0, false);
      var (f, k, s2) := LeadingFraction(s1[1..], 0, 0, false);
      if |s1| == |s| && |s2| == |s1| - 1 then None else Some((v.value, f, k, s2))
    else if |s1| == |s| then None
    else Some((v.value, 0, 0, s1))
  }

  /** Number and unit, again and again; None where the text is malformed or the sum
      overflows. */
  function ParseUnits(product: Product, s: string, d: nat): (sum: Option<nat>)
    requires d <= LIMIT
    ensures sum.Some? ==> sum.value <= LIMIT
    decreases |s|
  {
    if s == "" then Some(d)
    else
      match ReadNumber(s)
      case None => None
      case Some((v, f, k, rest)) =>
        var n := UnitLength(rest);
        if n == 0 || UnitValue(rest[..n]).None? then None
        else
          var unit := UnitValue(rest[..n]).value;
          if v > LIMIT / unit then None
          else
            var w := v * unit + if f > 0 then product(f, unit, k) else 0;
            if w > LIMIT || Added(d, w) > LIMIT then None else ParseUnits(product, rest[n..], Added(d, w))
  }

  lemma LeadingIntRest(s: string, x: nat)
    ensures |LeadingInt(s, x).1| <= |s|
  {
  }

  lemma LeadingFractionRest(s: string, x: nat, k: nat, over: bool)
    ensures |LeadingFraction(s, x, k, over).2| <= |s|
  {
  }

  function ParseDuration(product: Product, s: string): Parsed {
    var neg := s != "" && s[0] == '-';
    var body := if s != "" && (s[0] == '-' || s[0] == '+') then s[1..] else s;
    if body == "0" then Time(0)
    else if body == "" then Bad
    else
      match ParseUnits(product, body, 0)
      case None => Bad
      case Some(d) => if neg then Time(0 - d) else if d > MAX_INT64 then Bad else Time(d)
  }

  // ---- reading digits back ----

  lemma {:induction false} DecimalReads(n: nat, rest: string)
    requires n <= LIMIT
    ensures LeadingInt(Decimal(n) + rest, 0) == LeadingInt(rest, n)
    decreases n
  {
    if n < 10 {
      assert (Decimal(n) + rest)[1..] == rest;
    } else {
      assert Decimal(n) + rest == Decimal(n / 10) + ([Digit(n % 10)] + rest);
      DecimalReads(n / 10, [Digit(n % 10)] + rest);
      assert ([Digit(n % 10)] + rest)[1..] == rest;
    }
  }

  lemma {:induction false} ValueBelow(ds: string)
    requires AllDigits(ds)
    ensures Value(ds) < Pow10(|ds|)
    decreases |ds|
  {
    if ds != "" {
      ValueBelow(ds[..|ds| - 1]);
    }
  }

  lemma {:induction false} Pow10Monotone(j: nat, k: nat)
    requires j <= k
    ensures Pow10(j) <= Pow10(k)
  {
    if j < k {
      Pow10Monotone(j, k - 1);
    }
  }

  lemma NinePow10()
    ensures Pow10(3) == MICROSECOND && Pow10(6) == MILLISECOND && Pow10(9) == SECOND
  {
    assert Pow10(1) == 10 && Pow10(2) == 100 && Pow10(3) == 1000;
    assert Pow10(4) == 10_000 && Pow10(5) == 100_000 && Pow10(6) == 1_000_000;
    assert Pow10(7) == 10_000_000 && Pow10(8) == 100_000_000;
  }

  lemma {:induction false} DigitsRead(ds: string, rest: string)
    requires AllDigits(ds) && |ds| <= 9
    ensures LeadingFraction(ds + rest, 0, 0, false) == LeadingFraction(rest, Value(ds), |ds|, false)
    decreases |ds|
  {
    if ds == "" {
      assert ds + rest == rest;
    } else {
      var n := |ds| - 1;
      assert ds + rest == ds[..n] + ([ds[n]] + rest);
      DigitsRead(ds[..n], [ds[n]] + rest);
      assert ([ds[n]] + rest)[1..] == rest;
      ValueBelow(ds);
      ValueBelow(ds[..n]);
      Pow10Monotone(|ds|, 9);
      Pow10Monotone(n, 9);
      NinePow10();
    }
  }

  /** What the printed fraction digits denote. */
  lemma {:induction false} FracDenotes(v: nat, prec: nat, shown: bool)
    ensures var ds := FracDigits(v, prec, shown);
      && AllDigits(ds) && |ds| <= prec
      && (shown ==> |ds| == prec)
      && Value(ds) * Pow10(prec - |ds|) == v % Pow10(prec)
      && (ds == "" <==> prec == 0 || (!shown && v % Pow10(prec) == 0))
    decreases prec
  {
    if prec > 0 {
      var d := v % 10;
      var p := shown || d != 0;
      FracDenotes(v / 10, prec - 1, p);
      var ds, all := FracDigits(v / 10, prec - 1, p), FracDigits(v, prec, shown);
      SplitDigits(v, Pow10(prec - 1));
      if p {
        AppendDigit(ds, d);
        assert all == ds + [Digit(d)];
        assert prec - |all| == 0 && prec - 1 - |ds| == 0;
      } else {
        assert all == ds;
        assert Pow10(prec - |ds|) == 10 * Pow10(prec - 1 - |ds|);
        TenTimes(Value(ds), Pow10(prec - 1 - |ds|));
      }
    }
  }

  lemma SplitDigits(v: nat, p: nat)
    requires p > 0
    ensures v % (10 * p) == 10 * (v / 10 % p) + v % 10
  {
    var q, r := v / 10, v % 10;
    var a, b := q / p, q % p;
    assert v == 10 * q + r && q == a * p + b;
    assert v == a * (10 * p) + (10 * b + r) by { assert 10 * (a * p) == a * (10 * p); }
    assert 0 <= 10 * b + r < 10 * p;
    RemainderIs(v, 10 * p, a, 10 * b + r);
  }

  lemma RemainderIs(v: nat, m: nat, a: nat, r: nat)
    requires m > 0 && v == a * m + r && r < m
    ensures v % m == r
  {
    var q := v / m;
    assert v == q * m + v % m;
    assert (q - a) * m == r - v % m;
    if q > a {
      ProductMonotone(1, q - a, m);
    } else if q < a {
      ProductMonotone(q - a, -1, m);
    }
  }

  lemma TenTimes(x: nat, p: nat)
    ensures x * (10 * p) == 10 * (x * p)
  {
  }

  lemma {:induction false} Pow10Split(j: nat, k: nat)
    ensures Pow10(j + k) == Pow10(j) * Pow10(k)
    decreases k
  {
    if k > 0 {
      Pow10Split(j, k - 1);
      TenTimes(Pow10(j), Pow10(k - 1));
    }
  }

  /** Where a number ends. */
  predicate EndsNumber(s: string) {
    s == "" || !EndsUnit(s[0])
  }

  lemma WholeReads(n: nat, tail: string)
    requires n <= LIMIT && EndsNumber(tail)
    ensures ReadNumber(Decimal(n) + tail) == Some((n, 0, 0, tail))
  {
    DecimalDenotes(n);
    DecimalReads(n, tail);
    hide Decimal;
    assert |Decimal(n) + tail| > |tail|;
  }

  lemma PointReads(n: nat, ds: string, tail: string)
    requires n <= LIMIT && EndsNumber(tail) && AllDigits(ds) && 0 < |ds| <= 9
    ensures ReadNumber(Decimal(n) + ("." + (ds + tail))) == Some((n, Value(ds), |ds|, tail))
  {
    var more := "." + (ds + tail);
    DecimalDenotes(n);
    DecimalReads(n, more);
    DigitsRead(ds, tail);
    assert LeadingInt(more, n) == (Some(n), more);
    assert LeadingFraction(tail, Value(ds), |ds|, false) == (Value(ds), |ds|, tail);
    hide Decimal, Value, LeadingInt, LeadingFraction;
    assert more[1..] == ds + tail;
    assert |Decimal(n) + more| > |more|;
  }

  lemma NumberReads(n: nat, u: nat, prec: nat, tail: string) returns (f: nat, k: nat)
    requires n <= LIMIT && prec <= 9 && EndsNumber(tail)
    ensures ReadNumber(Decimal(n) + Frac(u, prec) + tail) == Some((n, f, k, tail))
    ensures k <= prec && f < Pow10(k) && f * Pow10(prec - k) == u % Pow10(prec)
  {
    var ds := FracDigits(u, prec, false);
    FracDenotes(u, prec, false);
    ValueBelow(ds);
    f, k := Value(ds), |ds|;
    if ds == "" {
      WholeReads(n, tail);
      assert Decimal(n) + Frac(u, prec) + tail == Decimal(n) + tail;
    } else {
      PointReads(n, ds, tail);
      assert Decimal(n) + Frac(u, prec) + tail == Decimal(n) + ("." + (ds + tail));
    }
    hide FracDigits, Decimal, ReadNumber;
  }

  /** The fraction adds what was cut off, to the nanosecond. */
  lemma FractionAdds(product: Product, f: nat, k: nat, prec: nat, unit: nat, u: nat)
    requires Exact(product) && k <= prec <= 9 && f < Pow10(k) && f * Pow10(prec - k) == u % Pow10(prec)
    requires prec == 0 || unit == Pow10(prec)
    ensures (if f > 0 then product(f, unit, k) else 0) == u % Pow10(prec)
  {
    if f > 0 {
      var q := Pow10(prec - k);
      Pow10Split(k, prec - k);
      Pow10Monotone(prec, 9);
      NinePow10();
      assert prec > 0;
      assert unit == q * Pow10(k) + 0;
      RemainderIs(unit, Pow10(k), q, 0);
      assert unit / Pow10(k) == q by { QuotientIs(unit, Pow10(k), q); }
    }
  }

  lemma QuotientIs(v: nat, m: nat, a: nat)
    requires m > 0 && v == a * m
    ensures v / m == a
  {
    RemainderIs(v, m, a, 0);
    var q := v / m;
    assert q * m == a * m;
    if q > a {
      ProductMonotone(1, q - a, m);
    } else if q < a {
      ProductMonotone(q - a, -1, m);
    }
  }

  lemma UnitReads(u: string, rest: string)
    requires UnitValue(u).Some? && (rest == "" || IsDigit(rest[0]))
    ensures UnitLength(u + rest) == |u| > 0
    ensures (u + rest)[..|u|] == u && (u + rest)[|u|..] == rest
    ensures EndsNumber(u + rest)
  {
    assert |u| <= 2;
    assert (u + rest)[1..] == u[1..] + rest;
    if |u| == 2 {
      assert (u[1..] + rest)[1..] == rest;
    } else {
      assert u[1..] + rest == rest;
    }
  }

  /** `s` is read as so many units, which bring `d` up to `sum`. */
  predicate Reads(product: Product, s: string, d: nat, sum: nat) {
    (s != "" ==> IsDigit(s[0])) && d <= LIMIT && ParseUnits(product, s, d) == Some(sum)
  }

  /** A number that is read, with a unit, in front of what is read already. */
  lemma NumberAndUnit(product: Product, s: string, v: nat, f: nat, k: nat, name: string, unit: nat, rest: string,
      d: nat, w: nat, sum: nat)
    requires s != "" && IsDigit(s[0]) && ReadNumber(s) == Some((v, f, k, name + rest))
    requires UnitValue(name) == Some(unit) && unit > 0 && v <= LIMIT / unit
    requires w == v * unit + (if f > 0 then product(f, unit, k) else 0)
    requires Reads(product, rest, d + w, sum)
    ensures Reads(product, s, d, sum)
  {
    UnitReads(name, rest);
    hide ReadNumber, UnitLength, UnitValue;
    assert Added(d, w) == d + w;
  }

  lemma UnitsPositive(name: string)
    ensures UnitValue(name).Some? ==> UnitValue(name).value > 0
  {
  }

  lemma PartIsNumber(n: nat, frac: string, tail: string)
    ensures var s := Decimal(n) + frac + tail; s != "" && IsDigit(s[0])
  {
    DecimalDenotes(n);
    hide Decimal;
    assert (Decimal(n) + frac + tail)[0] == Decimal(n)[0];
  }

  lemma WholeFits(product: Product, n: nat, unit: nat, more: nat, rest: string, d: nat, sum: nat)
    requires unit > 0 && Reads(product, rest, d + n * unit + more, sum)
    ensures n <= LIMIT / unit && n <= LIMIT && (rest == "" || IsDigit(rest[0]))
  {
    QuotientBounds(n, unit, LIMIT);
    ProductMonotone(1, unit, n);
  }

  lemma TailReads(product: Product, n: nat, u: nat, prec: nat, name: string, unit: nat, rest: string, d: nat, sum: nat)
    requires Exact(product) && UnitValue(name) == Some(unit) && prec <= 9 && (prec == 0 || unit == Pow10(prec))
    requires Reads(product, rest, d + n * unit + u % Pow10(prec), sum)
    ensures Reads(product, Decimal(n) + Frac(u, prec) + (name + rest), d, sum)
  {
    hide Reads, ReadNumber, UnitValue, Exact, Frac, Decimal, Pow10;
    UnitsPositive(name);
    WholeFits(product, n, unit, u % Pow10(prec), rest, d, sum);
    UnitReads(name, rest);
    var f, k := NumberReads(n, u, prec, name + rest);
    FractionAdds(product, f, k, prec, unit, u);
    PartIsNumber(n, Frac(u, prec), name + rest);
    NumberAndUnit(product, Decimal(n) + Frac(u, prec) + (name + rest), n, f, k, name, unit, rest, d,
      n * unit + u % Pow10(prec), sum);
  }

  /** One number with its fraction and unit in front of what is read already. */
  lemma PartReads(product: Product, n: nat, u: nat, prec: nat, name: string, unit: nat, rest: string, d: nat, sum: nat)
    requires Exact(product) && UnitValue(name) == Some(unit) && prec <= 9 && (prec == 0 || unit == Pow10(prec))
    requires Reads(product, rest, d + n * unit + u % Pow10(prec), sum)
    ensures Reads(product, Decimal(n) + Frac(u, prec) + name + rest, d, sum)
  {
    hide Reads, UnitValue, Exact, Frac, Decimal, Pow10;
    TailReads(product, n, u, prec, name, unit, rest, d, sum);
    assert Decimal(n) + Frac(u, prec) + name + rest == Decimal(n) + Frac(u, prec) + (name + rest);
  }

  // ---- the short form ----

  function SPart(sec: string): string {
    if sec == "0" then "" else sec + "s"
  }

  function MPart(m: nat, sec: string): string {
    if m == 0 && sec == "0" then "" else Decimal(m) + "m" + SPart(sec)
  }

  /** What the short form comes to. */
  function Compact(h: nat, m: nat, sec: string): string {
    if h == 0 && m == 0 then SPart(sec)
    else if h == 0 then MPart(m, sec)
    else Decimal(h) + "h" + MPart(m, sec)
  }

  lemma SuffixChars(s: string, t: string)
    ensures HasSuffix(s, t) ==> forall k | 0 <= k < |t| :: s[|s| - |t| + k] == t[k]
  {
    if HasSuffix(s, t) {
      assert forall k | 0 <= k < |t| :: s[|s| - |t|..][k] == t[k];
    }
  }

  /** A text of digits and points, and not a lone zero, before its unit. */
  lemma NoZeroPart(x: string, sec: string, b: char, c: char)
    requires sec != "" && sec != "0" && (forall i | 0 <= i < |sec| :: EndsUnit(sec[i])) && !EndsUnit(b)
    ensures !HasSuffix(x + sec + [c], [b, '0', c])
  {
    var s := x + sec + [c];
    SuffixChars(s, [b, '0', c]);
    if |sec| == 1 {
      assert s[|s| - 2] == sec[0];
      assert sec == [sec[0]];
    } else {
      assert s[|s| - 3] == sec[|sec| - 2];
    }
  }

  lemma LastDiffers(x: string, c: char, t: string)
    requires t != "" && t[|t| - 1] != c
    ensures !HasSuffix(x + [c], t)
  {
    SuffixChars(x + [c], t);
    assert (x + [c])[|x|] == c;
  }

  lemma DropSeconds(x: string)
    requires !HasSuffix(x + "m", "h0m")
    ensures DropZeros(x + "m" + "0s") == x + "m"
  {
    assert (x + "m" + "0s")[|x|..] == "m0s";
  }

  lemma DropBoth(x: string)
    ensures DropZeros(x + "h" + "0" + "m" + "0s") == x + "h"
  {
    var str := x + "h" + "0" + "m" + "0s";
    assert str[|x| + 2..] == "m0s";
    assert TrimSuffix(str, "0s") == x + "h" + "0m";
    assert (x + "h" + "0m")[|x|..] == "h0m";
  }

  lemma DecimalIsPlain(n: nat)
    ensures Decimal(n) != "" && forall i | 0 <= i < |Decimal(n)| :: EndsUnit(Decimal(n)[i])
    ensures Decimal(n) == "0" <==> n == 0
  {
    DecimalDenotes(n);
    DecimalDenotes(0);
  }

  lemma ClockWithSeconds(h: nat, m: nat, sec: string)
    requires sec != "" && sec != "0" && forall i | 0 <= i < |sec| :: EndsUnit(sec[i])
    ensures DropZeros(Clock(h, m, sec)) == Compact(h, m, sec)
  {
    var front :=
      if h == 0 && m == 0 then "" else if h == 0 then Decimal(m) + "m" else Decimal(h) + "h" + Decimal(m) + "m";
    assert Clock(h, m, sec) == front + sec + "s";
    assert Compact(h, m, sec) == front + sec + "s";
    NoZeroPart(front, sec, 'm', 's');
    LastDiffers(front + sec, 's', "h0m");
  }

  lemma MinutesWithoutSeconds(x: string, m: nat)
    requires m > 0
    ensures DropZeros(x + Decimal(m) + "m" + "0s") == x + Decimal(m) + "m"
  {
    DecimalIsPlain(m);
    NoZeroPart(x, Decimal(m), 'h', 'm');
    DropSeconds(x + Decimal(m));
  }

  lemma ClockWithoutSeconds(h: nat, m: nat)
    requires h > 0 || m > 0
    ensures DropZeros(Clock(h, m, "0")) == Compact(h, m, "0")
  {
    assert Decimal(0) == "0";
    hide DropZeros, Decimal;
    if m == 0 {
      assert Clock(h, m, "0") == Decimal(h) + "h" + "0" + "m" + "0s";
      DropBoth(Decimal(h));
    } else if h == 0 {
      assert Clock(h, m, "0") == "" + Decimal(m) + "m" + "0s";
      MinutesWithoutSeconds("", m);
    } else {
      assert Clock(h, m, "0") == Decimal(h) + "h" + Decimal(m) + "m" + "0s";
      MinutesWithoutSeconds(Decimal(h) + "h", m);
      assert Compact(h, m, "0") == Decimal(h) + "h" + Decimal(m) + "m";
    }
  }

  // ---- reading the short form ----

  /** The text of the seconds, for `nanos` beyond a whole number of them. */
  function Seconds(s: nat, nanos: nat): string {
    Decimal(s) + Frac(nanos, 9)
  }

  lemma SecondsArePlain(s: nat, nanos: nat)
    ensures var sec := Seconds(s, nanos);
      && sec != "" && (forall i | 0 <= i < |sec| :: EndsUnit(sec[i]))
      && (sec == "0" <==> s == 0 && nanos % SECOND == 0)
  {
    DecimalIsPlain(s);
    FracDenotes(nanos, 9, false);
    NinePow10();
    hide Decimal, FracDigits;
  }

  lemma SPartReads(product: Product, s: nat, nanos: nat, d: nat)
    requires Exact(product) && d + s * SECOND + nanos % SECOND <= LIMIT
    ensures Reads(product, SPart(Seconds(s, nanos)), d, d + s * SECOND + nanos % SECOND)
  {
    SecondsArePlain(s, nanos);
    NinePow10();
    assert Reads(product, "", d + s * SECOND + nanos % SECOND, d + s * SECOND + nanos % SECOND);
    hide Decimal, Frac, Reads, Exact;
    if Seconds(s, nanos) != "0" {
      PartReads(product, s, nanos, 9, "s", SECOND, "", d, d + s * SECOND + nanos % SECOND);
      assert Seconds(s, nanos) + "s" + "" == Seconds(s, nanos) + "s";
    } else {
      assert d + s * SECOND + nanos % SECOND == d;
    }
  }

  lemma WholePart(product: Product, n: nat, name: string, unit: nat, rest: string, d: nat, sum: nat)
    requires Exact(product) && UnitValue(name) == Some(unit) && Reads(product, rest, d + n * unit, sum)
    ensures Reads(product, Decimal(n) + name + rest, d, sum)
  {
    hide Reads, Exact, UnitValue, Decimal;
    NoFraction(0);
    PartReads(product, n, 0, 0, name, unit, rest, d, sum);
    assert Decimal(n) + "" + name + rest == Decimal(n) + name + rest;
  }

  lemma MPartReads(product: Product, m: nat, s: nat, nanos: nat, d: nat)
    requires Exact(product) && d + m * MINUTE + s * SECOND + nanos % SECOND <= LIMIT
    ensures Reads(product, MPart(m, Seconds(s, nanos)), d, d + m * MINUTE + s * SECOND + nanos % SECOND)
  {
    var sec, sum := Seconds(s, nanos), d + m * MINUTE + s * SECOND + nanos % SECOND;
    SecondsArePlain(s, nanos);
    SPartReads(product, s, nanos, d + m * MINUTE);
    if m > 0 || sec != "0" {
      hide Reads, SPart, Seconds, Decimal, Exact;
      WholePart(product, m, "m", MINUTE, SPart(sec), d, sum);
    }
  }

  lemma CompactReads(product: Product, h: nat, m: nat, s: nat, nanos: nat, sum: nat)
    requires Exact(product) && sum == h * HOUR + m * MINUTE + s * SECOND + nanos % SECOND && sum <= LIMIT
    ensures Reads(product, Compact(h, m, Seconds(s, nanos)), 0, sum)
  {
    hide MPart, SPart, Seconds, Decimal, Reads, Exact;
    if h > 0 {
      MPartReads(product, m, s, nanos, h * HOUR);
      WholePart(product, h, "h", HOUR, MPart(m, Seconds(s, nanos)), 0, sum);
    } else if m > 0 {
      MPartReads(product, m, s, nanos, 0);
    } else {
      SPartReads(product, s, nanos, 0);
    }
  }

  lemma TimeParts(u: nat)
    ensures var secs := u / SECOND;
      secs / 3600 * HOUR + secs / 60 % 60 * MINUTE + secs % 60 * SECOND + u % SECOND == u
  {
    var secs := u / SECOND;
    assert secs == 3600 * (secs / 3600) + 60 * (secs / 60 % 60) + secs % 60;
  }

  lemma BareZero(product: Product)
    ensures ParseUnits(product, "0", 0).None? && ParseUnits(product, "", 0) == Some(0)
  {
    assert "0"[1..] == "";
    assert LeadingInt("0", 0) == (Some(0), "");
  }

  // ---- the round trip ----

  lemma LongMagnitude(u: nat)
    requires SECOND <= u
    ensures var secs := u / SECOND;
      Magnitude(u) == Clock(secs / 3600, secs / 60 % 60, Seconds(secs % 60, u)) && secs > 0
  {
    hide Clock;
  }

  lemma ClockReads(product: Product, h: nat, m: nat, s: nat, nanos: nat, sum: nat)
    requires Exact(product) && sum == h * HOUR + m * MINUTE + s * SECOND + nanos % SECOND && SECOND <= sum <= LIMIT
    ensures Reads(product, DropZeros(Clock(h, m, Seconds(s, nanos))), 0, sum)
  {
    SecondsArePlain(s, nanos);
    hide DropZeros, Compact, Clock, Reads, Seconds, Exact;
    if Seconds(s, nanos) != "0" {
      ClockWithSeconds(h, m, Seconds(s, nanos));
    } else {
      ClockWithoutSeconds(h, m);
    }
    CompactReads(product, h, m, s, nanos, sum);
  }

  /** A magnitude of a second or more. */
  lemma LongReads(product: Product, u: nat)
    requires Exact(product) && SECOND <= u <= LIMIT
    ensures Reads(product, DropZeros(Magnitude(u)), 0, u)
  {
    hide DropZeros, Clock, Reads, Magnitude, Seconds, Exact;
    var secs := u / SECOND;
    LongMagnitude(u);
    TimeParts(u);
    ClockReads(product, secs / 3600, secs / 60 % 60, secs % 60, u, u);
  }

  lemma ShortStays(u: nat, n: nat, prec: nat, name: string)
    requires name == "ns" || name == "\U{B5}s" || name == "ms"
    ensures var text := Decimal(n) + Frac(u, prec) + name; DropZeros(text) == text
  {
    var x := Decimal(n) + Frac(u, prec) + [name[0]];
    assert name == [name[0]] + ['s'] && name[0] != '0';
    hide Decimal, Frac;
    assert Decimal(n) + Frac(u, prec) + name == x + ['s'];
    SuffixChars(x + ['s'], "m0s");
    LastDiffers(x, 's', "h0m");
  }

  /** A magnitude in one unit below the second. */
  lemma ShortReads(product: Product, u: nat, n: nat, prec: nat, name: string, unit: nat)
    requires Exact(product) && UnitValue(name) == Some(unit)
    requires prec <= 9 && (prec == 0 || unit == Pow10(prec)) && u <= LIMIT && u == n * unit + u % Pow10(prec)
    ensures Reads(product, Decimal(n) + Frac(u, prec) + name, 0, u)
  {
    assert Reads(product, "", u, u);
    hide Reads, Decimal, Frac, UnitValue, Exact, Pow10;
    PartReads(product, n, u, prec, name, unit, "", 0, u);
    assert Decimal(n) + Frac(u, prec) + name + "" == Decimal(n) + Frac(u, prec) + name;
  }

  lemma MagnitudeReads(product: Product, u: nat)
    requires Exact(product) && 0 < u <= LIMIT
    ensures Reads(product, DropZeros(Magnitude(u)), 0, u)
  {
    NinePow10();
    hide Reads, DropZeros, Frac, Decimal, Exact;
    if u >= SECOND {
      LongReads(product, u);
    } else if u >= MILLISECOND {
      ShortReads(product, u, u / MILLISECOND, 6, "ms", MILLISECOND);
      ShortStays(u, u / MILLISECOND, 6, "ms");
    } else if u >= MICROSECOND {
      ShortReads(product, u, u / MICROSECOND, 3, "\U{B5}s", MICROSECOND);
      ShortStays(u, u / MICROSECOND, 3, "\U{B5}s");
    } else {
      NoFraction(u);
      assert Decimal(u) + "" + "ns" == Decimal(u) + "ns";
      ShortReads(product, u, u, 0, "ns", 1);
      ShortStays(u, u, 0, "ns");
    }
  }

  lemma NoFraction(u: nat)
    ensures Frac(u, 0) == ""
  {
  }

  lemma SignStays(s: string)
    ensures DropZeros("-" + s) == "-" + DropZeros(s)
  {
    SignKeepsSuffix(s, "m0s");
    var t := if HasSuffix(s, "m0s") then TrimSuffix(s, "0s") else s;
    assert HasSuffix(s, "m0s") ==>
      HasSuffix(s, "0s") && TrimSuffix("-" + s, "0s") == "-" + TrimSuffix(s, "0s") by {
      SignTrims(s, "m0s", "0s");
    }
    SignKeepsSuffix(t, "h0m");
    assert HasSuffix(t, "h0m") ==>
      TrimSuffix("-" + t, "0m") == "-" + TrimSuffix(t, "0m") by {
      SignTrims(t, "h0m", "0m");
    }
  }

  lemma SignKeepsSuffix(s: string, t: string)
    requires t != "" && t[0] != '-'
    ensures HasSuffix("-" + s, t) <==> HasSuffix(s, t)
  {
    SuffixChars("-" + s, t);
    if |t| <= |s| {
      assert ("-" + s)[|s| + 1 - |t|..] == s[|s| - |t|..];
    }
  }

  lemma SignTrims(s: string, t: string, tail: string)
    requires |tail| <= |t| && t[|t| - |tail|..] == tail
    ensures HasSuffix(s, t) ==> HasSuffix(s, tail) && TrimSuffix("-" + s, tail) == "-" + TrimSuffix(s, tail)
  {
    if HasSuffix(s, t) {
      assert s[|s| - |tail|..] == s[|s| - |t|..][|t| - |tail|..];
      assert ("-" + s)[|s| + 1 - |tail|..] == s[|s| - |tail|..];
    }
  }

  lemma ReadsParse(product: Product, s: string, u: nat)
    requires 0 < u <= LIMIT && Reads(product, s, 0, u)
    ensures u <= MAX_INT64 ==> ParseDuration(product, s) == Time(u)
    ensures ParseDuration(product, "-" + s) == Time(-(u as int))
  {
    BareZero(product);
    assert s != "" && s != "0";
    hide ParseUnits;
    assert ("-" + s)[1..] == s;
  }

  /** Printing any duration in short and parsing it again gives it back. */
  lemma ShortRoundTrip(product: Product, d: Duration)
    requires Exact(product)
    ensures ParseDuration(product, ShortDur(d)) == Time(d)
  {
    if d != 0 {
      var u := if d < 0 then -(d as int) else d;
      hide ParseDuration, DropZeros, Magnitude, Reads, Exact;
      MagnitudeReads(product, u);
      SignStays(Magnitude(u));
      ReadsParse(product, DropZeros(Magnitude(u)), u);
    }
  }

  // ---- durations as one writes them ----

  /** The units, in nanoseconds. */
  const UNITS: map<string, nat> :=
    map["ns" := 1, "us" := 1_000, "\U{B5}s" := 1_000, "\U{3BC}s" := 1_000, "ms" := 1_000_000, "s" := 1_000_000_000,
      "m" := 60_000_000_000, "h" := 3_600_000_000_000]

  datatype Part = Part(n: nat, unit: string)

  function Written(parts: seq<Part>): string {
    if parts == [] then "" else Decimal(parts[0].n) + parts[0].unit + Written(parts[1..])
  }

  function Total(parts: seq<Part>): nat
    requires forall p | p in parts :: p.unit in UNITS
  {
    if parts == [] then 0 else parts[0].n * UNITS[parts[0].unit] + Total(parts[1..])
  }

  lemma UnitsAre(name: string)
    ensures UnitValue(name) == if name in UNITS then Some(UNITS[name]) else None
  {
  }

  lemma {:induction false} WrittenReads(product: Product, parts: seq<Part>, d: nat)
    requires Exact(product) && (forall p | p in parts :: p.unit in UNITS) && d + Total(parts) <= LIMIT
    ensures Reads(product, Written(parts), d, d + Total(parts))
  {
    assert Reads(product, "", d + Total(parts), d + Total(parts));
    hide Reads, Exact, UnitValue, Decimal, UNITS;
    if parts != [] {
      var p := parts[0];
      UnitsAre(p.unit);
      WrittenReads(product, parts[1..], d + p.n * UNITS[p.unit]);
      WholePart(product, p.n, p.unit, UNITS[p.unit], Written(parts[1..]), d, d + Total(parts));
    }
  }

  lemma SignedReads(product: Product, s: string, u: nat)
    requires |s| > 1 && Reads(product, s, 0, u) && u <= MAX_INT64
    ensures ParseDuration(product, s) == ParseDuration(product, "+" + s) == Time(u)
    ensures ParseDuration(product, "-" + s) == Time(-(u as int))
  {
    assert ("-" + s)[1..] == s && ("+" + s)[1..] == s;
    hide ParseUnits;
  }

  /** Whole numbers with units, one after the other and with or without a sign, are read as
      their sum. */
  lemma WrittenDurations(product: Product, parts: seq<Part>)
    requires Exact(product) && parts != [] && (forall p | p in parts :: p.unit in UNITS) && Total(parts) <= MAX_INT64
    ensures ParseDuration(product, Written(parts)) == Time(Total(parts))
    ensures ParseDuration(product, "+" + Written(parts)) == Time(Total(parts))
    ensures ParseDuration(product, "-" + Written(parts)) == Time(-(Total(parts) as int))
  {
    WrittenReads(product, parts, 0);
    UnitsAre(parts[0].unit);
    UnitsPositive(parts[0].unit);
    DecimalDenotes(parts[0].n);
    assert "" !in UNITS;
    hide Reads, Decimal, ParseDuration;
    SignedReads(product, Written(parts), Total(parts));
  }
}
