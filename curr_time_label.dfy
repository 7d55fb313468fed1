/**
 * The timeline's current-time read-out (`_refreshDeCurrTime`): a time in
 * milliseconds shown as `ms`, `sec.mmm` or `min:ss.mmm`.
 */
module CurrTimeLabel {
  import opened JsNumbers
  import Seqs

  /** Times from which the minute count no longer fits `~~`'s 32 bits. */
  const LabelBound: real := 128849018880000.0  // 2^31 minutes, in milliseconds

  /**
   * The locals of `_refreshDeCurrTime` change type as it runs: `sec` and `ms`
   * start as numbers and become padded strings, and `if (sec)` tests the
   * JavaScript truthiness of whichever they hold.
   */
  datatype JsValue = Num(n: int) | Str(s: string)

  predicate Truthy(v: JsValue) {
    match v
    case Num(n) => n != 0
    case Str(s) => s != ""
  }

  /** `'' + v`. */
  function ToText(v: JsValue): string {
    match v
    case Num(n) => Decimal(n)
    case Str(s) => s
  }

  function Zeros(k: nat): (r: string)
    ensures |r| == k
  {
    if k == 0 then "" else "0" + Zeros(k - 1)
  }

  /** `n` in decimal, left-padded with zeros to `width` characters. */
  function Pad(n: nat, width: nat): (r: string)
    ensures |r| == if |Digits(n)| < width then width else |Digits(n)|
  {
    if |Digits(n)| < width then Zeros(width - |Digits(n)|) + Digits(n) else Digits(n)
  }

  /**
   * The read-out for `w` whole milliseconds: below one second `w` itself;
   * below one minute the seconds, a dot and the milliseconds padded to three
   * digits; from one minute on the minutes, a colon, the seconds padded to two
   * digits, a dot and three-digit milliseconds.
   */
  function Label(w: nat): string {
    if w < 1000 then Digits(w)
    else if w < 60000 then Digits(w / 1000) + "." + Pad(w % 1000, 3)
    else Digits(w / 60000) + ":" + Pad(w % 60000 / 1000, 2) + "." + Pad(w % 1000, 3)
  }

  /** One minute exactly: the zero seconds are still printed, padded. */
  lemma OneMinuteLabel()
    ensures Label(60000) == "1:00.000"
  {
    assert 60000 / 60000 == 1 && 60000 % 60000 / 1000 == 0 && 60000 % 1000 == 0;
    assert Label(60000) == Digits(1) + ":" + Pad(0, 2) + "." + Pad(0, 3);
    assert Digits(1) == "1" && Digits(0) == "0";
    assert Pad(0, 2) == "00" by { assert Zeros(1) == "0"; }
    assert Pad(0, 3) == "000" by { assert Zeros(2) == "00"; }
  }

  /** Reads a read-out back into whole milliseconds. */
  function ReadLabel(s: string): nat {
    var c := Seqs.IndexOf(s, ':');
    var minutes := if c >= 0 then DigitsValue(s[..c]) else 0;
    var rest := if c >= 0 then s[c + 1..] else s;
    var d := Seqs.IndexOf(rest, '.');
    if d >= 0 then minutes * 60000 + DigitsValue(rest[..d]) * 1000 + DigitsValue(rest[d + 1..])
    else minutes * 60000 + DigitsValue(rest)
  }

  lemma {:induction false} LeadingZero(s: string)
    ensures DigitsValue("0" + s) == DigitsValue(s)
  {
    var t := "0" + s;
    if |s| > 0 {
      assert t[..|t| - 1] == "0" + s[..|s| - 1];
      assert t[|t| - 1] == s[|s| - 1];
      LeadingZero(s[..|s| - 1]);
    } else {
      assert t[..0] == "";
    }
  }

  lemma {:induction false} LeadingZeros(k: nat, s: string)
    ensures DigitsValue(Zeros(k) + s) == DigitsValue(s)
  {
    if k > 0 {
      var t := Zeros(k - 1) + s;
      assert Zeros(k) + s == "0" + t;
      LeadingZeros(k - 1, s);
      LeadingZero(t);
    } else {
      assert Zeros(k) + s == s;
    }
  }

  lemma {:induction false} ZerosHoldNoSeparator(k: nat)
    ensures ':' !in Zeros(k) && '.' !in Zeros(k)
  {
    if k > 0 { ZerosHoldNoSeparator(k - 1); }
  }

  lemma DigitsHoldNoSeparator(n: nat)
    ensures ':' !in Digits(n) && '.' !in Digits(n)
  {
    DigitsAreDigits(n);
  }

  /** A padded number reads back as the number, and holds neither separator. */
  lemma PadValue(n: nat, width: nat)
    ensures DigitsValue(Pad(n, width)) == n
    ensures ':' !in Pad(n, width) && '.' !in Pad(n, width)
  {
    var d := Digits(n);
    DigitsRoundTrip(n);
    DigitsHoldNoSeparator(n);
    if |d| < width {
      var z := Zeros(width - |d|);
      assert Pad(n, width) == z + d;
      LeadingZeros(width - |d|, d);
      ZerosHoldNoSeparator(width - |d|);
    } else {
      assert Pad(n, width) == d;
    }
  }

  /** The first `c` in `a + [c] + b`, when `a` holds none, is the one between them. */
  lemma IndexAfter(a: string, c: char, b: string)
    requires c !in a
    ensures Seqs.IndexOf(a + [c] + b, c) == |a|
    ensures (a + [c] + b)[..|a|] == a && (a + [c] + b)[|a| + 1..] == b
  {
    var s := a + [c] + b;
    assert s[|a|] == c;
    assert s[..|a|] == a;
  }

  /** Reading `b.c`: seconds and milliseconds. */
  lemma ReadDotted(b: string, c: string)
    requires ':' !in b && ':' !in c && '.' !in b
    ensures ReadLabel(b + "." + c) == DigitsValue(b) * 1000 + DigitsValue(c)
  {
    var s := b + "." + c;
    assert s == b + ['.'] + c;
    assert ':' !in s;
    IndexAfter(b, '.', c);
  }

  /** Reading `a:b.c`: minutes, seconds and milliseconds. */
  lemma ReadColonDotted(a: string, b: string, c: string)
    requires ':' !in a && '.' !in b
    ensures ReadLabel(a + ":" + b + "." + c) == DigitsValue(a) * 60000 + DigitsValue(b) * 1000 + DigitsValue(c)
  {
    var rest := b + ['.'] + c;
    var s := a + ":" + b + "." + c;
    assert s == a + [':'] + rest;
    IndexAfter(a, ':', rest);
    IndexAfter(b, '.', c);
    var k := Seqs.IndexOf(s, ':');
    assert k == |a| && s[..k] == a && s[k + 1..] == rest;
    assert Seqs.IndexOf(rest, '.') == |b| && rest[..|b|] == b && rest[|b| + 1..] == c;
  }

  lemma ReadMilliseconds(w: nat)
    ensures ReadLabel(Digits(w)) == w
  {
    DigitsRoundTrip(w);
    DigitsHoldNoSeparator(w);
    assert Seqs.IndexOf(Digits(w), ':') == -1 && Seqs.IndexOf(Digits(w), '.') == -1;
  }

  lemma ReadSeconds(sec: nat, ms: nat)
    ensures ReadLabel(Digits(sec) + "." + Pad(ms, 3)) == sec * 1000 + ms
  {
    DigitsRoundTrip(sec);
    DigitsHoldNoSeparator(sec);
    PadValue(ms, 3);
    ReadDotted(Digits(sec), Pad(ms, 3));
  }

  lemma ReadMinutes(min: nat, sec: nat, ms: nat)
    ensures ReadLabel(Digits(min) + ":" + Pad(sec, 2) + "." + Pad(ms, 3)) == min * 60000 + sec * 1000 + ms
  {
    DigitsRoundTrip(min);
    DigitsHoldNoSeparator(min);
    PadValue(sec, 2);
    PadValue(ms, 3);
    ReadColonDotted(Digits(min), Pad(sec, 2), Pad(ms, 3));
  }

  /** The read-out names the time to the millisecond: reading it back gives `w`. */
  lemma LabelRoundTrip(w: nat)
    ensures ReadLabel(Label(w)) == w
  {
    Composition(w);
    if w < 1000 {
      ReadMilliseconds(w);
    } else if w < 60000 {
      ReadSeconds(w / 1000, w % 1000);
    } else {
      ReadMinutes(w / 60000, w % 60000 / 1000, w % 1000);
    }
  }

  /** Whole milliseconds as minutes, seconds and milliseconds. */
  lemma Composition(w: nat)
    ensures w == w / 60000 * 60000 + w % 60000 / 1000 * 1000 + w % 1000
    ensures w == w / 1000 * 1000 + w % 1000
    ensures w < 60000 ==> w % 60000 / 1000 == w / 1000
    ensures w % 60000 / 1000 < 60 && w % 60000 % 1000 == w % 1000
  {
    var m, r := w / 60000, w % 60000;
    assert w == m * 60000 + r;
    assert r % 1000 == w % 1000 by {
      assert w == r + (m * 60) * 1000;
    }
  }

  lemma {:induction false} ZerosSplit(a: nat, b: nat)
    ensures Zeros(a + b) == Zeros(a) + Zeros(b)
  {
    if a > 0 {
      ZerosSplit(a - 1, b);
      assert Zeros(a + b) == "0" + Zeros(a - 1 + b);
    } else {
      assert Zeros(0) + Zeros(b) == Zeros(b);
    }
  }

  /** `('0…0' + n).substr(-width)` for a number with at most `width` digits is `Pad`. */
  lemma PadByTakeLast(n: nat, width: nat)
    requires |Digits(n)| <= width
    ensures TakeLast(Zeros(width) + Digits(n), width) == Pad(n, width)
  {
    var d := Digits(n);
    var k := width - |d|;
    var z := Zeros(k);
    ZerosSplit(|d|, k);
    var s := Zeros(width) + d;
    assert Zeros(width) == Zeros(|d|) + z;
    Seqs.AppendAssociative(Zeros(|d|), z, d);
    assert TakeLast(s, width) == s[|d|..];
    assert s[|d|..] == z + d;
    if k == 0 {
      assert z + d == d;
      assert Pad(n, width) == d;
    } else {
      assert Pad(n, width) == z + d;
    }
  }

  /** `(t / n).Floor` is the quotient of the whole part of `t`. */
  lemma FloorDiv(t: real, n: int)
    requires 0.0 <= t && 0 < n
    ensures (t / n as real).Floor == t.Floor / n
    ensures Trunc(t / n as real) == t.Floor / n
  {
    var w, nr := t.Floor, n as real;
    var q := w / n;
    var qr := q as real;
    assert q * n <= w < q * n + n;
    assert (q * n) as real == qr * nr;
    assert qr * nr <= t < qr * nr + nr;
    DivNonNegative(t, nr);
    QuotientCore(t, nr, t / nr, qr);
  }

  /** A quotient `d`, known only by its product with `nr`, lies between `qr` and `qr + 1`. */
  lemma QuotientCore(t: real, nr: real, d: real, qr: real)
    requires 0.0 < nr && d * nr == t && qr * nr <= t < qr * nr + nr
    ensures qr <= d < qr + 1.0
  {
    MulMonotone(d, qr, nr);
    MulMonotone(qr + 1.0, d, nr);
    assert (qr + 1.0) * nr == qr * nr + nr;
  }

  /** Taking `k` whole multiples of `n` off `t` takes them off its whole part. */
  lemma FloorShift(t: real, k: int)
    ensures (t - k as real).Floor == t.Floor - k
  {
  }

  /** The remainder by a whole `n` keeps the remainder of the whole part. */
  lemma RemFloor(t: real, n: int)
    requires 0.0 <= t && 0 < n
    ensures 0.0 <= JsRem(t, n as real)
    ensures JsRem(t, n as real).Floor == t.Floor % n
  {
    var w, nr := t.Floor, n as real;
    FloorDiv(t, n);
    var q := w / n;
    assert JsRem(t, nr) == t - (q as real) * nr;
    assert (q as real) * nr == (q * n) as real;
    FloorShift(t, q * n);
    assert w % n == w - q * n;
  }

  /** The minutes, seconds and milliseconds `_refreshDeCurrTime` extracts. */
  lemma ReadOutFields(t: real)
    requires 0.0 <= t < LabelBound
    ensures ToInt32(t / 60000.0) == t.Floor / 60000
    ensures ToInt32(JsRem(t, 60000.0) / 1000.0) == t.Floor % 60000 / 1000
    ensures ToInt32(JsRem(JsRem(t, 60000.0), 1000.0)) == t.Floor % 1000
  {
    var w := t.Floor;
    assert w < TwoTo31 * 60000;
    Composition(w);
    FloorDiv(t, 60000);
    RemFloor(t, 60000);
    var t1 := JsRem(t, 60000.0);
    FloorDiv(t1, 1000);
    RemFloor(t1, 1000);
  }

  /** From one minute on, the read-out in the source's own terms. */
  lemma LabelMinutes(w: nat)
    requires 60000 <= w
    ensures Label(w) == Decimal(w / 60000) + ":" + TakeLast("00" + Decimal(w % 60000 / 1000), 2)
      + "." + TakeLast("000" + Decimal(w % 1000), 3)
  {
    DigitsLength(w % 60000 / 1000);
    DigitsLength(w % 1000);
    PadByTakeLast(w % 60000 / 1000, 2);
    PadByTakeLast(w % 1000, 3);
    assert Zeros(2) == "00" && Zeros(3) == "000";
  }

  /** Below one minute and from one second on, the read-out in the source's own terms. */
  lemma LabelSeconds(w: nat)
    requires 1000 <= w < 60000
    ensures Label(w) == Decimal(w % 60000 / 1000) + "." + TakeLast("000" + Decimal(w % 1000), 3)
  {
    Composition(w);
    DigitsLength(w % 1000);
    PadByTakeLast(w % 1000, 3);
    assert Zeros(3) == "000";
  }

  /**
   * The read-out assembled from minutes `m`, seconds `s` and milliseconds `u`
   * as `_refreshDeCurrTime` assembles it: the minutes appear when they are not
   * zero, the seconds when they or the minutes are not zero, and each field
   * after the first is padded by taking the last digits of a zero-prefixed
   * string.
   */
  function FieldsText(m: int, s: int, u: int): string {
    if m != 0 then Decimal(m) + ":" + TakeLast("00" + Decimal(s), 2) + "." + TakeLast("000" + Decimal(u), 3)
    else if s != 0 then Decimal(s) + "." + TakeLast("000" + Decimal(u), 3)
    else Decimal(u)
  }

  /** Assembling the fields of `w` gives the read-out of `w`. */
  lemma LabelByFields(w: nat, m: int, s: int, u: int)
    requires m == w / 60000 && s == w % 60000 / 1000 && u == w % 1000
    ensures FieldsText(m, s, u) == Label(w)
  {
    Composition(w);
    if 60000 <= w {
      LabelMinutes(w);
    } else if 1000 <= w {
      LabelSeconds(w);
    }
  }

  /**
   * `_refreshDeCurrTime`, which writes the result into the read-out element:
   * the steps of the source, on exact numbers.
   */
  method RefreshDeCurrTime(currTime: real) returns (text: string)
    ensures 0.0 <= currTime < LabelBound ==> text == Label(currTime.Floor)
  {
    var time := currTime;
    var min := ToInt32(time / 60000.0);
    time := JsRem(time, 60000.0);
    var sec := Num(ToInt32(time / 1000.0));
    time := JsRem(time, 1000.0);
    var ms := Num(ToInt32(time));
    var str := "";
    ghost var s, u := sec.n, ms.n;

    if min != 0 {
      str := str + Decimal(min) + ":";
      sec := Str(TakeLast("00" + ToText(sec), 2));
    }
    if Truthy(sec) {
      str := str + ToText(sec) + ".";
      ms := Str(TakeLast("000" + ToText(ms), 3));
    }
    str := str + ToText(ms);
    text := str;

    assert "" + Decimal(min) == Decimal(min) && "" + ToText(sec) == ToText(sec) && "" + ToText(ms) == ToText(ms);
    assert text == FieldsText(min, s, u);
    if 0.0 <= currTime < LabelBound {
      ReadOutFields(currTime);
      LabelByFields(currTime.Floor, min, s, u);
    }
  }
}
