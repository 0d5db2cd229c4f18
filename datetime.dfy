/** Python's naive `datetime`: the timestamps of an instance record and of a backup.
    `isoformat`/`fromisoformat` carry them through JSON, `strftime("%Y%m%d_%H%M%S")`
    names a backup, and the comparison operators order backups by age. */
module DateTimes {
  import opened Wrappers
  import opened Strings

  datatype Moment = Moment(year: int, month: int, day: int, hour: int, minute: int, second: int, micro: int)

  predicate IsLeap(y: int) {
    y % 4 == 0 && (y % 100 != 0 || y % 400 == 0)
  }

  function DaysInMonth(y: int, m: int): int {
    if m == 2 then (if IsLeap(y) then 29 else 28)
    else if m == 4 || m == 6 || m == 9 || m == 11 then 30
    else 31
  }

  /** The range checks the `datetime` constructor performs. */
  predicate ValidMoment(t: Moment) {
    && 1 <= t.year <= 9999
    && 1 <= t.month <= 12
    && 1 <= t.day <= DaysInMonth(t.year, t.month)
    && 0 <= t.hour < 24
    && 0 <= t.minute < 60
    && 0 <= t.second < 60
    && 0 <= t.micro < 1000000
  }

  /** A `datetime` object: only valid field combinations exist. */
  type DateTime = t: Moment | ValidMoment(t) witness Moment(1, 1, 1, 0, 0, 0, 0)

  /** The `w`-digit zero-padded decimal text of `n`. */
  function Pad(n: nat, w: nat): (r: string)
    ensures |r| == w
    ensures forall i :: 0 <= i < |r| ==> IsDigit(r[i])
  {
    if w == 0 then "" else Pad(n / 10, w - 1) + [DigitChar(n % 10)]
  }

  function Pow10(w: nat): nat {
    if w == 0 then 1 else 10 * Pow10(w - 1)
  }

  lemma {:induction false} PadValue(n: nat, w: nat)
    requires n < Pow10(w)
    ensures DigitsValue(Pad(n, w)) == n
  {
    if w > 0 {
      PadValue(n / 10, w - 1);
      var p := Pad(n, w);
      assert p[..|p| - 1] == Pad(n / 10, w - 1);
    }
  }

  /** `YYYY-MM-DD` */
  function DatePart(t: DateTime): (r: string)
    ensures |r| == 10
  {
    Pad(t.year, 4) + "-" + Pad(t.month, 2) + "-" + Pad(t.day, 2)
  }

  /** `HH:MM:SS` */
  function TimePart(t: DateTime): (r: string)
    ensures |r| == 8
  {
    Pad(t.hour, 2) + ":" + Pad(t.minute, 2) + ":" + Pad(t.second, 2)
  }

  /** `t.isoformat()`: the fraction is printed only when it is not zero. */
  function IsoFormat(t: DateTime): (r: string)
    ensures |r| == (if t.micro == 0 then 19 else 26)
  {
    DatePart(t) + "T" + TimePart(t) + (if t.micro == 0 then "" else "." + Pad(t.micro, 6))
  }

  predicate AllDigits(s: string) {
    forall i :: 0 <= i < |s| ==> IsDigit(s[i])
  }

  /** The number `s` writes, when it is made of digits only. */
  function Field(s: string): Option<int> {
    if AllDigits(s) then Some(DigitsValue(s) as int) else None
  }

  /** Three numbers separated by `sep`, of widths `w`, 2 and 2. */
  function Triple(s: string, w: nat, sep: char): Option<(int, int, int)>
    requires |s| == w + 6
  {
    if s[w] != sep || s[w + 3] != sep then None
    else
      var a, b, c := Field(s[..w]), Field(s[w + 1..w + 3]), Field(s[w + 4..]);
      if a.None? || b.None? || c.None? then None else Some((a.value, b.value, c.value))
  }

  /** `datetime.fromisoformat(s)` for the forms `YYYY-MM-DD`, `YYYY-MM-DD?HH:MM:SS` and
      `YYYY-MM-DD?HH:MM:SS.ffffff` (any one character between date and time); the other
      forms Python also reads are a ValueError here. */
  function FromIsoFormat(s: string): (r: Result<DateTime>)
    ensures r.Err? ==> r.error.ValueError?
    ensures r.Ok? ==> |s| == 10 || |s| == 19 || |s| == 26
  {
    var bad := Err(ValueError("Invalid isoformat string: '" + s + "'"));
    if !(|s| == 10 || |s| == 19 || |s| == 26) then bad
    else
      var date := Triple(s[..10], 4, '-');
      var time := if |s| == 10 then Some((0, 0, 0)) else Triple(s[11..19], 2, ':');
      var us := if |s| < 26 then Some(0) else if s[19] == '.' then Field(s[20..]) else None;
      if date.None? || time.None? || us.None? then bad
      else
        var m := Moment(date.value.0, date.value.1, date.value.2,
                        time.value.0, time.value.1, time.value.2, us.value);
        if ValidMoment(m) then Ok(m) else bad
  }

  lemma FieldOfPad(n: nat, w: nat)
    requires n < Pow10(w)
    ensures Field(Pad(n, w)) == Some(n)
  {
    PadValue(n, w);
  }

  lemma TripleOfPads(a: nat, b: nat, c: nat, w: nat, sep: char)
    requires a < Pow10(w) && b < 100 && c < 100
    ensures Triple(Pad(a, w) + [sep] + Pad(b, 2) + [sep] + Pad(c, 2), w, sep) == Some((a, b, c))
  {
    var s := Pad(a, w) + [sep] + Pad(b, 2) + [sep] + Pad(c, 2);
    assert s[..w] == Pad(a, w);
    assert s[w + 1..w + 3] == Pad(b, 2);
    assert s[w + 4..] == Pad(c, 2);
    assert Pow10(2) == 100;
    FieldOfPad(a, w);
    FieldOfPad(b, 2);
    FieldOfPad(c, 2);
  }

  /** `fromisoformat(isoformat(t)) == t`: the instance record's timestamps survive JSON. */
  lemma IsoFormatRoundTrip(t: DateTime)
    ensures FromIsoFormat(IsoFormat(t)) == Ok(t)
  {
    var s := IsoFormat(t);
    IsoSlices(t);
    assert Pow10(4) == 10000;
    TripleOfPads(t.year, t.month, t.day, 4, '-');
    TripleOfPads(t.hour, t.minute, t.second, 2, ':');
    if t.micro != 0 {
      assert Pow10(6) == 1000000;
      FieldOfPad(t.micro, 6);
    }
  }

  /** Where the parts of `isoformat` sit in its text. */
  lemma IsoSlices(t: DateTime)
    ensures var s := IsoFormat(t);
      && s[..10] == Pad(t.year, 4) + ['-'] + Pad(t.month, 2) + ['-'] + Pad(t.day, 2)
      && s[11..19] == Pad(t.hour, 2) + [':'] + Pad(t.minute, 2) + [':'] + Pad(t.second, 2)
      && (t.micro != 0 ==> s[19] == '.' && s[20..] == Pad(t.micro, 6))
  {
    var s := IsoFormat(t);
    assert s[..10] == DatePart(t);
    assert s[11..19] == TimePart(t);
  }

  /** `t.strftime("%Y%m%d_%H%M%S")`, the stamp in a backup's file name. */
  function BackupStamp(t: DateTime): (r: string)
    ensures |r| == 15 && r[8] == '_'
    ensures forall i :: 0 <= i < 15 && i != 8 ==> IsDigit(r[i])
  {
    Pad(t.year, 4) + Pad(t.month, 2) + Pad(t.day, 2) + "_"
    + Pad(t.hour, 2) + Pad(t.minute, 2) + Pad(t.second, 2)
  }

  /** Field `k` of `t`, most significant first: year, month, day, hour, minute, second,
      microsecond. */
  function FieldAt(t: DateTime, k: nat): (r: int)
    requires k <= 6
    ensures 0 < k ==> 0 <= r < RadixAt(k)
  {
    match k
    case 0 => t.year
    case 1 => t.month
    case 2 => t.day
    case 3 => t.hour
    case 4 => t.minute
    case 5 => t.second
    case _ => t.micro
  }

  /** A bound on field `k`, the base of its digit in the ordinal. */
  function RadixAt(k: nat): int
    requires 0 < k <= 6
  {
    match k
    case 1 => 13
    case 2 => 32
    case 3 => 24
    case 4 => 60
    case 5 => 60
    case _ => 1000000
  }

  /** Fields `0..k` of `t` as one number in mixed radix. */
  function Level(t: DateTime, k: nat): int
    requires k <= 6
  {
    if k == 0 then t.year else Level(t, k - 1) * RadixAt(k) + FieldAt(t, k)
  }

  /** The position of `t` on the time line, in microseconds from an arbitrary origin. */
  function Ordinal(t: DateTime): int {
    Level(t, 6)
  }

  /** Python's `a < b` on datetimes: field by field, most significant first. */
  predicate Before(a: DateTime, b: DateTime) {
    if a.year != b.year then a.year < b.year
    else if a.month != b.month then a.month < b.month
    else if a.day != b.day then a.day < b.day
    else if a.hour != b.hour then a.hour < b.hour
    else if a.minute != b.minute then a.minute < b.minute
    else if a.second != b.second then a.second < b.second
    else a.micro < b.micro
  }

  /** Fields `0..k` of `a` come first in dictionary order. */
  predicate BeforeAt(a: DateTime, b: DateTime, k: nat)
    requires k <= 6
  {
    if k == 0 then a.year < b.year
    else BeforeAt(a, b, k - 1) || (SameAt(a, b, k - 1) && FieldAt(a, k) < FieldAt(b, k))
  }

  /** Fields `0..k` of `a` and `b` agree. */
  predicate SameAt(a: DateTime, b: DateTime, k: nat)
    requires k <= 6
  {
    if k == 0 then a.year == b.year else SameAt(a, b, k - 1) && FieldAt(a, k) == FieldAt(b, k)
  }

  lemma {:induction false} LevelOrder(a: DateTime, b: DateTime, k: nat)
    requires k <= 6
    ensures BeforeAt(a, b, k) <==> Level(a, k) < Level(b, k)
    ensures SameAt(a, b, k) <==> Level(a, k) == Level(b, k)
  {
    if k > 0 {
      LevelOrder(a, b, k - 1);
      MixedRadix(Level(a, k - 1), FieldAt(a, k), Level(b, k - 1), FieldAt(b, k), RadixAt(k));
    }
  }

  /** The ordinal orders datetimes exactly as Python's comparison does. */
  lemma OrdinalOrder(a: DateTime, b: DateTime)
    ensures Before(a, b) <==> Ordinal(a) < Ordinal(b)
    ensures a == b <==> Ordinal(a) == Ordinal(b)
  {
    LevelOrder(a, b, 6);
    assert Before(a, b) <==> BeforeAt(a, b, 6) by {
      assert BeforeAt(a, b, 6) == (BeforeAt(a, b, 5) || (SameAt(a, b, 5) && a.micro < b.micro));
      assert BeforeAt(a, b, 5) == (BeforeAt(a, b, 4) || (SameAt(a, b, 4) && a.second < b.second));
      assert BeforeAt(a, b, 4) == (BeforeAt(a, b, 3) || (SameAt(a, b, 3) && a.minute < b.minute));
      assert BeforeAt(a, b, 3) == (BeforeAt(a, b, 2) || (SameAt(a, b, 2) && a.hour < b.hour));
      assert BeforeAt(a, b, 2) == (BeforeAt(a, b, 1) || (SameAt(a, b, 1) && a.day < b.day));
      assert BeforeAt(a, b, 1) == (a.year < b.year || (a.year == b.year && a.month < b.month));
      assert SameAt(a, b, 5) == (SameAt(a, b, 4) && a.second == b.second);
      assert SameAt(a, b, 4) == (SameAt(a, b, 3) && a.minute == b.minute);
      assert SameAt(a, b, 3) == (SameAt(a, b, 2) && a.hour == b.hour);
      assert SameAt(a, b, 2) == (SameAt(a, b, 1) && a.day == b.day);
      assert SameAt(a, b, 1) == (a.year == b.year && a.month == b.month);
    }
    assert a == b <==> SameAt(a, b, 6) by {
      assert SameAt(a, b, 6) == (SameAt(a, b, 5) && a.micro == b.micro);
      assert SameAt(a, b, 5) == (SameAt(a, b, 4) && a.second == b.second);
      assert SameAt(a, b, 4) == (SameAt(a, b, 3) && a.minute == b.minute);
      assert SameAt(a, b, 3) == (SameAt(a, b, 2) && a.hour == b.hour);
      assert SameAt(a, b, 2) == (SameAt(a, b, 1) && a.day == b.day);
      assert SameAt(a, b, 1) == (a.year == b.year && a.month == b.month);
    }
  }

  /** Comparing `hi * base + lo` compares `hi` first, then `lo`, when `lo` is a digit of `base`. */
  lemma MixedRadix(hiA: int, loA: int, hiB: int, loB: int, base: int)
    requires 0 <= loA < base && 0 <= loB < base
    ensures hiA * base + loA < hiB * base + loB <==> hiA < hiB || (hiA == hiB && loA < loB)
    ensures hiA * base + loA == hiB * base + loB <==> hiA == hiB && loA == loB
  {
    if hiA < hiB {
      MulStep(hiA, hiB, base);
    } else if hiA > hiB {
      MulStep(hiB, hiA, base);
    }
  }

  lemma MulStep(x: int, y: int, base: int)
    requires x < y && base > 0
    ensures x * base + base <= y * base
  {
    assert (y - x - 1) * base >= 0;
    assert (y - x - 1) * base == y * base - x * base - base;
  }
}
