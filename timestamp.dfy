/** The storage name of a submission: its capture time in Go's layout
    "20060102_150405.000" followed by ".json" (main.go:71). */
module Timestamp {
  import opened Text

  /** A wall-clock reading as Go's time.Time reports it in the local zone. */
  datatype Clock = Clock(year: nat, month: nat, day: nat,
                         hour: nat, minute: nat, second: nat, nanosecond: nat)

  /** The ranges Go's calendar fields take. */
  predicate WellFormed(t: Clock) {
    && 1 <= t.month <= 12 && 1 <= t.day <= 31
    && t.hour < 24 && t.minute < 60 && t.second < 60
    && t.nanosecond < 1_000_000_000
  }

  /** Years of at most four digits, where the layout really is fixed width. */
  predicate FourDigitYear(t: Clock) {
    t.year < 10000
  }

  /** The ".000" element prints the first three digits of the nanoseconds:
      it truncates to the millisecond, it does not round. */
  function Millisecond(t: Clock): nat {
    t.nanosecond / 1_000_000
  }

  /** Two readings that the layout cannot tell apart. */
  predicate SameMillisecond(a: Clock, b: Clock) {
    && a.year == b.year && a.month == b.month && a.day == b.day
    && a.hour == b.hour && a.minute == b.minute && a.second == b.second
    && Millisecond(a) == Millisecond(b)
  }

  /** Chronological order of wall-clock readings, at millisecond resolution. */
  predicate Before(a: Clock, b: Clock) {
    || a.year < b.year
    || (a.year == b.year && (a.month < b.month
    || (a.month == b.month && (a.day < b.day
    || (a.day == b.day && (a.hour < b.hour
    || (a.hour == b.hour && (a.minute < b.minute
    || (a.minute == b.minute && (a.second < b.second
    || (a.second == b.second && Millisecond(a) < Millisecond(b))))))))))))
  }

  function Pow10(k: nat): (p: nat)
    ensures p >= 1
  {
    if k == 0 then 1 else 10 * Pow10(k - 1)
  }

  predicate IsDigit(c: char) {
    '0' as int <= c as int <= '9' as int
  }

  function Digit(d: nat): (c: char)
    requires d < 10
    ensures IsDigit(c) && DigitValue(c) == d
  {
    ('0' as int + d) as char
  }

  /** The decimal digits of `n`, zero-padded on the left to at least `width`
      characters; a number too wide for `width` is printed in full. This is
      how Go's layout elements "2006", "01", "02", "15", "04", "05" and the
      three fraction digits print their field. */
  function Pad(n: nat, width: nat): (s: string)
    ensures |s| >= 1 && |s| >= width
    ensures forall i :: 0 <= i < |s| ==> IsDigit(s[i])
    decreases n + width
  {
    if n < 10 && width <= 1 then [Digit(n)]
    else Pad(n / 10, if width == 0 then 0 else width - 1) + [Digit(n % 10)]
  }

  /** Reads a string of decimal digits back as a number. */
  function DecimalValue(s: string): nat
    requires forall i :: 0 <= i < |s| ==> IsDigit(s[i])
  {
    if s == [] then 0
    else 10 * DecimalValue(s[..|s| - 1]) + DigitValue(s[|s| - 1])
  }

  function DigitValue(c: char): (d: nat)
    requires IsDigit(c)
    ensures d < 10
  {
    c as int - '0' as int
  }

  /** Padding loses nothing: the digits read back as the number. */
  lemma {:induction false} PadRoundTrip(n: nat, width: nat)
    ensures DecimalValue(Pad(n, width)) == n
    decreases n + width
  {
    if !(n < 10 && width <= 1) {
      var w := if width == 0 then 0 else width - 1;
      var p := Pad(n / 10, w);
      assert (p + [Digit(n % 10)])[..|p|] == p;
      PadRoundTrip(n / 10, w);
    }
  }

  /** A number that fits its width is printed in exactly that many characters. */
  lemma {:induction false} PadLength(n: nat, width: nat)
    requires 1 <= width && n < Pow10(width)
    ensures |Pad(n, width)| == width
  {
    if width > 1 {
      PadDivides(n, width);
      PadLength(n / 10, width - 1);
    }
  }

  lemma PadDivides(n: nat, width: nat)
    requires 1 <= width && n < Pow10(width)
    ensures width > 1 ==> n / 10 < Pow10(width - 1)
    ensures width == 1 ==> n < 10
  {
  }

  lemma DivModOrder(n: nat, m: nat)
    ensures n < m <==> n / 10 < m / 10 || (n / 10 == m / 10 && n % 10 < m % 10)
    ensures n == m <==> n / 10 == m / 10 && n % 10 == m % 10
  {
  }

  /** Zero-padded numbers of one width sort as strings the way they sort as
      numbers, and print alike only when they are equal. */
  lemma {:induction false} PadOrder(n: nat, m: nat, width: nat)
    requires 1 <= width && n < Pow10(width) && m < Pow10(width)
    ensures LexLess(Pad(n, width), Pad(m, width)) <==> n < m
    ensures Pad(n, width) == Pad(m, width) <==> n == m
  {
    if width == 1 {
      assert Pad(n, 1) == [Digit(n)] && Pad(m, 1) == [Digit(m)];
      assert [Digit(n)][1..] == [] && [Digit(m)][1..] == [];
    } else {
      PadDivides(n, width);
      PadDivides(m, width);
      PadOrder(n / 10, m / 10, width - 1);
      PadLength(n / 10, width - 1);
      PadLength(m / 10, width - 1);
      var dn, dm := [Digit(n % 10)], [Digit(m % 10)];
      assert dn[1..] == [] && dm[1..] == [];
      LexLessConcat(Pad(n / 10, width - 1), Pad(m / 10, width - 1), dn, dm);
      DivModOrder(n, m);
    }
  }

  /** The storage name: capture time as "YYYYMMDD_HHMMSS.mmm", then ".json". */
  function Filename(t: Clock): (name: string)
    ensures HasSuffix(name, ".json")
  {
    Pad(t.year, 4) + (Pad(t.month, 2) + (Pad(t.day, 2) + ("_" +
    (Pad(t.hour, 2) + (Pad(t.minute, 2) + (Pad(t.second, 2) + ("." +
    (Pad(Millisecond(t), 3) + ".json"))))))))
  }

  /** Readings in the same millisecond get the same name, so the second
      submission's file replaces the first one's. */
  lemma SameMillisecondSameName(a: Clock, b: Clock)
    requires SameMillisecond(a, b)
    ensures Filename(a) == Filename(b)
  {
  }

  /** For four-digit years the name has a fixed width. */
  lemma FilenameLength(t: Clock)
    requires WellFormed(t) && FourDigitYear(t)
    ensures |Filename(t)| == 24
  {
    PadLength(t.year, 4);
    PadLength(t.month, 2);
    PadLength(t.day, 2);
    PadLength(t.hour, 2);
    PadLength(t.minute, 2);
    PadLength(t.second, 2);
    PadLength(Millisecond(t), 3);
  }

  /** One step of the comparison of two names: a field of equal `width`
      followed by the rest of the name. */
  lemma FieldStep(x: nat, y: nat, width: nat, c: string, d: string)
    requires 1 <= width && x < Pow10(width) && y < Pow10(width)
    ensures LexLess(Pad(x, width) + c, Pad(y, width) + d) <==> x < y || (x == y && LexLess(c, d))
    ensures Pad(x, width) + c == Pad(y, width) + d <==> x == y && c == d
  {
    PadLength(x, width);
    PadLength(y, width);
    PadOrder(x, y, width);
    LexLessConcat(Pad(x, width), Pad(y, width), c, d);
  }

  lemma LiteralStep(lit: string, c: string, d: string)
    ensures LexLess(lit + c, lit + d) <==> LexLess(c, d)
    ensures lit + c == lit + d <==> c == d
  {
    LexLessIrreflexive(lit);
    LexLessConcat(lit, lit, c, d);
  }

  /** Names sort lexically exactly as their capture times sort
      chronologically, and two names agree exactly when the capture times
      fall in the same millisecond. */
  lemma FilenameOrder(a: Clock, b: Clock)
    requires WellFormed(a) && WellFormed(b) && FourDigitYear(a) && FourDigitYear(b)
    ensures LexLess(Filename(a), Filename(b)) <==> Before(a, b)
    ensures Filename(a) == Filename(b) <==> SameMillisecond(a, b)
  {
    var ja, jb := ".json", ".json";
    var ma, mb := Pad(Millisecond(a), 3) + ja, Pad(Millisecond(b), 3) + jb;
    FieldStep(Millisecond(a), Millisecond(b), 3, ja, jb);
    LexLessIrreflexive(ja);
    var da, db := "." + ma, "." + mb;
    LiteralStep(".", ma, mb);
    var sa, sb := Pad(a.second, 2) + da, Pad(b.second, 2) + db;
    FieldStep(a.second, b.second, 2, da, db);
    var na, nb := Pad(a.minute, 2) + sa, Pad(b.minute, 2) + sb;
    FieldStep(a.minute, b.minute, 2, sa, sb);
    var ha, hb := Pad(a.hour, 2) + na, Pad(b.hour, 2) + nb;
    FieldStep(a.hour, b.hour, 2, na, nb);
    var ua, ub := "_" + ha, "_" + hb;
    LiteralStep("_", ha, hb);
    var ya, yb := Pad(a.day, 2) + ua, Pad(b.day, 2) + ub;
    FieldStep(a.day, b.day, 2, ua, ub);
    var oa, ob := Pad(a.month, 2) + ya, Pad(b.month, 2) + yb;
    FieldStep(a.month, b.month, 2, ya, yb);
    FieldStep(a.year, b.year, 4, oa, ob);
  }

  /** A directory listing sorted by name, as Go's ioutil.ReadDir returns it,
      lists submissions in the order they were captured. */
  lemma {:induction false} SortedNamesAreChronological(names: seq<string>, times: seq<Clock>)
    requires |names| == |times|
    requires forall i :: 0 <= i < |times| ==> WellFormed(times[i]) && FourDigitYear(times[i])
    requires forall i :: 0 <= i < |names| ==> names[i] == Filename(times[i])
    requires forall i :: 0 <= i < |names| - 1 ==> LexLess(names[i], names[i + 1])
    ensures forall i :: 0 <= i < |times| - 1 ==> Before(times[i], times[i + 1])
  {
    forall i | 0 <= i < |times| - 1 ensures Before(times[i], times[i + 1]) {
      FilenameOrder(times[i], times[i + 1]);
    }
  }
}
