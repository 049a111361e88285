/** .NET's "s" (sortable) `DateTime` format, `yyyy-MM-ddTHH:mm:ss`, and the
    ordinal string order under which its outputs sort chronologically. */
module SortableTime {
  import opened Models

  /** Ordinal string order: the first differing character decides, and a
      proper prefix comes first. */
  function LexLess(s: string, t: string): (less: bool)
    ensures less ==> s != t
    ensures less && |s| == |t| ==> exists k :: 0 <= k < |s| && s[..k] == t[..k] && s[k] < t[k]
  {
    if s == [] then t != []
    else
      var r := t != [] && (s[0] < t[0] || (s[0] == t[0] && LexLess(s[1..], t[1..])));
      assert r && |s| == |t| && s[0] == t[0] && !(s[0] < t[0]) ==>
        exists k :: 0 <= k < |s| && s[..k] == t[..k] && s[k] < t[k] by {
        if r && |s| == |t| && s[0] == t[0] && !(s[0] < t[0]) {
          var k :| 0 <= k < |s| - 1 && s[1..][..k] == t[1..][..k] && s[1..][k] < t[1..][k];
          assert s[..k + 1] == [s[0]] + s[1..][..k] && t[..k + 1] == [t[0]] + t[1..][..k];
        }
      }
      assert r && |s| == |t| && s[0] < t[0] ==> s[..0] == t[..0];
      r
  }

  function Pow10(n: nat): (r: nat)
    ensures r >= 1
  {
    if n == 0 then 1 else 10 * Pow10(n - 1)
  }

  function DigitChar(d: int): (c: char)
    requires 0 <= d < 10
    ensures '0' <= c <= '9'
  {
    ('0' as int + d) as char
  }

  /** `x` written in decimal with exactly `width` digits, zero-padded on the
      left (the "yyyy", "MM", "dd", "HH", "mm" and "ss" specifiers). */
  function Digits(x: nat, width: nat): (s: string)
    ensures |s| == width
    ensures AllDigits(s)
  {
    if width == 0 then [] else Digits(x / 10, width - 1) + [DigitChar(x % 10)]
  }

  predicate AllDigits(s: string) {
    forall i :: 0 <= i < |s| ==> '0' <= s[i] <= '9'
  }

  /** The number a string of decimal digits denotes, read most significant
      digit first. */
  function DecimalValue(s: string): nat
    requires AllDigits(s)
  {
    if s == [] then 0
    else DecimalValue(s[..|s| - 1]) * 10 + (s[|s| - 1] as int - '0' as int)
  }

  /** Reading back a zero-padded field gives the number that was written. */
  lemma {:induction false} DigitsRoundTrip(x: nat, width: nat)
    requires x < Pow10(width)
    ensures DecimalValue(Digits(x, width)) == x
  {
    if width > 0 {
      var prefix := Digits(x / 10, width - 1);
      var whole := Digits(x, width);
      assert whole[..width - 1] == prefix && whole[width - 1] == DigitChar(x % 10);
      DigitsRoundTrip(x / 10, width - 1);
    }
  }

  /** `s` is `t` written as `yyyy-MM-ddTHH:mm:ss`: each field is a run of
      decimal digits denoting the matching calendar field of `t`, with the
      separators in between. */
  predicate SortableLayout(s: string, t: DateTime) {
    && |s| == 19
    && AllDigits(s[0..4]) && DecimalValue(s[0..4]) == t.year && s[4] == '-'
    && AllDigits(s[5..7]) && DecimalValue(s[5..7]) == t.month && s[7] == '-'
    && AllDigits(s[8..10]) && DecimalValue(s[8..10]) == t.day && s[10] == 'T'
    && AllDigits(s[11..13]) && DecimalValue(s[11..13]) == t.hour && s[13] == ':'
    && AllDigits(s[14..16]) && DecimalValue(s[14..16]) == t.minute && s[16] == ':'
    && AllDigits(s[17..19]) && DecimalValue(s[17..19]) == t.second
  }

  /** The "s" format of a `DateTime`; the sub-second part is dropped. */
  function SortableFormat(t: DateTime): (s: string)
    requires t.Valid()
    ensures SortableLayout(s, t)
  {
    var yyyy, mo, dd := Digits(t.year, 4), Digits(t.month, 2), Digits(t.day, 2);
    var hh, mi, ss := Digits(t.hour, 2), Digits(t.minute, 2), Digits(t.second, 2);
    assert Pow10(2) == 100 && Pow10(4) == 10000;
    DigitsRoundTrip(t.year, 4);
    DigitsRoundTrip(t.month, 2);
    DigitsRoundTrip(t.day, 2);
    DigitsRoundTrip(t.hour, 2);
    DigitsRoundTrip(t.minute, 2);
    DigitsRoundTrip(t.second, 2);
    FieldsOfLayout(yyyy, mo, dd, hh, mi, ss);
    yyyy + "-" + mo + "-" + dd + "T" + hh + ":" + mi + ":" + ss
  }

  /** Where each field and separator sits in the joined format. */
  lemma FieldsOfLayout(yyyy: string, mo: string, dd: string, hh: string, mi: string, ss: string)
    requires |yyyy| == 4 && |mo| == 2 && |dd| == 2 && |hh| == 2 && |mi| == 2 && |ss| == 2
    ensures var s := yyyy + "-" + mo + "-" + dd + "T" + hh + ":" + mi + ":" + ss;
      && |s| == 19
      && s[0..4] == yyyy && s[5..7] == mo && s[8..10] == dd
      && s[11..13] == hh && s[14..16] == mi && s[17..19] == ss
      && s[4] == '-' && s[7] == '-' && s[10] == 'T' && s[13] == ':' && s[16] == ':'
  {
  }

  /** `a` and `b` fall in the same second. */
  predicate SameSecond(a: DateTime, b: DateTime) {
    a.year == b.year && a.month == b.month && a.day == b.day
    && a.hour == b.hour && a.minute == b.minute && a.second == b.second
  }

  /** The second of `a` precedes the second of `b` (calendar fields compared
      from the most significant down, which is chronological order for valid
      dates). */
  predicate EarlierSecond(a: DateTime, b: DateTime) {
    || a.year < b.year
    || (a.year == b.year && a.month < b.month)
    || (a.year == b.year && a.month == b.month && a.day < b.day)
    || (a.year == b.year && a.month == b.month && a.day == b.day && a.hour < b.hour)
    || (a.year == b.year && a.month == b.month && a.day == b.day && a.hour == b.hour
        && a.minute < b.minute)
    || (a.year == b.year && a.month == b.month && a.day == b.day && a.hour == b.hour
        && a.minute == b.minute && a.second < b.second)
  }

  /** Comparing two strings that start with equally long parts compares those
      parts first and the rests only when the parts agree. */
  lemma {:induction false} LexLessAppend(p: string, q: string, x: string, y: string)
    requires |p| == |q|
    ensures LexLess(p + x, q + y) <==> LexLess(p, q) || (p == q && LexLess(x, y))
  {
    if p == [] {
      assert p + x == x && q + y == y;
    } else {
      assert (p + x)[0] == p[0] && (p + x)[1..] == p[1..] + x;
      assert (q + y)[0] == q[0] && (q + y)[1..] == q[1..] + y;
      assert p == q <==> p[0] == q[0] && p[1..] == q[1..] by {
        if p[0] == q[0] && p[1..] == q[1..] {
          assert p == [p[0]] + p[1..] && q == [q[0]] + q[1..];
        }
      }
      LexLessAppend(p[1..], q[1..], x, y);
    }
  }

  /** Two equally long strings followed by one separator and two equally long
      strings: the order and the equality of the wholes are decided left part
      first. */
  lemma ConcatStep(p: string, q: string, sep: string, x: string, y: string)
    requires |p| == |q| && |x| == |y|
    ensures LexLess(p + sep + x, q + sep + y) <==> LexLess(p, q) || (p == q && LexLess(x, y))
    ensures p + sep + x == q + sep + y <==> p == q && x == y
  {
    LexLessAppend(p + sep, q + sep, x, y);
    LexLessAppend(p, q, sep, sep);
    assert p + sep == q + sep ==> p == q by {
      if p + sep == q + sep {
        assert p == (p + sep)[..|p|] && q == (q + sep)[..|q|];
      }
    }
    if p + sep + x == q + sep + y {
      assert p == (p + sep + x)[..|p|] && q == (q + sep + y)[..|q|];
      assert x == (p + sep + x)[|p| + |sep|..] && y == (q + sep + y)[|q| + |sep|..];
    }
  }

  /** Fixed-width decimal strings sort as the numbers they denote, and are
      equal exactly when the numbers are. */
  lemma {:induction false} DigitsOrder(x: nat, y: nat, width: nat)
    requires x < Pow10(width) && y < Pow10(width)
    ensures LexLess(Digits(x, width), Digits(y, width)) <==> x < y
    ensures Digits(x, width) == Digits(y, width) <==> x == y
  {
    if width > 0 {
      var px, py := Digits(x / 10, width - 1), Digits(y / 10, width - 1);
      var dx, dy := DigitChar(x % 10), DigitChar(y % 10);
      DigitsOrder(x / 10, y / 10, width - 1);
      LexLessAppend(px, py, [dx], [dy]);
      assert LexLess([dx], [dy]) <==> x % 10 < y % 10;
      if px + [dx] == py + [dy] {
        assert px == (px + [dx])[..width - 1] && py == (py + [dy])[..width - 1];
        assert dx == (px + [dx])[width - 1] && dy == (py + [dy])[width - 1];
      }
    }
  }

  /** The "s" format sorts chronologically to the second, and two instants
      format alike exactly when they fall in the same second. */
  lemma SortableFormatOrder(a: DateTime, b: DateTime)
    requires a.Valid() && b.Valid()
    ensures LexLess(SortableFormat(a), SortableFormat(b)) <==> EarlierSecond(a, b)
    ensures SortableFormat(a) == SortableFormat(b) <==> SameSecond(a, b)
  {
    assert Pow10(2) == 100 && Pow10(4) == 10000;
    DigitsOrder(a.year, b.year, 4);
    DigitsOrder(a.month, b.month, 2);
    DigitsOrder(a.day, b.day, 2);
    DigitsOrder(a.hour, b.hour, 2);
    DigitsOrder(a.minute, b.minute, 2);
    DigitsOrder(a.second, b.second, 2);
    var ya, yb := Digits(a.year, 4), Digits(b.year, 4);
    var mo_a, mo_b := ya + "-" + Digits(a.month, 2), yb + "-" + Digits(b.month, 2);
    ConcatStep(ya, yb, "-", Digits(a.month, 2), Digits(b.month, 2));
    var d_a, d_b := mo_a + "-" + Digits(a.day, 2), mo_b + "-" + Digits(b.day, 2);
    ConcatStep(mo_a, mo_b, "-", Digits(a.day, 2), Digits(b.day, 2));
    var h_a, h_b := d_a + "T" + Digits(a.hour, 2), d_b + "T" + Digits(b.hour, 2);
    ConcatStep(d_a, d_b, "T", Digits(a.hour, 2), Digits(b.hour, 2));
    var mi_a, mi_b := h_a + ":" + Digits(a.minute, 2), h_b + ":" + Digits(b.minute, 2);
    ConcatStep(h_a, h_b, ":", Digits(a.minute, 2), Digits(b.minute, 2));
    ConcatStep(mi_a, mi_b, ":", Digits(a.second, 2), Digits(b.second, 2));
  }
}
