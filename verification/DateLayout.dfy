/** The text of to_sql character by character, and what from_sql's extractions make of any text. */
module DateLayout {
  import opened DateTimes

  // ---- Widths ----

  function Digits(n: nat): nat {
    if n < 10 then 1 else 1 + Digits(n / 10)
  }

  /** The characters of a printed int. */
  function Width(x: int): nat {
    (if x < 0 then 1 else 0) + Digits(Magnitude(x))
  }

  function AtLeastTwo(n: nat): nat {
    if n < 2 then 2 else n
  }

  lemma {:induction false} DecimalNatWidth(n: nat)
    ensures |DecimalNat(n)| == Digits(n)
    ensures DecimalNat(n)[0] == '0' <==> n == 0
  {
    if n >= 10 {
      DecimalNatWidth(n / 10);
    }
  }

  /** No leading zeros, and a sign only for negative ints. */
  lemma DecimalWidth(x: int)
    ensures |Decimal(x)| == Width(x)
    ensures Decimal(x)[0] == '0' <==> x == 0
    ensures 0 <= x < 10 ==> Decimal(x) == [Digit(x)]
  {
    DecimalNatWidth(Magnitude(x));
  }

  // ---- Where everything stands ----

  /** Two characters for 0 to 9, the int as it is otherwise. */
  predicate IsPadded(field: string, x: int) {
    if 0 <= x < 10 then field == ['0', Digit(x)] else field == Decimal(x)
  }

  lemma PaddedIsPadded(x: int)
    ensures IsPadded(Padded(Decimal(x)), x) && |Padded(Decimal(x))| == AtLeastTwo(Width(x))
  {
    DecimalWidth(x);
    if 10 <= x {
      assert Digits(x) == 1 + Digits(x / 10);
    }
  }

  predicate IsTime(t: string, d: DateTime) {
    var h, m, s := AtLeastTwo(Width(d.hour)), Width(d.minute), Width(Truncate(d.sec));
    && |t| == h + m + s + 2
    && IsPadded(t[..h], d.hour) && t[h] == ':'
    && t[h + 1..h + 1 + m] == Decimal(d.minute) && t[h + 1 + m] == ':'
    && t[h + m + 2..] == Decimal(Truncate(d.sec))
  }

  predicate IsDate(t: string, d: DateTime) {
    var y, m, n := Width(d.year), AtLeastTwo(Width(d.month)), Width(d.day);
    && |t| == y + m + n + 2
    && t[..y] == Decimal(d.year) && t[y] == '-'
    && IsPadded(t[y + 1..y + 1 + m], d.month) && t[y + 1 + m] == '-'
    && t[y + m + 2..] == Decimal(d.day)
  }

  predicate IsSql(sql: string, d: DateTime) {
    var k := Width(d.year) + AtLeastTwo(Width(d.month)) + Width(d.day) + 2;
    if d.withDate && d.withTime then |sql| > k && IsDate(sql[..k], d) && sql[k] == ' ' && IsTime(sql[k + 1..], d)
    else if d.withDate then IsDate(sql, d)
    else if d.withTime then IsTime(sql, d)
    else sql == ""
  }

  /** Three fields and two separators. */
  lemma FieldsStand(a: string, p: string, b: string, q: string, c: string)
    requires |p| == 1 && |q| == 1
    ensures var t := a + (p + (b + (q + c)));
            && |t| == |a| + |b| + |c| + 2 && t[..|a|] == a && t[|a|] == p[0]
            && t[|a| + 1..|a| + 1 + |b|] == b && t[|a| + 1 + |b|] == q[0] && t[|a| + |b| + 2..] == c
  {
  }

  lemma TimeStands(d: DateTime)
    ensures IsTime(TimeText(d), d)
  {
    PaddedIsPadded(d.hour);
    DecimalWidth(d.minute);
    DecimalWidth(Truncate(d.sec));
    FieldsStand(Padded(Decimal(d.hour)), ":", Decimal(d.minute), ":", Decimal(Truncate(d.sec)));
  }

  lemma DateStands(d: DateTime)
    ensures IsDate(DateText(d), d)
  {
    DecimalWidth(d.year);
    PaddedIsPadded(d.month);
    DecimalWidth(d.day);
    FieldsStand(Decimal(d.year), "-", Padded(Decimal(d.month)), "-", Decimal(d.day));
  }

  /** Of all fields month and hour alone are padded, to two characters with a zero; the rest have no character more than
      their digits and sign; the separators stand between them and nowhere else. */
  lemma SqlStands(d: DateTime)
    ensures IsSql(ToSql(d), d)
  {
    DateStands(d);
    TimeStands(d);
    SqlSplit(d);
    if d.withDate && d.withTime {
      var k := |DateText(d)|;
      assert ToSql(d)[..k] == DateText(d) && ToSql(d)[k + 1..] == TimeText(d);
    }
  }

  /** to_sql(false) of an object. */
  method Print(d: MutableDateTime) returns (sql: string)
    ensures IsSql(sql, d.View()) && sql == ToSql(d.View())
  {
    sql := d.ToText();
    SqlStands(d.View());
  }

  lemma PrintedTime()
    ensures ToSql(DateTime(0, 0, 0, 7, 8, 9.0, false, true)) == "07:8:9"
  {
    assert Truncate(9.0) == 9;
  }

  lemma PrintedDate()
    ensures ToSql(DateTime(-5, 3, 4, 0, 0, 0.0, true, false)) == "-5-03-4"
  {
  }

  lemma PrintedBoth()
    ensures ToSql(DateTime(98, 12, 31, 17, 45, 6.5, true, true)) == "98-12-31 17:45:6"
  {
    var d := DateTime(98, 12, 31, 17, 45, 6.5, true, true);
    LongDate(d);
    LongTime(d);
    SqlSplit(d);
  }

  lemma LongDate(d: DateTime)
    requires d.year == 98 && d.month == 12 && d.day == 31
    ensures DateText(d) == "98-12-31"
  {
    TwoDigits(98);
    TwoDigits(12);
    TwoDigits(31);
  }

  lemma LongTime(d: DateTime)
    requires d.hour == 17 && d.minute == 45 && d.sec == 6.5
    ensures TimeText(d) == "17:45:6"
  {
    TwoDigits(17);
    TwoDigits(45);
    assert Truncate(d.sec) == 6;
  }

  lemma TwoDigits(n: nat)
    requires 10 <= n < 100
    ensures DecimalNat(n) == [Digit(n / 10), Digit(n % 10)]
  {
  }

  /** (int)sec cuts off the fraction, towards zero. */
  lemma TruncateMeans(sec: real)
    ensures sec >= 0.0 ==> Truncate(sec) as real <= sec < Truncate(sec) as real + 1.0
    ensures sec <= 0.0 ==> Truncate(sec) as real - 1.0 < sec <= Truncate(sec) as real
  {
  }

  // ---- Extraction from any text ----

  predicate AllSpaces(s: string) {
    forall c | c in s :: c == ' ' || 9 <= c as int <= 13
  }

  lemma {:induction false} SpacesSkipped(spaces: string, s: string)
    requires AllSpaces(spaces) && s != "" && !IsSpace(s[0])
    ensures SkipSpace(spaces + s) == s
  {
    if spaces != "" {
      assert (spaces + s)[1..] == spaces[1..] + s && spaces[0] in spaces;
      assert forall c :: c in spaces[1..] ==> c in spaces;
      SpacesSkipped(spaces[1..], s);
    } else {
      assert spaces + s == s;
    }
  }

  /** What an int extraction makes of a number out of range. */
  function Clamped(x: int): int32 {
    if x < -2147483648 then -2147483648 else if x > 2147483647 then 2147483647 else x
  }

  /** Spaces, a sign or none, digits with or without leading zeros: the extraction gives their value, clamped, stops
      behind them, and fails when it had to clamp. */
  lemma IntIsReadAnywhere(spaces: string, sign: string, digits: string, tail: string, was: int32)
    requires AllSpaces(spaces) && sign in {"", "-", "+"} && digits != "" && AllDigits(digits) && EndsNumber(tail)
    ensures var x := if sign == "-" then -(ValueOf(digits) as int) else ValueOf(digits);
            ReadInt(Stream(spaces + (sign + (digits + tail)), true), was)
            == (Clamped(x), Stream(tail, tail != "" && x == Clamped(x)))
  {
    var u := digits + tail;
    DigitsParts(digits, tail);
    var s := sign + u;
    SignedText(sign, u);
    SpacesSkipped(spaces, s);
  }

  lemma SignedText(sign: string, u: string)
    requires sign in {"", "-", "+"} && u != "" && IsDigit(u[0])
    ensures var s := sign + u; s != "" && !IsSpace(s[0]) && Unsigned(s) == u && (s[0] == '-' <==> sign == "-")
  {
    if sign == "" {
      assert sign + u == u;
    }
  }

  /** Where no number stands the extraction gives 0 and fails; at the end of the text, or once the stream has failed, it
      leaves the int as it was. */
  lemma NoIntIsRead(s: string, was: int32)
    ensures ReadInt(Stream(s, false), was).0 == was && !ReadInt(Stream(s, false), was).1.good
    ensures AllSpaces(s) ==> ReadInt(Stream(s, true), was) == (was, Stream("", false))
    ensures s != "" && !IsSpace(s[0]) && EndsNumber(Unsigned(s)) ==>
              ReadInt(Stream(s, true), was).0 == 0 && !ReadInt(Stream(s, true), was).1.good
  {
    if AllSpaces(s) {
      OnlySpaces(s);
    }
  }

  lemma NoRealIsRead(s: string, was: real)
    ensures ReadReal(Stream(s, false), was).0 == was && !ReadReal(Stream(s, false), was).1.good
    ensures AllSpaces(s) ==> ReadReal(Stream(s, true), was) == (was, Stream("", false))
    ensures s != "" && !IsSpace(s[0]) && EndsNumber(Unsigned(s)) && (Unsigned(s) == "" || Unsigned(s)[0] != '.') ==>
              ReadReal(Stream(s, true), was).0 == 0.0 && !ReadReal(Stream(s, true), was).1.good
  {
    if AllSpaces(s) {
      OnlySpaces(s);
    }
  }

  lemma {:induction false} OnlySpaces(s: string)
    requires AllSpaces(s)
    ensures SkipSpace(s) == ""
  {
    if s != "" {
      assert s[0] in s && forall c :: c in s[1..] ==> c in s;
      OnlySpaces(s[1..]);
    }
  }

  // ---- Fractions ----

  function Tens(k: nat): (t: nat)
    ensures t > 0
  {
    if k == 0 then 1 else 10 * Tens(k - 1)
  }

  lemma {:induction false} PowersOfTen(k: nat)
    ensures Power10(k) == Tens(k) as real
  {
    if k > 0 {
      PowersOfTen(k - 1);
    }
  }

  /** A number with a decimal point is what stands before it and, over the power of ten of its digits, what stands
      behind it. */
  lemma FractionIsRead(digits: string, fraction: string, was: real)
    requires digits != "" && AllDigits(digits) && AllDigits(fraction)
    ensures ReadReal(Stream(digits + ("." + fraction), true), was).0
            == ValueOf(digits) as real + ValueOf(fraction) as real / Tens(|fraction|) as real
  {
    PointStands(digits, fraction);
    PointIsRead(digits + ("." + fraction), |digits|, was);
    PowersOfTen(|fraction|);
  }

  lemma PointStands(digits: string, fraction: string)
    requires digits != "" && AllDigits(digits) && AllDigits(fraction)
    ensures var s := digits + ("." + fraction); var n := |digits|;
            && s != "" && IsDigit(s[0]) && n < |s| && s[..n] == digits && s[n] == '.' && s[n + 1..] == fraction
            && Leading(s) == n && Leading(fraction) == |fraction|
            && Unsigned(s) == s && SkipSpace(s) == s && s[0] != '-'
  {
    DigitsParts(digits, "." + fraction);
    LeadingDigits(fraction, "");
    assert fraction + "" == fraction;
    BehindNothing(digits + ("." + fraction));
  }

  lemma PointIsRead(s: string, n: nat, was: real)
    requires s != "" && SkipSpace(s) == s && Unsigned(s) == s && s[0] != '-'
    requires 0 < n < |s| && Leading(s) == n && s[n] == '.' && Leading(s[n + 1..]) == |s| - n - 1
    requires AllDigits(s[..n]) && AllDigits(s[n + 1..])
    ensures ReadReal(Stream(s, true), was).0 == Pointed(s[..n], s[n + 1..])
  {
    FractionIsTaken(s, s[..n], s[n + 1..]);
  }

  lemma FractionIsTaken(s: string, digits: string, f: string)
    requires digits != "" && AllDigits(digits) && AllDigits(f) && Leading(f) == |f| && s != "" && s[0] != '-'
    ensures FractionFrom(s, digits, f).0 == Pointed(digits, f)
  {
    assert f[..|f|] == f;
  }
}
