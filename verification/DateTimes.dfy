/** lobbysvr/mysql+++/polyfill/datetime: from_sql and to_sql without fractions of seconds. */
module DateTimes {
  const INT_MIN: int := -0x8000_0000
  const INT_MAX: int := 0x7FFF_FFFF

  type int32 = x: int | -0x8000_0000 <= x <= 0x7FFF_FFFF

  /** sec is a float in the source. */
  datatype DateTime = DateTime(year: int32, month: int32, day: int32, hour: int32, minute: int32, sec: real,
                               withDate: bool, withTime: bool)

  // ---- Printing ----

  function Digit(n: nat): char
    requires n < 10
  {
    ['0', '1', '2', '3', '4', '5', '6', '7', '8', '9'][n]
  }

  function DigitValue(c: char): (n: nat)
    requires IsDigit(c)
    ensures n < 10
  {
    c as int - '0' as int
  }

  predicate IsDigit(c: char) {
    '0' <= c <= '9'
  }

  predicate AllDigits(s: string) {
    forall c | c in s :: IsDigit(c)
  }

  function DecimalNat(n: nat): string {
    if n < 10 then [Digit(n)] else DecimalNat(n / 10) + [Digit(n % 10)]
  }

  function Decimal(x: int): string {
    if x < 0 then "-" + DecimalNat(-x) else DecimalNat(x)
  }

  /** setfill('0') << setw(2) */
  function Padded(text: string): string {
    if |text| < 2 then "0" + text else text
  }

  /** (int)sec */
  function Truncate(sec: real): int {
    if sec < 0.0 then -(-sec).Floor else sec.Floor
  }

  function DateText(d: DateTime): string {
    Decimal(d.year) + ("-" + (Padded(Decimal(d.month)) + ("-" + Decimal(d.day))))
  }

  function TimeText(d: DateTime): string {
    Padded(Decimal(d.hour)) + (":" + (Decimal(d.minute) + (":" + Decimal(Truncate(d.sec)))))
  }

  /** to_sql(false): of all fields only month and hour are padded. */
  function ToSql(d: DateTime): string {
    (if d.withDate then DateText(d) + (if d.withTime then " " else "") else "")
    + (if d.withTime then TimeText(d) else "")
  }

  // ---- Reading ----

  /** An istringstream; good is false once the end was met or something failed. */
  datatype Stream = Stream(rest: string, good: bool)

  predicate IsSpace(c: char) {
    c == ' ' || '\t' <= c <= '\r'
  }

  function SkipSpace(s: string): string {
    if s != "" && IsSpace(s[0]) then SkipSpace(s[1..]) else s
  }

  /** The number of digits s begins with. */
  function Leading(s: string): (n: nat)
    ensures n <= |s|
    ensures forall i | 0 <= i < n :: IsDigit(s[i])
  {
    if s != "" && IsDigit(s[0]) then 1 + Leading(s[1..]) else 0
  }

  function ValueOf(digits: string): nat
    requires AllDigits(digits)
  {
    if digits == "" then 0 else 10 * ValueOf(digits[..|digits| - 1]) + DigitValue(digits[|digits| - 1])
  }

  function Unsigned(s: string): string {
    if s != "" && (s[0] == '-' || s[0] == '+') then s[1..] else s
  }

  function Signed(s: string, magnitude: real): real {
    if s != "" && s[0] == '-' then -magnitude else magnitude
  }

  function SignedInt(s: string, magnitude: nat): int {
    if s != "" && s[0] == '-' then -(magnitude as int) else magnitude
  }

  /** str >> x for an int: unchanged when nothing can be read, 0 when no number is there, clamped on overflow. */
  function ReadInt(st: Stream, x: int32): (int32, Stream) {
    var s := SkipSpace(st.rest);
    if !st.good || s == "" then (x, Stream(s, false))
    else
      var u := Unsigned(s);
      var n := Leading(u);
      if n == 0 then (0, Stream(u, false))
      else
        var value := SignedInt(s, ValueOf(u[..n]));
        if value < INT_MIN then (INT_MIN, Stream(u[n..], false))
        else if value > INT_MAX then (INT_MAX, Stream(u[n..], false))
        else (value, Stream(u[n..], u[n..] != ""))
  }

  function Power10(n: nat): real
    ensures Power10(n) > 0.0
  {
    if n == 0 then 1.0 else 10.0 * Power10(n - 1)
  }

  function Pointed(digits: string, fraction: string): real
    requires AllDigits(digits) && AllDigits(fraction)
  {
    ValueOf(digits) as real + (ValueOf(fraction) as real / Power10(|fraction|))
  }

  /** str >> x for a number with or without a decimal point. */
  function ReadReal(st: Stream, x: real): (real, Stream) {
    var s := SkipSpace(st.rest);
    if !st.good || s == "" then (x, Stream(s, false))
    else
      var u := Unsigned(s);
      var n := Leading(u);
      if n < |u| && u[n] == '.' then FractionFrom(s, u[..n], u[n + 1..])
      else if n == 0 then (0.0, Stream(u, false))
      else (Signed(s, ValueOf(u[..n]) as real), Stream(u[n..], u[n..] != ""))
  }

  /** The digits before the point are known; f is what follows it. */
  function FractionFrom(s: string, digits: string, f: string): (real, Stream)
    requires AllDigits(digits)
  {
    var k := Leading(f);
    if |digits| + k == 0 then (0.0, Stream(f, false))
    else (Signed(s, Pointed(digits, f[..k])), Stream(f[k..], f[k..] != ""))
  }

  /** str.ignore() */
  function Ignore(st: Stream): Stream {
    if !st.good || st.rest == "" then Stream(st.rest, false) else Stream(st.rest[1..], true)
  }

  function ReadDate(d: DateTime, st: Stream): (DateTime, Stream) {
    var (year, st1) := ReadInt(st, d.year);
    var (month, st2) := ReadInt(Ignore(st1), d.month);
    var (day, st3) := ReadInt(Ignore(st2), d.day);
    (d.(year := year, month := month, day := day), Ignore(st3))
  }

  function ReadTime(d: DateTime, st: Stream): DateTime {
    var (hour, st1) := ReadInt(st, d.hour);
    var (minute, st2) := ReadInt(Ignore(st1), d.minute);
    var (sec, st3) := ReadReal(Ignore(st2), d.sec);
    d.(hour := hour, minute := minute, sec := sec)
  }

  /** from_sql on an object that holds d. */
  function FromSql(d: DateTime, sql: string): DateTime {
    var flagged := d.(withDate := '-' in sql, withTime := ':' in sql);
    var (dated, st) := if flagged.withDate then ReadDate(flagged, Stream(sql, true)) else (flagged, Stream(sql, true));
    if flagged.withTime then ReadTime(dated, st) else dated
  }

  // ---- One number ----

  lemma DigitInverse(n: nat)
    requires n < 10
    ensures IsDigit(Digit(n)) && DigitValue(Digit(n)) == n
  {
  }

  lemma {:induction false} DecimalNatIsDigits(n: nat)
    ensures DecimalNat(n) != "" && AllDigits(DecimalNat(n)) && ValueOf(DecimalNat(n)) == n
  {
    if n < 10 {
      DigitInverse(n);
      assert DecimalNat(n)[..0] == "";
    } else {
      DecimalNatIsDigits(n / 10);
      DigitInverse(n % 10);
      assert DecimalNat(n)[..|DecimalNat(n)| - 1] == DecimalNat(n / 10);
    }
  }

  predicate EndsNumber(tail: string) {
    tail == "" || !IsDigit(tail[0])
  }

  lemma {:induction false} LeadingDigits(digits: string, tail: string)
    requires AllDigits(digits) && EndsNumber(tail)
    ensures Leading(digits + tail) == |digits|
  {
    if digits != "" {
      assert (digits + tail)[1..] == digits[1..] + tail;
      LeadingDigits(digits[1..], tail);
    } else {
      assert digits + tail == tail;
    }
  }

  lemma {:induction false} LeadingZero(digits: string)
    requires AllDigits(digits)
    ensures AllDigits("0" + digits) && ValueOf("0" + digits) == ValueOf(digits)
  {
    if digits != "" {
      var n := |digits| - 1;
      assert ("0" + digits)[..n + 1] == "0" + digits[..n];
      LeadingZero(digits[..n]);
    } else {
      assert "0" + digits == "0" && "0"[..0] == "";
    }
  }

  /** The digits of |x| as they are printed, padded or not. */
  ghost predicate Prints(text: string, x: int) {
    exists digits: string ::
      && text == (if x < 0 then "-" + digits else digits)
      && digits != "" && AllDigits(digits) && ValueOf(digits) == Magnitude(x)
  }

  function Magnitude(x: int): nat {
    if x < 0 then -x else x
  }

  lemma DecimalPrints(x: int)
    ensures Prints(Decimal(x), x) && Prints(Padded(Decimal(x)), x)
  {
    var digits := DecimalNat(Magnitude(x));
    DecimalNatIsDigits(Magnitude(x));
    LeadingZero(digits);
    assert Prints(Decimal(x), x);
    if |Decimal(x)| < 2 {
      assert Padded(Decimal(x)) == "0" + digits;
    }
  }

  lemma DigitsParts(digits: string, tail: string)
    requires digits != "" && AllDigits(digits) && EndsNumber(tail)
    ensures var u := digits + tail;
            && u != "" && IsDigit(u[0]) && Leading(u) == |digits| && u[..|digits|] == digits && u[|digits|..] == tail
  {
    assert digits[0] in digits;
    LeadingDigits(digits, tail);
  }

  /** What follows the sign, how far its digits go, and what they say. */
  lemma PrintedParts(text: string, x: int, tail: string)
    requires Prints(text, x) && EndsNumber(tail)
    ensures var s := text + tail; var u := Unsigned(s); var n := Leading(u);
            && s != "" && SkipSpace(s) == s && n > 0 && u[n..] == tail
            && ValueOf(u[..n]) == Magnitude(x) && (s[0] == '-' <==> x < 0)
  {
    var digits: string :| text == (if x < 0 then "-" + digits else digits)
                          && digits != "" && AllDigits(digits) && ValueOf(digits) == Magnitude(x);
    var s, u := text + tail, digits + tail;
    DigitsParts(digits, tail);
    if x < 0 {
      assert s == "-" + u;
      BehindMinus(u);
    } else {
      assert s == u;
      BehindNothing(u);
    }
    assert Unsigned(s) == u && Leading(u) == |digits|;
  }

  lemma BehindNothing(u: string)
    requires u != "" && IsDigit(u[0])
    ensures Unsigned(u) == u && SkipSpace(u) == u && u[0] != '-'
  {
  }

  lemma BehindMinus(u: string)
    ensures Unsigned("-" + u) == u && SkipSpace("-" + u) == "-" + u
  {
  }

  lemma IntIsRead(text: string, x: int32, tail: string, was: int32)
    requires Prints(text, x) && EndsNumber(tail)
    ensures ReadInt(Stream(text + tail, true), was) == (x, Stream(tail, tail != ""))
  {
    PrintedParts(text, x, tail);
  }

  lemma RealIsRead(text: string, x: int, was: real)
    requires Prints(text, x)
    ensures ReadReal(Stream(text, true), was).0 == x as real
  {
    PrintedParts(text, x, "");
    assert text + "" == text;
  }

  // ---- Date and time ----

  /** A number and the separator behind it. */
  lemma FieldIsRead(text: string, x: int32, c: char, tail: string, was: int32)
    requires Prints(text, x) && !IsDigit(c)
    ensures ReadInt(Stream(text + ([c] + tail), true), was) == (x, Stream([c] + tail, true))
    ensures Ignore(Stream([c] + tail, true)) == Stream(tail, true)
  {
    IntIsRead(text, x, [c] + tail, was);
    assert ([c] + tail)[1..] == tail;
  }

  lemma DateIsRead(d: DateTime, tail: string, was: DateTime)
    requires EndsNumber(tail)
    ensures ReadDate(was, Stream(DateText(d) + tail, true))
            == (was.(year := d.year, month := d.month, day := d.day), Ignore(Stream(tail, tail != "")))
  {
    DecimalPrints(d.year);
    DecimalPrints(d.month);
    DecimalPrints(d.day);
    var t3 := Decimal(d.day) + tail;
    var t2 := Padded(Decimal(d.month)) + ("-" + t3);
    DateTextSplit(d, tail);
    FieldIsRead(Decimal(d.year), d.year, '-', t2, was.year);
    FieldIsRead(Padded(Decimal(d.month)), d.month, '-', t3, was.month);
    IntIsRead(Decimal(d.day), d.day, tail, was.day);
  }

  lemma DateTextSplit(d: DateTime, tail: string)
    ensures DateText(d) + tail
            == Decimal(d.year) + ("-" + (Padded(Decimal(d.month)) + ("-" + (Decimal(d.day) + tail))))
  {
    AppendTo(Decimal(d.year), Padded(Decimal(d.month)), Decimal(d.day), tail);
  }

  lemma AppendTo(a: string, b: string, c: string, tail: string)
    ensures a + ("-" + (b + ("-" + c))) + tail == a + ("-" + (b + ("-" + (c + tail))))
  {
  }

  lemma TimeIsRead(d: DateTime, was: DateTime)
    ensures ReadTime(was, Stream(TimeText(d), true))
            == was.(hour := d.hour, minute := d.minute, sec := Truncate(d.sec) as real)
  {
    DecimalPrints(d.hour);
    DecimalPrints(d.minute);
    DecimalPrints(Truncate(d.sec));
    var t3 := Decimal(Truncate(d.sec));
    var t2 := Decimal(d.minute) + (":" + t3);
    FieldIsRead(Padded(Decimal(d.hour)), d.hour, ':', t2, was.hour);
    FieldIsRead(Decimal(d.minute), d.minute, ':', t3, was.minute);
    RealIsRead(t3, Truncate(d.sec), was.sec);
  }

  // ---- The markers ----

  lemma MarksInNumber(text: string, x: int)
    requires Prints(text, x)
    ensures ('-' in text <==> x < 0) && ':' !in text
  {
    var digits: string :| text == (if x < 0 then "-" + digits else digits)
                          && AllDigits(digits);
    assert '-' !in digits && ':' !in digits;
    assert x < 0 ==> text[0] == '-';
  }

  predicate TimeHasMinus(d: DateTime) {
    d.hour < 0 || d.minute < 0 || Truncate(d.sec) < 0
  }

  lemma MarksInSql(d: DateTime)
    ensures ':' in ToSql(d) <==> d.withTime
    ensures '-' in ToSql(d) <==> d.withDate || (d.withTime && TimeHasMinus(d))
  {
    MarksInDate(d);
    MarksInTime(d);
  }

  lemma MarksInDate(d: DateTime)
    ensures '-' in DateText(d) && ':' !in DateText(d)
  {
    DecimalPrints(d.year);
    DecimalPrints(d.month);
    DecimalPrints(d.day);
    MarksInNumber(Decimal(d.year), d.year);
    MarksInNumber(Padded(Decimal(d.month)), d.month);
    MarksInNumber(Decimal(d.day), d.day);
  }

  lemma MarksInTime(d: DateTime)
    ensures ':' in TimeText(d) && ('-' in TimeText(d) <==> TimeHasMinus(d))
  {
    DecimalPrints(d.hour);
    DecimalPrints(d.minute);
    DecimalPrints(Truncate(d.sec));
    MarksInNumber(Padded(Decimal(d.hour)), d.hour);
    MarksInNumber(Decimal(d.minute), d.minute);
    MarksInNumber(Decimal(Truncate(d.sec)), Truncate(d.sec));
  }

  // ---- The round trip ----

  predicate IsWhole(sec: real) {
    Truncate(sec) as real == sec
  }

  /** r holds what d says: the flags and the fields they make meaningful. */
  predicate Recovers(r: DateTime, d: DateTime) {
    && r.withDate == d.withDate && r.withTime == d.withTime
    && (d.withDate ==> r.year == d.year && r.month == d.month && r.day == d.day)
    && (d.withTime ==> r.hour == d.hour && r.minute == d.minute && r.sec == d.sec)
  }

  /** What is read back of a printed date-time whose markers are its own. */
  lemma Reread(d: DateTime, was: DateTime)
    requires d.withDate || !d.withTime || !TimeHasMinus(d)
    ensures Recovers(FromSql(was, ToSql(d)), d.(sec := Truncate(d.sec) as real))
  {
    MarksInSql(d);
    var flagged := was.(withDate := d.withDate, withTime := d.withTime);
    var dated := flagged.(year := d.year, month := d.month, day := d.day);
    if d.withDate {
      var tail := if d.withTime then " " + TimeText(d) else "";
      SqlSplit(d);
      DateIsRead(d, tail, flagged);
      assert tail != "" ==> tail[1..] == TimeText(d);
      TimeIsRead(d, dated);
    } else {
      SqlSplit(d);
      TimeIsRead(d, flagged);
    }
  }

  lemma SqlSplit(d: DateTime)
    ensures d.withDate ==> ToSql(d) == DateText(d) + (if d.withTime then " " + TimeText(d) else "")
    ensures !d.withDate && d.withTime ==> ToSql(d) == TimeText(d)
  {
    assert DateText(d) + " " + TimeText(d) == DateText(d) + (" " + TimeText(d));
    assert "" + TimeText(d) == TimeText(d) && DateText(d) + "" + "" == DateText(d) + "";
  }

  /** A time has whole seconds, and a time without a date no negative field. */
  predicate Recoverable(d: DateTime) {
    d.withTime ==> IsWhole(d.sec) && (d.withDate || (d.hour >= 0 && d.minute >= 0 && d.sec >= 0.0))
  }

  /** from_sql(to_sql(false)) recovers exactly these, into any object. */
  lemma RoundTrip(d: DateTime, was: DateTime)
    ensures Recovers(FromSql(was, ToSql(d)), d) <==> Recoverable(d)
  {
    MarksInSql(d);
    if d.withDate || !d.withTime || !TimeHasMinus(d) {
      Reread(d, was);
    }
  }

  /** An ostringstream: the fill character stays, the width is used up by the next insertion. */
  class Ostream {
    var text: string
    var fill: char
    var width: nat

    constructor ()
      ensures text == "" && fill == ' ' && width == 0
    {
      text, fill, width := "", ' ', 0;
    }

    method SetFill(c: char)
      modifies this`fill
      ensures fill == c
    {
      fill := c;
    }

    method SetWidth(n: nat)
      modifies this`width
      ensures width == n
    {
      width := n;
    }

    method Put(s: string)
      modifies this`text, this`width
      ensures width == 0
      ensures text == old(text) + Widened(s, fill, old(width))
      ensures old(width) == 0 ==> text == old(text) + s
    {
      text := text + Widened(s, fill, width);
      width := 0;
    }
  }

  /** An insertion filled up on the left. */
  function Widened(s: string, fill: char, width: nat): string {
    (if |s| < width then seq(width - |s|, i => fill) else "") + s
  }

  lemma WidenedAsPadded(x: int)
    ensures Widened(Decimal(x), '0', 2) == Padded(Decimal(x))
  {
    DecimalNatIsDigits(Magnitude(x));
    if |Decimal(x)| < 2 {
      assert seq(1, i => '0') == "0";
    }
  }

  method WriteDate(str: Ostream, d: DateTime)
    requires str.width == 0
    modifies str
    ensures str.text == old(str.text) + DateText(d) && str.width == 0
  {
    str.Put(Decimal(d.year));
    str.Put("-");
    str.SetFill('0');
    str.SetWidth(2);
    str.Put(Decimal(d.month));
    WidenedAsPadded(d.month);
    str.Put("-");
    str.Put(Decimal(d.day));
    FiveAppended(old(str.text), Decimal(d.year), "-", Padded(Decimal(d.month)), "-", Decimal(d.day));
  }

  lemma FiveAppended(s: string, a: string, b: string, c: string, d: string, e: string)
    ensures s + a + b + c + d + e == s + (a + (b + (c + (d + e))))
  {
  }

  method WriteTime(str: Ostream, d: DateTime)
    requires str.width == 0
    modifies str
    ensures str.text == old(str.text) + TimeText(d) && str.width == 0
  {
    str.SetFill('0');
    str.SetWidth(2);
    str.Put(Decimal(d.hour));
    WidenedAsPadded(d.hour);
    str.Put(":");
    str.Put(Decimal(d.minute));
    str.Put(":");
    str.Put(Decimal(Truncate(d.sec)));
    FiveAppended(old(str.text), Padded(Decimal(d.hour)), ":", Decimal(d.minute), ":", Decimal(Truncate(d.sec)));
  }

  /** The class datetime. */
  class MutableDateTime {
    var year: int32
    var month: int32
    var day: int32
    var hour: int32
    var minute: int32
    var sec: real
    var withDate: bool
    var withTime: bool

    function View(): DateTime
      reads this
    {
      DateTime(year, month, day, hour, minute, sec, withDate, withTime)
    }

    /** to_sql(false) over the formatting state of its stream. */
    method ToText() returns (sql: string)
      ensures sql == ToSql(View())
    {
      var str := new Ostream();
      if withDate {
        WriteDate(str, View());
        if withTime {
          str.Put(" ");
        }
      }
      ghost var first := str.text;
      assert first == if withDate then DateText(View()) + (if withTime then " " else "") else "";
      if withTime {
        WriteTime(str, View());
      }
      sql := str.text;
      assert sql == first + (if withTime then TimeText(View()) else "");
    }

    /** from_sql; of a printed date-time it recovers exactly the recoverable ones. */
    method ReadFrom(sql: string)
      modifies this
      ensures View() == FromSql(old(View()), sql)
      ensures forall d: DateTime | sql == ToSql(d) :: Recovers(View(), d) <==> Recoverable(d)
    {
      forall d: DateTime | sql == ToSql(d) ensures Recovers(FromSql(View(), sql), d) <==> Recoverable(d) {
        RoundTrip(d, View());
      }
      withDate := '-' in sql;
      withTime := ':' in sql;
      var str := Stream(sql, true);
      if withDate {
        var (y, str1) := ReadInt(str, year);
        year := y;
        var (m, str2) := ReadInt(Ignore(str1), month);
        month := m;
        var (d, str3) := ReadInt(Ignore(str2), day);
        day := d;
        str := Ignore(str3);
      }
      if withTime {
        var (h, str1) := ReadInt(str, hour);
        hour := h;
        var (m, str2) := ReadInt(Ignore(str1), minute);
        minute := m;
        var (s, str3) := ReadReal(Ignore(str2), sec);
        sec := s;
      }
    }
  }
}
