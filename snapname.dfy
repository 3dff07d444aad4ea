/**
  * Snapshot names: the `SNAP_MATCH` validator and the `get_snapname` formatter.
  *
  * The validator is the anchored pattern
  *   ^\d{4}(0[1-9]|1[012])(0[1-9]|[12][0-9]|3[01])(-)(?:(?:([01]?\d|2[0-3]))?([0-5]?\d))?([0-5]?\d)$
  * written out by hand.  The fixed-width year, month, day and dash need no search; the
  * time part after the dash has optional pieces of width one or two, so a regex engine
  * may backtrack over where each piece ends.  That search is stated here as an existential
  * over the split points.  `\d` is restricted to the ASCII digits.
  */
module SnapName {

  predicate IsDigit(c: char) { '0' <= c <= '9' }

  /** `\d{4}`: the year. */
  predicate YearField(s: string) {
    |s| == 4 && IsDigit(s[0]) && IsDigit(s[1]) && IsDigit(s[2]) && IsDigit(s[3])
  }

  /** `0[1-9]|1[012]`: the month. */
  predicate MonthField(s: string): (b: bool)
    ensures b ==> |s| == 2 && IsDigit(s[0]) && IsDigit(s[1])
  {
    |s| == 2 &&
    ((s[0] == '0' && '1' <= s[1] <= '9') || (s[0] == '1' && '0' <= s[1] <= '2'))
  }

  /** `0[1-9]|[12][0-9]|3[01]`: the day of the month. */
  predicate DayField(s: string): (b: bool)
    ensures b ==> |s| == 2 && IsDigit(s[0]) && IsDigit(s[1])
  {
    |s| == 2 &&
    ((s[0] == '0' && '1' <= s[1] <= '9') ||
     ((s[0] == '1' || s[0] == '2') && IsDigit(s[1])) ||
     (s[0] == '3' && (s[1] == '0' || s[1] == '1')))
  }

  /** `[01]?\d|2[0-3]`: the hour. */
  predicate HourField(s: string): (b: bool)
    ensures b ==> 1 <= |s| <= 2 && forall k :: 0 <= k < |s| ==> IsDigit(s[k])
  {
    (|s| == 1 && IsDigit(s[0])) ||
    (|s| == 2 && (s[0] == '0' || s[0] == '1') && IsDigit(s[1])) ||
    (|s| == 2 && s[0] == '2' && '0' <= s[1] <= '3')
  }

  /** `[0-5]?\d`: a minute or a second. */
  predicate SixtyField(s: string): (b: bool)
    ensures b ==> 1 <= |s| <= 2 && forall k :: 0 <= k < |s| ==> IsDigit(s[k])
  {
    (|s| == 1 && IsDigit(s[0])) ||
    (|s| == 2 && '0' <= s[0] <= '5' && IsDigit(s[1]))
  }

  /** `(?:([01]?\d|2[0-3]))?([0-5]?\d)`: an optional hour followed by a minute. */
  predicate HourMinute(s: string) {
    exists i :: 0 <= i <= |s| && (i == 0 || HourField(s[..i])) && SixtyField(s[i..])
  }

  /** `(?:…)?([0-5]?\d)$`: the optional hour-and-minute group, then the second, then the end. */
  predicate TimePart(s: string) {
    exists i :: 0 <= i <= |s| && (i == 0 || HourMinute(s[..i])) && SixtyField(s[i..])
  }

  predicate AllDigits(u: string) {
    forall k :: 0 <= k < |u| ==> IsDigit(u[k])
  }

  /** Digits on both sides of a split point make digits throughout. */
  lemma DigitsJoin(u: string, i: nat)
    requires i <= |u| && AllDigits(u[..i]) && AllDigits(u[i..])
    ensures AllDigits(u)
  {
    forall k | 0 <= k < |u|
      ensures IsDigit(u[k])
    {
      if k < i { assert u[k] == u[..i][k]; } else { assert u[k] == u[i..][k - i]; }
    }
  }

  /** An optional hour and a minute are one to four digits. */
  lemma HourMinuteShape(hm: string)
    requires HourMinute(hm)
    ensures 1 <= |hm| <= 4 && AllDigits(hm)
  {
    var j :| 0 <= j <= |hm| && (j == 0 || HourField(hm[..j])) && SixtyField(hm[j..]);
    assert AllDigits(hm[j..]);
    if j == 0 {
      assert hm[j..] == hm;
    } else {
      assert AllDigits(hm[..j]);
      DigitsJoin(hm, j);
    }
  }

  /** A time part is one to six digits: at most three pieces of one or two digits each. */
  lemma TimePartShape(u: string)
    requires TimePart(u)
    ensures 1 <= |u| <= 6 && AllDigits(u)
  {
    var i :| 0 <= i <= |u| && (i == 0 || HourMinute(u[..i])) && SixtyField(u[i..]);
    assert AllDigits(u[i..]);
    if i == 0 {
      assert u[i..] == u;
    } else {
      HourMinuteShape(u[..i]);
      DigitsJoin(u, i);
    }
  }

  /**
    * `SNAP_MATCH.is_match(s)`.  Whatever the time part's split, an accepted name is ten to
    * fifteen characters, all digits except the dash at position 8.
    */
  predicate SnapMatch(s: string): (b: bool)
    ensures b ==> 10 <= |s| <= 15 && s[8] == '-' &&
                  forall k :: 0 <= k < |s| && k != 8 ==> IsDigit(s[k])
  {
    if |s| >= 9 &&
       YearField(s[..4]) && MonthField(s[4..6]) && DayField(s[6..8]) && s[8] == '-' &&
       TimePart(s[9..])
    then
      NameShape(s);
      true
    else
      false
  }

  /** The digits of an accepted name, field by field. */
  lemma NameShape(s: string)
    requires |s| >= 9 && YearField(s[..4]) && MonthField(s[4..6]) && DayField(s[6..8]) && TimePart(s[9..])
    ensures 10 <= |s| <= 15 && forall k :: 0 <= k < |s| && k != 8 ==> IsDigit(s[k])
  {
    TimePartShape(s[9..]);
    var tail := s[9..];
    forall k | 0 <= k < |s| && k != 8
      ensures IsDigit(s[k])
    {
      if k < 4 { assert s[k] == s[..4][k]; }
      else if k < 6 { assert s[k] == s[4..6][k - 4]; }
      else if k < 8 { assert s[k] == s[6..8][k - 6]; }
      else { assert s[k] == tail[k - 9]; }
    }
  }

  /** The fields of a UTC instant that `%Y%m%d-%H%M%S` prints. */
  datatype Timestamp = Timestamp(year: nat, month: nat, day: nat, hour: nat, minute: nat, second: nat)

  /**
    * A timestamp whose fields are in the ranges a UTC clock reading has, with a four-digit year
    * (the month lengths are not checked).
    */
  predicate ValidTimestamp(t: Timestamp) {
    t.year <= 9999 && 1 <= t.month <= 12 && 1 <= t.day <= 31 &&
    t.hour <= 23 && t.minute <= 59 && t.second <= 59
  }

  /** The ASCII digit for `d`. */
  function DigitChar(d: nat): (c: char)
    requires d <= 9
    ensures IsDigit(c) && c as int - '0' as int == d
  {
    ('0' as int + d) as char
  }

  /** The decimal value of an ASCII digit. */
  function DigitValue(c: char): nat
    requires IsDigit(c)
  {
    c as int - '0' as int
  }

  /** `n` printed in decimal, zero-padded to two places. */
  function Pad2(n: nat): (s: string)
    requires n <= 99
    ensures |s| == 2 && IsDigit(s[0]) && IsDigit(s[1])
    ensures DigitValue(s[0]) * 10 + DigitValue(s[1]) == n
  {
    [DigitChar(n / 10), DigitChar(n % 10)]
  }

  /** `n` printed in decimal, zero-padded to four places. */
  function Pad4(n: nat): (s: string)
    requires n <= 9999
    ensures YearField(s)
  {
    Pad2(n / 100) + Pad2(n % 100)
  }

  /** `get_snapname`: the clock reading `t` formatted as `%Y%m%d-%H%M%S`. */
  function FormatSnapname(t: Timestamp): (s: string)
    requires ValidTimestamp(t)
    ensures |s| == 15 && s[8] == '-'
    ensures forall k :: 0 <= k < 15 && k != 8 ==> IsDigit(s[k])
  {
    Pad4(t.year) + Pad2(t.month) + Pad2(t.day) + "-" + Pad2(t.hour) + Pad2(t.minute) + Pad2(t.second)
  }

  /** The value of a two-digit decimal field. */
  function Value2(s: string): nat
    requires |s| == 2 && IsDigit(s[0]) && IsDigit(s[1])
  {
    DigitValue(s[0]) * 10 + DigitValue(s[1])
  }

  /** The fields of a fifteen-character name, read back two digits at a time. */
  function ParseSnapname(s: string): Timestamp
    requires |s| == 15
    requires forall k :: 0 <= k < 15 && k != 8 ==> IsDigit(s[k])
  {
    Timestamp(
      Value2(s[..2]) * 100 + Value2(s[2..4]), Value2(s[4..6]), Value2(s[6..8]),
      Value2(s[9..11]), Value2(s[11..13]), Value2(s[13..]))
  }

  /** A value printed with two digits reads back as itself. */
  lemma Value2OfPad2(n: nat)
    requires n <= 99
    ensures Value2(Pad2(n)) == n
  {
  }

  /** A name assembled from valid fields with a two-digit hour and minute is accepted. */
  lemma MatchOfFields(y: string, mo: string, d: string, h: string, mi: string, se: string)
    requires YearField(y) && MonthField(mo) && DayField(d)
    requires HourField(h) && |h| == 2 && SixtyField(mi) && SixtyField(se)
    ensures SnapMatch(y + mo + d + "-" + h + mi + se)
  {
    var s := y + mo + d + "-" + h + mi + se;
    assert s[..4] == y && s[4..6] == mo && s[6..8] == d && s[8] == '-';
    var u := s[9..];
    assert u == h + mi + se;
    var hm := u[..|h + mi|];
    assert hm == h + mi && u[|h + mi|..] == se;
    assert hm[..2] == h && hm[2..] == mi;
    assert HourMinute(hm);
  }

  /** Every name `get_snapname` can produce is accepted by `SNAP_MATCH`. */
  lemma GeneratedNameMatches(t: Timestamp)
    requires ValidTimestamp(t)
    ensures SnapMatch(FormatSnapname(t))
  {
    var mo, d, h, mi, se := Pad2(t.month), Pad2(t.day), Pad2(t.hour), Pad2(t.minute), Pad2(t.second);
    Value2OfPad2(t.month);
    Value2OfPad2(t.day);
    Value2OfPad2(t.hour);
    Value2OfPad2(t.minute);
    Value2OfPad2(t.second);
    TwoDigitFields(mo);
    TwoDigitFields(d);
    TwoDigitFields(h);
    TwoDigitFields(mi);
    TwoDigitFields(se);
    MatchOfFields(Pad4(t.year), mo, d, h, mi, se);
  }

  /** A minute or second field is one or two characters wide. */
  lemma SixtyFieldWidth(s: string)
    requires SixtyField(s)
    ensures 1 <= |s| <= 2
  {
  }

  /**
    * A time part of the full width six splits in exactly one way: a two-digit hour, a two-digit
    * minute and a two-digit second.
    */
  lemma {:induction false} FullTimePartSplit(u: string)
    requires |u| == 6 && TimePart(u)
    ensures HourField(u[..2]) && SixtyField(u[2..4]) && SixtyField(u[4..])
  {
    var i :| 0 <= i <= |u| && (i == 0 || HourMinute(u[..i])) && SixtyField(u[i..]);
    SixtyFieldWidth(u[i..]);
    var v := u[..i];
    var j :| 0 <= j <= |v| && (j == 0 || HourField(v[..j])) && SixtyField(v[j..]);
    SixtyFieldWidth(v[j..]);
    assert i == 4 && j == 2;
    assert v[..2] == u[..2] && v[2..] == u[2..4];
  }

  /** Printing the value of a two-digit field gives the field back. */
  lemma Pad2OfValue2(s: string)
    requires |s| == 2 && IsDigit(s[0]) && IsDigit(s[1])
    ensures Value2(s) <= 99 && Pad2(Value2(s)) == s
  {
    DivModTen(DigitValue(s[0]), DigitValue(s[1]));
  }

  /**
    * A two-digit month, day, hour, minute or second field is accepted exactly when its value is
    * in 1-12, 1-31, 0-23 or 0-59 respectively.
    */
  lemma TwoDigitFields(s: string)
    requires |s| == 2 && IsDigit(s[0]) && IsDigit(s[1])
    ensures MonthField(s) <==> 1 <= Value2(s) <= 12
    ensures DayField(s) <==> 1 <= Value2(s) <= 31
    ensures HourField(s) <==> Value2(s) <= 23
    ensures SixtyField(s) <==> Value2(s) <= 59
  {
  }

  /** Division by ten undoes a two-digit combination. */
  lemma DivModTen(hi: nat, lo: nat)
    requires lo < 10
    ensures (hi * 10 + lo) / 10 == hi && (hi * 10 + lo) % 10 == lo
  {
  }

  /** Division by a hundred undoes a two-place combination of two-digit values. */
  lemma DivModHundred(hi: nat, lo: nat)
    requires lo < 100
    ensures (hi * 100 + lo) / 100 == hi && (hi * 100 + lo) % 100 == lo
  {
  }

  /** Printing the value of a four-digit year field gives the field back. */
  lemma Pad4OfYear(y: string)
    requires YearField(y)
    ensures Value2(y[..2]) * 100 + Value2(y[2..]) <= 9999
    ensures Pad4(Value2(y[..2]) * 100 + Value2(y[2..])) == y
  {
    var hi, lo := y[..2], y[2..];
    Pad2OfValue2(hi);
    Pad2OfValue2(lo);
    Pad4Split(Value2(hi), Value2(lo));
    assert hi + lo == y;
  }

  /** A four-digit year prints as its hundreds and its remainder, two digits each. */
  lemma Pad4Split(a: nat, b: nat)
    requires a <= 99 && b <= 99
    ensures Pad4(a * 100 + b) == Pad2(a) + Pad2(b)
  {
    DivModHundred(a, b);
  }

  /** The fields of an accepted name of the generated width, each at its fixed place. */
  lemma FullWidthFields(s: string)
    requires |s| == 15 && SnapMatch(s)
    ensures YearField(s[..4]) && MonthField(s[4..6]) && DayField(s[6..8])
    ensures HourField(s[9..11]) && SixtyField(s[11..13]) && SixtyField(s[13..])
  {
    var u := s[9..];
    FullTimePartSplit(u);
    assert u[..2] == s[9..11] && u[2..4] == s[11..13] && u[4..] == s[13..];
  }

  /**
    * The converse of `GeneratedNameMatches` for names of the generated width: every fifteen-character
    * name `SNAP_MATCH` accepts is the formatting of a valid clock reading, the one its digits spell.
    */
  lemma FullWidthMatchIsGenerated(s: string) returns (t: Timestamp)
    requires |s| == 15 && SnapMatch(s)
    ensures ValidTimestamp(t) && FormatSnapname(t) == s
  {
    FullWidthFields(s);
    var y, mo, d, h, mi, se := s[..4], s[4..6], s[6..8], s[9..11], s[11..13], s[13..];
    TwoDigitFields(mo);
    TwoDigitFields(d);
    TwoDigitFields(h);
    TwoDigitFields(mi);
    TwoDigitFields(se);
    Pad4OfYear(y);
    Pad2OfValue2(mo);
    Pad2OfValue2(d);
    Pad2OfValue2(h);
    Pad2OfValue2(mi);
    Pad2OfValue2(se);
    t := Timestamp(Value2(y[..2]) * 100 + Value2(y[2..]), Value2(mo), Value2(d), Value2(h), Value2(mi), Value2(se));
    assert s == y + mo + d + "-" + h + mi + se;
  }

  /** Reading the digits of a generated name gives back the clock reading it was made from. */
  lemma ParseFormatted(t: Timestamp)
    requires ValidTimestamp(t)
    ensures ParseSnapname(FormatSnapname(t)) == t
  {
  }

  /** The first snapshot name of the recovery example is accepted. */
  lemma FirstExampleNameMatches()
    ensures SnapMatch("20210601-120000")
  {
    MatchOfFields("2021", "06", "01", "12", "00", "00");
    assert "2021" + "06" + "01" + "-" + "12" + "00" + "00" == "20210601-120000";
  }

  /** The second snapshot name of the recovery example is accepted. */
  lemma SecondExampleNameMatches()
    ensures SnapMatch("20210601-140000")
  {
    MatchOfFields("2021", "06", "01", "14", "00", "00");
    assert "2021" + "06" + "01" + "-" + "14" + "00" + "00" == "20210601-140000";
  }

  /** A directory named `not-a-timestamp` is rejected, and so is a name with a thirteenth month. */
  lemma ExampleNamesRejected()
    ensures !SnapMatch("not-a-timestamp")
    ensures !SnapMatch("20211301-120000")
  {
  }

  /** A time part of one to three digits always has a split: second; minute and second; or hour, minute and second. */
  lemma ShortTimePart(tail: string)
    requires 1 <= |tail| <= 3 && forall k :: 0 <= k < |tail| ==> IsDigit(tail[k])
    ensures TimePart(tail)
  {
    if |tail| == 1 {
      assert tail[0..] == tail;
    } else if |tail| == 2 {
      var hm := tail[..1];
      assert hm[0..] == hm;
      assert HourMinute(hm);
    } else {
      var hm := tail[..2];
      assert hm[..1] == [tail[0]] && hm[1..] == [tail[1]];
      assert HourMinute(hm);
    }
  }

  /**
    * Because the hour-and-minute group and the hour are optional, the pattern accepts any valid date,
    * a dash and one to three digits, such as `20210601-5`, which `get_snapname` never produces.
    */
  lemma ShortNamesMatch(date: string, tail: string)
    requires |date| == 8 && YearField(date[..4]) && MonthField(date[4..6]) && DayField(date[6..])
    requires 1 <= |tail| <= 3 && forall k :: 0 <= k < |tail| ==> IsDigit(tail[k])
    ensures SnapMatch(date + "-" + tail)
  {
    var s := date + "-" + tail;
    assert s[..4] == date[..4] && s[4..6] == date[4..6] && s[6..8] == date[6..] && s[9..] == tail;
    ShortTimePart(tail);
  }

  /** Four digits after the dash are accepted only when they split as a valid time: `9999` does not. */
  lemma FourDigitTailRejected()
    ensures !SnapMatch("20210601-9999")
  {
  }
}
