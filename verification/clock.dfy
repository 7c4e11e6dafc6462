/**
 The session countdown display (App.tsx `formatTime`): milliseconds rendered
 as hours, minutes and seconds, each padded to two digits. `ParseClock` is an
 independent reader of that display, used to state what the text means.
 */
module Clock {
  import opened Wrappers
  import opened JsNumber

  /** JavaScript's `%` on integers: the remainder takes the dividend's sign. */
  function TruncRem(a: int, b: int): int
    requires b > 0
  {
    if a >= 0 then a % b else -((-a) % b)
  }

  /** `n.toString().padStart(2, '0')`. */
  function Field(n: int): string {
    PadStart(IntToString(n), 2, '0')
  }

  /**
   `formatTime(ms)`. `Math.floor(x / d)` for a positive `d` is Dafny's `x / d`;
   JavaScript's `%` is `TruncRem`, which differs from Dafny's `%` only when
   `ms` is negative.
   */
  function FormatTime(ms: int): string {
    var totalSec := ms / 1000;
    var hrs := totalSec / 3600;
    var mins := TruncRem(totalSec, 3600) / 60;
    var secs := TruncRem(totalSec, 60);
    Render(hrs, mins, secs)
  }

  function Render(hrs: int, mins: int, secs: int): string {
    Field(hrs) + ":" + Field(mins) + ":" + Field(secs)
  }

  /** Splits `s` at every `sep`, like `String.prototype.split` with a one-character separator. */
  function Split(s: string, sep: char): (parts: seq<string>)
    ensures |parts| >= 1
  {
    if |s| == 0 then [""]
    else
      var tail := Split(s[1..], sep);
      if s[0] == sep then [""] + tail
      else [[s[0]] + tail[0]] + tail[1..]
  }

  lemma {:induction false} SplitWithoutSeparator(s: string, sep: char)
    requires sep !in s
    ensures Split(s, sep) == [s]
    decreases |s|
  {
    if |s| > 0 {
      SplitWithoutSeparator(s[1..], sep);
      assert [s[0]] + s[1..] == s;
    }
  }

  lemma {:induction false} SplitAtFirstSeparator(a: string, sep: char, b: string)
    requires sep !in a
    ensures Split(a + [sep] + b, sep) == [a] + Split(b, sep)
    decreases |a|
  {
    var s := a + [sep] + b;
    if |a| > 0 {
      assert s[1..] == a[1..] + [sep] + b;
      SplitAtFirstSeparator(a[1..], sep, b);
      assert [a[0]] + a[1..] == a;
    } else {
      assert s[1..] == b;
    }
  }

  datatype ClockReading = ClockReading(hours: nat, minutes: nat, seconds: nat)

  /** A non-empty run of decimal digits, read as a number. */
  function ParseField(f: string): (r: Option<nat>)
    ensures r.Some? <==> 0 < |f| && AllDecimalDigits(f)
  {
    if 0 < |f| && AllDecimalDigits(f) then Some(DigitsValue(f, 10)) else None
  }

  /** Reads "H:M:S" with decimal fields of any width. */
  function ParseClock(t: string): Option<ClockReading> {
    var parts := Split(t, ':');
    if |parts| != 3 then None
    else
      var h, m, s := ParseField(parts[0]), ParseField(parts[1]), ParseField(parts[2]);
      if h.Some? && m.Some? && s.Some? then Some(ClockReading(h.value, m.value, s.value))
      else None
  }

  /** A padded field reads back as its number. */
  lemma FieldReadsBack(n: nat)
    ensures |Field(n)| >= 2 && AllDecimalDigits(Field(n))
    ensures ParseField(Field(n)) == Some(n)
  {
    var s := NatToString(n);
    DigitsValueOfNatToString(n);
    if |s| < 2 {
      assert Field(n) == "0" + s;
      DigitsValueLeadingZero(s);
    } else {
      assert Field(n) == s;
    }
  }

  lemma FieldHasNoColon(n: nat)
    ensures ':' !in Field(n)
  {
    FieldReadsBack(n);
  }

  lemma SplitThree(a: string, b: string, c: string, sep: char)
    requires sep !in a && sep !in b && sep !in c
    ensures Split(a + [sep] + b + [sep] + c, sep) == [a, b, c]
  {
    assert a + [sep] + b + [sep] + c == a + [sep] + (b + [sep] + c);
    SplitAtFirstSeparator(a, sep, b + [sep] + c);
    SplitAtFirstSeparator(b, sep, c);
    SplitWithoutSeparator(c, sep);
  }

  /** The rendered display splits at its colons into exactly the three fields. */
  lemma RenderSplits(hrs: nat, mins: nat, secs: nat)
    ensures Split(Render(hrs, mins, secs), ':') == [Field(hrs), Field(mins), Field(secs)]
  {
    FieldHasNoColon(hrs);
    FieldHasNoColon(mins);
    FieldHasNoColon(secs);
    SplitThree(Field(hrs), Field(mins), Field(secs), ':');
  }

  /** Three rendered fields read back as the same three numbers. */
  lemma RenderReadsBack(hrs: nat, mins: nat, secs: nat)
    ensures ParseClock(Render(hrs, mins, secs)) == Some(ClockReading(hrs, mins, secs))
  {
    RenderSplits(hrs, mins, secs);
    FieldReadsBack(hrs);
    FieldReadsBack(mins);
    FieldReadsBack(secs);
  }

  /** Whole seconds split into hours, minutes and seconds and back. */
  lemma SplitSeconds(totalSec: nat)
    ensures (totalSec / 3600) * 3600 + ((totalSec % 3600) / 60) * 60 + totalSec % 60 == totalSec
    ensures (totalSec % 3600) / 60 < 60
  {
    var r := totalSec % 3600;
    assert r == (r / 60) * 60 + r % 60;
    assert totalSec % 60 == r % 60 by {
      var q := totalSec / 3600;
      assert totalSec == q * 3600 + r;
      assert totalSec == (q * 60 + r / 60) * 60 + r % 60;
    }
  }

  /** For a non-negative time the display reads back as hours, minutes under 60
      and seconds under 60 that add up to the whole seconds in `ms`. */
  lemma FormatTimeReadsBack(ms: int)
    requires ms >= 0
    ensures var r := ParseClock(FormatTime(ms));
            && r.Some?
            && r.value.hours * 3600 + r.value.minutes * 60 + r.value.seconds == ms / 1000
            && r.value.minutes < 60
            && r.value.seconds < 60
  {
    var totalSec := ms / 1000;
    RenderReadsBack(totalSec / 3600, (totalSec % 3600) / 60, totalSec % 60);
    SplitSeconds(totalSec);
  }

  /** For a non-negative time, `formatTime` is Euclidean arithmetic rendered. */
  lemma FormatTimeOfNonNegative(ms: int)
    requires ms >= 0
    ensures var totalSec := ms / 1000;
            FormatTime(ms) == Render(totalSec / 3600, (totalSec % 3600) / 60, totalSec % 60)
  {
    var totalSec := ms / 1000;
    assert totalSec >= 0;
    assert TruncRem(totalSec, 3600) == totalSec % 3600;
    assert TruncRem(totalSec, 60) == totalSec % 60;
  }

  /** "HH:MM:SS" with at least two hour digits: two colons in fixed places
      from the end and decimal digits everywhere else. */
  predicate IsClockText(t: string) {
    && |t| >= 8
    && t[|t| - 3] == ':' && t[|t| - 6] == ':'
    && forall i | 0 <= i < |t| && i != |t| - 3 && i != |t| - 6 :: IsDecimalDigit(t[i])
  }

  /** Three digit strings joined by colons: colons in fixed places from the end. */
  lemma JoinedShape(a: string, b: string, c: string)
    requires |a| >= 2 && |b| == 2 && |c| == 2
    requires AllDecimalDigits(a) && AllDecimalDigits(b) && AllDecimalDigits(c)
    ensures IsClockText(a + ":" + b + ":" + c)
  {
    var t := a + ":" + b + ":" + c;
    forall i | 0 <= i < |t| && i != |t| - 3 && i != |t| - 6
      ensures IsDecimalDigit(t[i])
    {
      if i < |a| {
        assert t[i] == a[i];
      } else if i < |a| + 3 {
        assert t[i] == b[i - |a| - 1];
      } else {
        assert t[i] == c[i - |a| - 4];
      }
    }
  }

  /** A number below 100 renders as exactly two digits. */
  lemma SmallFieldWidth(n: nat)
    requires n < 100
    ensures |Field(n)| == 2
  {
    if n >= 10 {
      assert NatToString(n) == NatToString(n / 10) + [DigitChar(n % 10)];
    }
  }

  /** Render's colons sit in fixed places from the end when minutes and
      seconds are below 100; every other character is a digit. */
  lemma RenderShape(hrs: nat, mins: nat, secs: nat)
    requires mins < 100 && secs < 100
    ensures IsClockText(Render(hrs, mins, secs))
  {
    var h, m, s := Field(hrs), Field(mins), Field(secs);
    FieldReadsBack(hrs);
    FieldReadsBack(mins);
    FieldReadsBack(secs);
    SmallFieldWidth(mins);
    SmallFieldWidth(secs);
    JoinedShape(h, m, s);
  }

  /** For a non-negative time the display is "HH:MM:SS": two colons in fixed
      places from the end, digits everywhere else, at least two per field. */
  lemma FormatTimeShape(ms: int)
    requires ms >= 0
    ensures IsClockText(FormatTime(ms))
  {
    var totalSec := ms / 1000;
    FormatTimeOfNonNegative(ms);
    SplitSeconds(totalSec);
    RenderShape(totalSec / 3600, (totalSec % 3600) / 60, totalSec % 60);
  }

  lemma DigitField(d: nat)
    requires d < 10
    ensures Field(d) == ['0', DigitChar(d)]
  {
    assert NatToString(d) == [DigitChar(d)];
  }

  /** The display of any non-negative time whose whole seconds split as
      `hrs`:`mins`:`secs`. */
  lemma FormatTimeOfFields(ms: int, hrs: nat, mins: nat, secs: nat)
    requires ms >= 0 && mins < 60 && secs < 60
    requires ms / 1000 == hrs * 3600 + mins * 60 + secs
    ensures FormatTime(ms) == Render(hrs, mins, secs)
  {
    FormatTimeOfNonNegative(ms);
    ClockDivision(ms / 1000, hrs, mins, secs);
  }

  /** Whole seconds split back into the hours, minutes and seconds they were built from. */
  lemma ClockDivision(t: int, hrs: int, mins: int, secs: int)
    requires 0 <= mins < 60 && 0 <= secs < 60 && t == hrs * 3600 + mins * 60 + secs
    ensures t / 3600 == hrs && (t % 3600) / 60 == mins && t % 60 == secs
  {
    var r := mins * 60 + secs;
    assert 0 <= r < 3600 && t == hrs * 3600 + r;
    assert t / 3600 == hrs;
    assert t % 3600 == r;
    assert r / 60 == mins;
    assert t == (hrs * 60 + mins) * 60 + secs;
    assert t % 60 == secs;
  }

  lemma FieldsOfSessionStart()
    ensures Field(0) == "00" && Field(3) == "03" && Field(4) == "04"
  {
    DigitField(0);
    DigitField(3);
    DigitField(4);
  }

  lemma FieldFiftyNine()
    ensures Field(59) == "59"
  {
    assert NatToString(59) == NatToString(5) + [DigitChar(9)];
    assert NatToString(5) == [DigitChar(5)];
  }

  /** Two-character fields joined with colons, character by character. */
  lemma JoinPairs(a: string, b: string, c: string)
    requires |a| == 2 && |b| == 2 && |c| == 2
    ensures a + ":" + b + ":" + c == [a[0], a[1], ':', b[0], b[1], ':', c[0], c[1]]
  {
  }

  lemma RenderedSessionStart()
    ensures Render(4, 0, 0) == "04:00:00"
    ensures Render(3, 59, 59) == "03:59:59"
  {
    FieldsOfSessionStart();
    FieldFiftyNine();
    JoinPairs("04", "00", "00");
    JoinPairs("03", "59", "59");
  }
}
