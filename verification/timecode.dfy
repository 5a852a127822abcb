/** The timecode formatter `makeTime`: a media offset becomes the
    `HH:MM:SS.mmm` time-of-day slice (characters 11 to 22) of the ISO 8601
    string of the instant that many milliseconds after the Unix epoch. This
    is the cue-timing form of a WebVTT timestamp (W3C WebVTT, section 4.1
    "WebVTT file structure"); the SubRip variant uses a comma. */
module Timecode {
  import opened Wrappers
  import opened Decimal
  import Strings

  const SecondMillis: nat := 1000
  const MinuteMillis: nat := 60000
  const HourMillis: nat := 3600000
  const DayMillis: nat := 86400000

  /** Milliseconds from the epoch to 10000-01-01T00:00:00Z. From there on
      `toISOString` switches to its six-digit extended-year form, which
      shifts the slice the program takes. */
  const MaxIsoMillis: nat := 253402300800000

  /** A media offset in whole milliseconds, `trunc(seconds * 1000)`. */
  type Millis = ms: nat | ms < MaxIsoMillis

  /** Two decimal digits, zero padded. */
  function Pad2(n: nat): (s: string)
    requires n < 100
    ensures |s| == 2 && AllDigits(s)
  {
    [DigitChar(n / 10), DigitChar(n % 10)]
  }

  /** Three decimal digits, zero padded. */
  function Pad3(n: nat): (s: string)
    requires n < 1000
    ensures |s| == 3 && AllDigits(s)
  {
    [DigitChar(n / 100), DigitChar(n / 10 % 10), DigitChar(n % 10)]
  }

  /** Shape of a timecode: two-digit hours, minutes and seconds separated by
      `:`, then `sep` and three digits of milliseconds. */
  predicate IsTimecodeShape(s: string, sep: char) {
    && |s| == 12
    && s[2] == ':' && s[5] == ':' && s[8] == sep
    && forall k :: 0 <= k < 12 && k != 2 && k != 5 && k != 8 ==> IsDigit(s[k])
  }

  /** Hours, minutes, seconds and milliseconds fields joined into a timecode. */
  function Assemble(hh: string, mm: string, ss: string, sep: char, fff: string): string
  {
    hh + ":" + mm + ":" + ss + [sep] + fff
  }

  /** `makeTime(t)` for `t` seconds, given as `ms = trunc(t * 1000)`. */
  function MakeTime(ms: nat): (s: string)
    requires ms < MaxIsoMillis
    ensures IsTimecodeShape(s, '.')
  {
    var d := ms % DayMillis;
    var s := Assemble(Pad2(d / HourMillis), Pad2(d / MinuteMillis % 60), Pad2(d / SecondMillis % 60), '.', Pad3(d % SecondMillis));
    AssembleShape(Pad2(d / HourMillis), Pad2(d / MinuteMillis % 60), Pad2(d / SecondMillis % 60), '.', Pad3(d % SecondMillis));
    s
  }

  /** Where each field of an assembled timecode sits. */
  lemma AssembleShape(hh: string, mm: string, ss: string, sep: char, fff: string)
    requires |hh| == 2 && |mm| == 2 && |ss| == 2 && |fff| == 3
    ensures var s := Assemble(hh, mm, ss, sep, fff);
      && |s| == 12
      && s[0] == hh[0] && s[1] == hh[1] && s[2] == ':'
      && s[3] == mm[0] && s[4] == mm[1] && s[5] == ':'
      && s[6] == ss[0] && s[7] == ss[1] && s[8] == sep
      && s[9] == fff[0] && s[10] == fff[1] && s[11] == fff[2]
  {
  }

  /** A string of timecode shape is the assembly of its own fields. */
  lemma AssembleFields(s: string, sep: char)
    requires IsTimecodeShape(s, sep)
    ensures s == Assemble(s[0..2], s[3..5], s[6..8], sep, s[9..12])
  {
    var t := Assemble(s[0..2], s[3..5], s[6..8], sep, s[9..12]);
    AssembleShape(s[0..2], s[3..5], s[6..8], sep, s[9..12]);
    assert forall k :: 0 <= k < 12 ==> t[k] == s[k];
  }

  /** The SubRip timecode: `makeTime(t).replace(".", ",")`. */
  function SrtTime(ms: nat): (s: string)
    requires ms < MaxIsoMillis
    ensures IsTimecodeShape(s, ',')
    ensures s == MakeTime(ms)[8 := ',']
  {
    var t := MakeTime(ms);
    assert Strings.IndexOf(t, '.') == 8;
    Strings.ReplaceFirst(t, '.', ',')
  }

  function Digits2(s: string, at: nat): nat
    requires at + 2 <= |s| && IsDigit(s[at]) && IsDigit(s[at + 1])
  {
    DigitValue(s[at]) * 10 + DigitValue(s[at + 1])
  }

  /** Reads a timecode back into milliseconds since midnight; `None` when the
      string is not a timecode or a field is out of range. */
  function ParseTime(s: string, sep: char): (r: Option<nat>)
    ensures r.Some? ==> r.value < DayMillis
  {
    if !IsTimecodeShape(s, sep) then None
    else
      var h := Digits2(s, 0);
      var m := Digits2(s, 3);
      var sec := Digits2(s, 6);
      var f := DigitValue(s[9]) * 100 + DigitValue(s[10]) * 10 + DigitValue(s[11]);
      if h < 24 && m < 60 && sec < 60 then Some(h * HourMillis + m * MinuteMillis + sec * SecondMillis + f)
      else None
  }

  /** Reading a formatted offset gives the offset modulo one day: the hours
      wrap at 24 because the slice is a time of day. */
  lemma ParseMakeTime(ms: nat)
    requires ms < MaxIsoMillis
    ensures ParseTime(MakeTime(ms), '.') == Some(ms % DayMillis)
  {
    var d := ms % DayMillis;
    var h := d / HourMillis;
    var m := d / MinuteMillis % 60;
    var sec := d / SecondMillis % 60;
    var f := d % SecondMillis;
    DayDecomposition(d);
    var s := MakeTime(ms);
    AssembleShape(Pad2(h), Pad2(m), Pad2(sec), '.', Pad3(f));
    Pad2Value(h);
    Pad2Value(m);
    Pad2Value(sec);
    Pad3Value(f);
    assert Digits2(s, 0) == h;
    assert Digits2(s, 3) == m;
    assert Digits2(s, 6) == sec;
    assert DigitValue(s[9]) * 100 + DigitValue(s[10]) * 10 + DigitValue(s[11]) == f;
  }

  /** Every timecode that reads back is exactly what `MakeTime` prints for
      the offset it denotes: no other string denotes the same instant. */
  lemma MakeTimeParse(s: string, n: nat)
    requires ParseTime(s, '.') == Some(n)
    ensures MakeTime(n) == s
  {
    var h := Digits2(s, 0);
    var m := Digits2(s, 3);
    var sec := Digits2(s, 6);
    var f := DigitValue(s[9]) * 100 + DigitValue(s[10]) * 10 + DigitValue(s[11]);
    assert n == h * HourMillis + m * MinuteMillis + sec * SecondMillis + f;
    MakeTimeFields(h, m, sec, f);
    FieldsOfTimecode(s, '.');
  }

  /** `MakeTime` of an offset within one day prints its own fields. */
  lemma MakeTimeFields(h: nat, m: nat, sec: nat, f: nat)
    requires h < 24 && m < 60 && sec < 60 && f < 1000
    ensures MakeTime(h * HourMillis + m * MinuteMillis + sec * SecondMillis + f)
         == Assemble(Pad2(h), Pad2(m), Pad2(sec), '.', Pad3(f))
  {
    Recompose(h, m, sec, f);
  }

  /** A timecode is the assembly of its fields' values, printed again. */
  lemma FieldsOfTimecode(s: string, sep: char)
    requires IsTimecodeShape(s, sep)
    ensures Assemble(Pad2(Digits2(s, 0)), Pad2(Digits2(s, 3)), Pad2(Digits2(s, 6)), sep,
                     Pad3(DigitValue(s[9]) * 100 + DigitValue(s[10]) * 10 + DigitValue(s[11]))) == s
  {
    Pad2Digits(s, 0);
    Pad2Digits(s, 3);
    Pad2Digits(s, 6);
    Pad3Digits(s, 9);
    AssembleFields(s, sep);
  }

  /** The SubRip timecode reads back the same way with a comma. */
  lemma ParseSrtTime(ms: nat)
    requires ms < MaxIsoMillis
    ensures ParseTime(SrtTime(ms), ',') == Some(ms % DayMillis)
  {
    ParseMakeTime(ms);
    var s := MakeTime(ms);
    var t := SrtTime(ms);
    assert Digits2(t, 0) == Digits2(s, 0);
    assert Digits2(t, 3) == Digits2(s, 3);
    assert Digits2(t, 6) == Digits2(s, 6);
  }

  lemma Pad2Value(n: nat)
    requires n < 100
    ensures Digits2(Pad2(n), 0) == n
  {
  }

  lemma Pad3Value(n: nat)
    requires n < 1000
    ensures var s := Pad3(n); DigitValue(s[0]) * 100 + DigitValue(s[1]) * 10 + DigitValue(s[2]) == n
  {
    var q := n / 10;
    assert q / 10 == n / 100;
    assert q == q / 10 * 10 + q % 10;
  }

  lemma Pad2Digits(s: string, at: nat)
    requires at + 2 <= |s| && IsDigit(s[at]) && IsDigit(s[at + 1])
    ensures Pad2(Digits2(s, at)) == s[at..at + 2]
  {
    var a := DigitValue(s[at]);
    var b := DigitValue(s[at + 1]);
    assert (a * 10 + b) / 10 == a && (a * 10 + b) % 10 == b;
    var p := Pad2(a * 10 + b);
    assert p[0] == s[at] && p[1] == s[at + 1];
  }

  lemma Pad3Digits(s: string, at: nat)
    requires at + 3 <= |s| && IsDigit(s[at]) && IsDigit(s[at + 1]) && IsDigit(s[at + 2])
    ensures Pad3(DigitValue(s[at]) * 100 + DigitValue(s[at + 1]) * 10 + DigitValue(s[at + 2])) == s[at..at + 3]
  {
    var a := DigitValue(s[at]);
    var b := DigitValue(s[at + 1]);
    var c := DigitValue(s[at + 2]);
    ThreeDigits(a, b, c);
    var p := Pad3(a * 100 + b * 10 + c);
    assert p[0] == s[at] && p[1] == s[at + 1] && p[2] == s[at + 2];
  }

  lemma ThreeDigits(a: nat, b: nat, c: nat)
    requires a < 10 && b < 10 && c < 10
    ensures var n := a * 100 + b * 10 + c; n / 100 == a && n / 10 % 10 == b && n % 10 == c
  {
    var n := a * 100 + b * 10 + c;
    assert n / 10 == a * 10 + b;
  }

  /** The four fields of a time of day recompose it. */
  lemma DayDecomposition(d: nat)
    requires d < DayMillis
    ensures d / HourMillis < 24
    ensures d == d / HourMillis * HourMillis + d / MinuteMillis % 60 * MinuteMillis
                 + d / SecondMillis % 60 * SecondMillis + d % SecondMillis
  {
    var secs := d / SecondMillis;
    var mins := d / MinuteMillis;
    assert mins == secs / 60;
    assert d / HourMillis == mins / 60;
  }

  /** Fields in range are recovered from the time of day they compose. */
  lemma Recompose(h: nat, m: nat, sec: nat, f: nat)
    requires h < 24 && m < 60 && sec < 60 && f < 1000
    ensures var d := h * HourMillis + m * MinuteMillis + sec * SecondMillis + f;
      && d < DayMillis && d % DayMillis == d
      && d / HourMillis == h && d / MinuteMillis % 60 == m
      && d / SecondMillis % 60 == sec && d % SecondMillis == f
  {
    var d := h * HourMillis + m * MinuteMillis + sec * SecondMillis + f;
    assert d / SecondMillis == h * 3600 + m * 60 + sec;
    assert d / MinuteMillis == h * 60 + m;
    assert d / HourMillis == h;
  }
}
