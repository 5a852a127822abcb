/** Cue blocks shared by the WebVTT and SubRip documents: a decimal index
    line, a timing line `start --> end`, a text line and a blank line. A
    decoder reads a body of cue blocks back, which pins down what the
    renderers emit. */
module Cues {
  import opened Wrappers
  import opened Strings
  import opened Decimal
  import opened Timecode

  /** One caption: its number, its time span and its text. */
  datatype Cue = Cue(index: nat, start: Millis, end: Millis, text: string)

  /** WebVTT timecodes use `.` before the milliseconds, SubRip ones `,`. */
  datatype Style = Vtt | Srt {
    function Sep(): char {
      match this
      case Vtt => '.'
      case Srt => ','
    }
  }

  /** The timecode of an offset in the given style. */
  function Stamp(ms: Millis, style: Style): (s: string)
    ensures IsTimecodeShape(s, style.Sep())
  {
    match style
    case Vtt => MakeTime(ms)
    case Srt => SrtTime(ms)
  }

  /** The separator between the two timecodes of a timing line. */
  const Arrow: string := " --> "

  /** `${i}\n${start} --> ${end}\n${text}\n\n`. */
  function Block(c: Cue, style: Style): (b: string)
    ensures |b| == |NatToString(c.index)| + |c.text| + 33
    ensures b[|NatToString(c.index)|] == '\n' && b[|b| - 2..] == "\n\n"
  {
    NatToString(c.index) + "\n" + Stamp(c.start, style) + Arrow + Stamp(c.end, style) + "\n" + c.text + "\n\n"
  }

  /** The cue blocks one after another. */
  function Serialize(cues: seq<Cue>, style: Style): string
  {
    if |cues| == 0 then "" else Block(cues[0], style) + Serialize(cues[1..], style)
  }

  /** Cue `k` carries index `first + k`. */
  predicate NumberedFrom(cues: seq<Cue>, first: nat) {
    forall k :: 0 <= k < |cues| ==> cues[k].index == first + k
  }

  /** A cue as its block shows it: times reduced to a time of day. */
  function TimeOfDay(c: Cue): Cue
  {
    c.(start := c.start % DayMillis, end := c.end % DayMillis)
  }

  /** Reads the lines of a cue body back into cues; `None` on anything that
      is not a sequence of blocks followed by the final empty line. */
  function Decode(lines: seq<string>, style: Style): (r: Option<seq<Cue>>)
    decreases |lines|
  {
    if lines == [""] then Some([])
    else if |lines| >= 5 && IsCanonical(lines[0]) && |lines[1]| == 29
         && lines[1][12..17] == Arrow && lines[3] == "" then
      var start :- ParseTime(lines[1][..12], style.Sep());
      var end :- ParseTime(lines[1][17..], style.Sep());
      var rest :- Decode(lines[4..], style);
      Some([Cue(ParseDigits(lines[0]), start, end, lines[2])] + rest)
    else None
  }

  /** A timecode has no line break. */
  lemma TimecodeOneLine(s: string, sep: char)
    requires IsTimecodeShape(s, sep) && sep != '\n'
    ensures '\n' !in s
  {
    forall k | 0 <= k < 12 ensures s[k] != '\n' {
      if k != 2 && k != 5 && k != 8 { assert IsDigit(s[k]); }
    }
  }

  /** A timecode reads back as the time of day of its offset. */
  lemma StampParse(ms: Millis, style: Style)
    ensures ParseTime(Stamp(ms, style), style.Sep()) == Some(ms % DayMillis)
  {
    match style
    case Vtt => ParseMakeTime(ms);
    case Srt => ParseSrtTime(ms);
  }

  /** The four lines of one block come first in the lines of a body. */
  lemma BlockLines(c: Cue, style: Style, rest: string)
    requires '\n' !in c.text
    ensures Lines(Block(c, style) + rest)
         == [NatToString(c.index), Stamp(c.start, style) + Arrow + Stamp(c.end, style), c.text, ""] + Lines(rest)
  {
    var idx := NatToString(c.index);
    assert '\n' !in idx by {
      forall k | 0 <= k < |idx| ensures idx[k] != '\n' { assert IsDigit(idx[k]); }
    }
    TimecodeOneLine(Stamp(c.start, style), style.Sep());
    TimecodeOneLine(Stamp(c.end, style), style.Sep());
    LinesOfBlock(idx, Stamp(c.start, style), Stamp(c.end, style), c.text, rest);
  }

  lemma LinesOfBlock(idx: string, a: string, b: string, text: string, rest: string)
    requires '\n' !in idx && '\n' !in a && '\n' !in b && '\n' !in text
    requires |a| == 12
    ensures Lines(idx + "\n" + a + Arrow + b + "\n" + text + "\n\n" + rest)
         == [idx, a + Arrow + b, text, ""] + Lines(rest)
  {
    var timing := a + Arrow + b;
    NoBreakConcat(a + Arrow, b);
    BlockRegroup(idx, a, b, text, rest);
    LinesCons(idx, timing + "\n" + (text + "\n" + ("" + "\n" + rest)));
    LinesCons(timing, text + "\n" + ("" + "\n" + rest));
    LinesCons(text, "" + "\n" + rest);
    LinesCons("", rest);
  }

  lemma NoBreakConcat(x: string, y: string)
    requires '\n' !in x && '\n' !in y
    ensures '\n' !in x + y
  {
  }

  lemma BlockRegroup(idx: string, a: string, b: string, text: string, rest: string)
    ensures idx + "\n" + a + Arrow + b + "\n" + text + "\n\n" + rest
         == idx + "\n" + (a + Arrow + b + "\n" + (text + "\n" + ("" + "\n" + rest)))
  {
  }

  /** A timing line splits back into its two timecodes. */
  lemma TimingFields(a: string, b: string)
    requires |a| == 12 && |b| == 12
    ensures var t := a + Arrow + b;
      |t| == 29 && t[..12] == a && t[12..17] == Arrow && t[17..] == b
  {
  }

  /** Decoding the lines of a serialized body gives the cues back, each at
      its time of day. */
  lemma {:induction false} DecodeSerialize(cues: seq<Cue>, style: Style)
    requires forall k :: 0 <= k < |cues| ==> '\n' !in cues[k].text
    ensures Decode(Lines(Serialize(cues, style)), style).Some?
    ensures var d := Decode(Lines(Serialize(cues, style)), style).value;
      |d| == |cues| && forall k :: 0 <= k < |cues| ==> d[k] == TimeOfDay(cues[k])
    decreases |cues|
  {
    if |cues| == 0 {
      assert Lines("") == [""];
    } else {
      var c := cues[0];
      BlockLines(c, style, Serialize(cues[1..], style));
      DecodeSerialize(cues[1..], style);
      DecodeBlock(c, style, Lines(Serialize(cues[1..], style)));
    }
  }

  /** One block in front of decodable lines decodes to its cue in front. */
  lemma DecodeBlock(c: Cue, style: Style, more: seq<string>)
    requires '\n' !in c.text && |more| >= 1
    requires Decode(more, style).Some?
    ensures var lines := [NatToString(c.index), Stamp(c.start, style) + Arrow + Stamp(c.end, style), c.text, ""] + more;
      Decode(lines, style) == Some([TimeOfDay(c)] + Decode(more, style).value)
  {
    var a := Stamp(c.start, style);
    var b := Stamp(c.end, style);
    StampParse(c.start, style);
    StampParse(c.end, style);
    ParseNatToString(c.index);
    DecodeLines(NatToString(c.index), a, b, c.text, more, style);
  }

  /** Four lines of a block in front of decodable lines. */
  lemma DecodeLines(idx: string, a: string, b: string, text: string, more: seq<string>, style: Style)
    requires IsCanonical(idx) && |a| == 12 && |b| == 12 && |more| >= 1
    requires ParseTime(a, style.Sep()).Some? && ParseTime(b, style.Sep()).Some?
    requires Decode(more, style).Some?
    ensures Decode([idx, a + Arrow + b, text, ""] + more, style)
         == Some([Cue(ParseDigits(idx), ParseTime(a, style.Sep()).value, ParseTime(b, style.Sep()).value, text)]
                 + Decode(more, style).value)
  {
    var lines := [idx, a + Arrow + b, text, ""] + more;
    TimingFields(a, b);
    assert lines[4..] == more;
  }

  /** The body from cue `i` on starts with block `i`. */
  lemma SerializeFrom(cues: seq<Cue>, i: nat, style: Style)
    requires i < |cues|
    ensures Serialize(cues[i..], style) == Block(cues[i], style) + Serialize(cues[i + 1..], style)
  {
    assert cues[i..][1..] == cues[i + 1..];
  }

  /** A body that starts with cue `c` starts with its block. */
  lemma SerializeCons(c: Cue, rest: seq<Cue>, style: Style)
    ensures Serialize([c] + rest, style) == Block(c, style) + Serialize(rest, style)
  {
    assert ([c] + rest)[1..] == rest;
  }

  /** Serializing a concatenation concatenates the bodies. */
  lemma {:induction false} SerializeAppend(a: seq<Cue>, b: seq<Cue>, style: Style)
    ensures Serialize(a + b, style) == Serialize(a, style) + Serialize(b, style)
    decreases |a|
  {
    if |a| == 0 {
      assert a + b == b;
    } else {
      assert (a + b)[0] == a[0];
      assert (a + b)[1..] == a[1..] + b;
      SerializeAppend(a[1..], b, style);
    }
  }
}
