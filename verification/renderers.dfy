/** The four output renderers. Each is the program's loop written as a
    recursive function that appends to an accumulator, with the loop
    counters as parameters; each is proved equal to a structured reference
    (the texts one per line, or a cue list printed in a timecode style). */
module Renderers {
  import opened Wrappers
  import opened Strings
  import opened Decimal
  import opened Timecode
  import opened Tokens
  import opened Transcript
  import opened Cues

  /** The WebVTT file header and the blank line after it. */
  const VttHeader: string := "WEBVTT\n\n"

  // ---------------------------------------------------------------- txt

  /** Reference text document: every text followed by a line break. */
  function TxtBody(texts: seq<string>): string
  {
    if |texts| == 0 then "" else texts[0] + "\n" + TxtBody(texts[1..])
  }

  /** The txt loop: `output += `${text}\n`` for utterance `i` onwards. */
  function TxtLoop(texts: seq<string>, i: nat, acc: string): (r: string)
    requires i <= |texts|
    ensures r == acc + TxtBody(texts[i..])
    decreases |texts| - i
  {
    if i == |texts| then acc
    else
      assert texts[i..][1..] == texts[i + 1..];
      TxtLoop(texts, i + 1, acc + texts[i] + "\n")
  }

  /** Reading the text document line by line gives the texts back, and one
      final empty line: exactly one line break per utterance. */
  lemma {:induction false} TxtLines(texts: seq<string>)
    requires forall k :: 0 <= k < |texts| ==> '\n' !in texts[k]
    ensures Lines(TxtBody(texts)) == texts + [""]
    decreases |texts|
  {
    if |texts| == 0 {
      assert Lines("") == [""];
    } else {
      LinesCons(texts[0], TxtBody(texts[1..]));
      TxtLines(texts[1..]);
      assert texts == [texts[0]] + texts[1..];
    }
  }

  // ---------------------------------------------------------- vtt / srt

  /** Reference cue list of the vtt and srt formats: cue `k` is numbered
      `k + 1`, spans utterance `k`'s own start and end, and carries text `k`. */
  function UtteranceCues(us: seq<Utterance>, texts: seq<string>): seq<Cue>
    requires |texts| == |us|
  {
    seq(|us|, k requires 0 <= k < |us| => Cue(k + 1, us[k].start, us[k].end, texts[k]))
  }

  /** The vtt loop from utterance `i` onwards: `${i + 1}`, the two
      `makeTime` stamps and the text. */
  function VttLoop(us: seq<Utterance>, texts: seq<string>, i: nat, acc: string): (r: string)
    requires |texts| == |us| && i <= |us|
    ensures r == acc + Serialize(UtteranceCues(us, texts)[i..], Vtt)
    decreases |us| - i
  {
    if i == |us| then acc
    else
      var r := VttLoop(us, texts, i + 1, acc + Block(Cue(i + 1, us[i].start, us[i].end, texts[i]), Vtt));
      CueLoopStep(UtteranceCues(us, texts), i, Vtt, acc, r);
      r
  }

  /** The srt loop from utterance `i` onwards: as vtt, with the stamps'
      `.` replaced by `,`. */
  function SrtLoop(us: seq<Utterance>, texts: seq<string>, i: nat, acc: string): (r: string)
    requires |texts| == |us| && i <= |us|
    ensures r == acc + Serialize(UtteranceCues(us, texts)[i..], Srt)
    decreases |us| - i
  {
    if i == |us| then acc
    else
      var r := SrtLoop(us, texts, i + 1, acc + Block(Cue(i + 1, us[i].start, us[i].end, texts[i]), Srt));
      CueLoopStep(UtteranceCues(us, texts), i, Srt, acc, r);
      r
  }

  /** One pass of the vtt or srt loop appends the block of cue `i`. */
  lemma CueLoopStep(cues: seq<Cue>, i: nat, style: Style, acc: string, r: string)
    requires i < |cues|
    requires r == acc + Block(cues[i], style) + Serialize(cues[i + 1..], style)
    ensures r == acc + Serialize(cues[i..], style)
  {
    SerializeFrom(cues, i, style);
    Regroup(acc, Block(cues[i], style), Serialize(cues[i + 1..], style), Serialize(cues[i..], style));
  }

  // --------------------------------------------------------------- vtt+

  /** Cue `i` of the vtt+ format: the time of word `j` and the transcript
      tokens with token `j` bolded. */
  function WordCue(ts: seq<string>, w: Word, j: nat, i: nat): Cue
  {
    Cue(i, w.start, w.end, Highlight(ts, j))
  }

  /** Reference cues of one utterance's words from word `j` on, numbered
      from `i`. */
  function WordCues(ts: seq<string>, words: seq<Word>, j: nat, i: nat): seq<Cue>
    requires j <= |words|
    decreases |words| - j
  {
    if j == |words| then []
    else [WordCue(ts, words[j], j, i)] + WordCues(ts, words, j + 1, i + 1)
  }

  /** The caption tokens of every utterance: its transcript split on
      white space, as `utterance.transcript.split(/\s+/)`. */
  function Tokenize(us: seq<Utterance>): (tss: seq<seq<string>>)
    ensures |tss| == |us|
    ensures forall k :: 0 <= k < |us| ==> tss[k] == WsSplit(us[k].transcript)
  {
    seq(|us|, k requires 0 <= k < |us| => WsSplit(us[k].transcript))
  }

  /** Reference cue list of the vtt+ format over utterances `us` with
      caption tokens `tss`, numbered from `first` with one counter running
      across utterance boundaries. */
  function PlusCues(us: seq<Utterance>, tss: seq<seq<string>>, first: nat): seq<Cue>
    requires |tss| == |us|
  {
    if |us| == 0 then []
    else WordCues(tss[0], us[0].words, 0, first) + PlusCues(us[1..], tss[1..], first + |us[0].words|)
  }

  /** The inner vtt+ loop over one utterance's words from word `j` on, with
      the global cue counter `i`; returns the output and the counter after. */
  function PlusWordLoop(ts: seq<string>, words: seq<Word>, j: nat, i: nat, acc: string): (r: (string, nat))
    requires j <= |words|
    ensures r.1 == i + (|words| - j)
    ensures r.0 == acc + Serialize(WordCues(ts, words, j, i), Vtt)
    decreases |words| - j
  {
    if j == |words| then (acc, i)
    else
      var r := PlusWordLoop(ts, words, j + 1, i + 1, acc + Block(Cue(i, words[j].start, words[j].end, Highlight(ts, j)), Vtt));
      PlusWordStep(ts, words, j, i, acc, r.0);
      r
  }

  /** One pass of the inner loop appends the block of word `j`. */
  lemma PlusWordStep(ts: seq<string>, words: seq<Word>, j: nat, i: nat, acc: string, r: string)
    requires j < |words|
    requires r == acc + Block(Cue(i, words[j].start, words[j].end, Highlight(ts, j)), Vtt)
                  + Serialize(WordCues(ts, words, j + 1, i + 1), Vtt)
    ensures r == acc + Serialize(WordCues(ts, words, j, i), Vtt)
  {
    var c := WordCue(ts, words[j], j, i);
    var rest := WordCues(ts, words, j + 1, i + 1);
    WordCuesUnfold(ts, words, j, i);
    SerializeCons(c, rest, Vtt);
    Regroup(acc, Block(c, Vtt), Serialize(rest, Vtt), Serialize(WordCues(ts, words, j, i), Vtt));
  }

  lemma WordCuesUnfold(ts: seq<string>, words: seq<Word>, j: nat, i: nat)
    requires j < |words|
    ensures WordCues(ts, words, j, i) == [WordCue(ts, words[j], j, i)] + WordCues(ts, words, j + 1, i + 1)
  {
  }

  lemma Regroup(a: string, b: string, c: string, d: string)
    requires d == b + c
    ensures a + b + c == a + d
  {
  }

  /** The outer vtt+ loop over the utterances, counter `i` threaded through. */
  function PlusLoop(us: seq<Utterance>, i: nat, acc: string): (r: string)
    ensures r == acc + Serialize(PlusCues(us, Tokenize(us), i), Vtt)
  {
    if |us| == 0 then acc
    else
      var step := PlusWordLoop(WsSplit(us[0].transcript), us[0].words, 0, i, acc);
      var r := PlusLoop(us[1..], step.1, step.0);
      PlusLoopStep(us, i, acc, step.0, step.1, r);
      r
  }

  /** One pass of the outer loop: the words of the first utterance, then
      the rest of the utterances from the counter the words left behind. */
  lemma PlusLoopStep(us: seq<Utterance>, i: nat, acc: string, mid: string, next: nat, r: string)
    requires |us| > 0
    requires next == i + |us[0].words|
    requires mid == acc + Serialize(WordCues(WsSplit(us[0].transcript), us[0].words, 0, i), Vtt)
    requires r == mid + Serialize(PlusCues(us[1..], Tokenize(us[1..]), next), Vtt)
    ensures r == acc + Serialize(PlusCues(us, Tokenize(us), i), Vtt)
  {
    var tss := Tokenize(us);
    TokenizeTail(us);
    PlusSerialize(us, tss, i, next);
    Regroup(acc, Serialize(WordCues(tss[0], us[0].words, 0, i), Vtt),
            Serialize(PlusCues(us[1..], tss[1..], next), Vtt), Serialize(PlusCues(us, tss, i), Vtt));
  }

  lemma TokenizeTail(us: seq<Utterance>)
    requires |us| > 0
    ensures Tokenize(us)[0] == WsSplit(us[0].transcript)
    ensures Tokenize(us)[1..] == Tokenize(us[1..])
  {
    assert forall k :: 0 <= k < |us| - 1 ==> Tokenize(us)[1..][k] == Tokenize(us)[k + 1];
  }

  /** The vtt+ body of a non-empty utterance list: the first utterance's
      word cues, then the rest numbered on from the counter after them. */
  lemma PlusSerialize(us: seq<Utterance>, tss: seq<seq<string>>, i: nat, next: nat)
    requires |tss| == |us| > 0 && next == i + |us[0].words|
    ensures Serialize(PlusCues(us, tss, i), Vtt)
         == Serialize(WordCues(tss[0], us[0].words, 0, i), Vtt) + Serialize(PlusCues(us[1..], tss[1..], next), Vtt)
  {
    PlusCuesCons(us, tss, i, next);
    SerializeAppend(WordCues(tss[0], us[0].words, 0, i), PlusCues(us[1..], tss[1..], next), Vtt);
  }

  lemma PlusCuesCons(us: seq<Utterance>, tss: seq<seq<string>>, i: nat, next: nat)
    requires |tss| == |us| > 0 && next == i + |us[0].words|
    ensures PlusCues(us, tss, i) == WordCues(tss[0], us[0].words, 0, i) + PlusCues(us[1..], tss[1..], next)
  {
    PlusCuesUnfold(us, tss, i);
  }

  lemma PlusCuesUnfold(us: seq<Utterance>, tss: seq<seq<string>>, i: nat)
    requires |tss| == |us| > 0
    ensures PlusCues(us, tss, i) == WordCues(tss[0], us[0].words, 0, i) + PlusCues(us[1..], tss[1..], i + |us[0].words|)
  {
  }
}
