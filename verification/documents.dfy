/** What the four documents contain: each is read back line by line into
    its texts or cues, and the cue lists are characterised position by
    position. */
module Documents {
  import opened Wrappers
  import opened Strings
  import opened Decimal
  import opened Timecode
  import opened Tokens
  import opened Transcript
  import opened Cues
  import opened Renderers

  /** Reads a WebVTT document: the header line, a blank line, then cues. */
  function DecodeVtt(doc: string): Option<seq<Cue>>
  {
    var ls := Lines(doc);
    if |ls| >= 2 && ls[0] == "WEBVTT" && ls[1] == "" then Decode(ls[2..], Vtt) else None
  }

  /** Reads a SubRip document: cues only. */
  function DecodeSrt(doc: string): Option<seq<Cue>>
  {
    Decode(Lines(doc), Srt)
  }

  /** `d` holds the cues of `cues` at their times of day. */
  predicate ShowsCues(d: seq<Cue>, cues: seq<Cue>) {
    |d| == |cues| && forall k :: 0 <= k < |cues| ==> d[k] == TimeOfDay(cues[k])
  }

  /** A header in front of a body: the reader goes on with the body's lines. */
  lemma HeaderLines(body: string)
    ensures DecodeVtt(VttHeader + body) == Decode(Lines(body), Vtt)
  {
    var ls := Lines(VttHeader + body);
    assert VttHeader + body == "WEBVTT" + "\n" + ("" + "\n" + body);
    LinesCons("WEBVTT", "" + "\n" + body);
    LinesCons("", body);
    assert ls == ["WEBVTT", ""] + Lines(body);
    assert ls[2..] == Lines(body);
  }

  /** The txt document read line by line: the texts, in order, and a final
      empty line. An empty utterance list gives the empty document. */
  lemma TxtDocument(texts: seq<string>)
    requires forall k :: 0 <= k < |texts| ==> '\n' !in texts[k]
    ensures Lines(TxtLoop(texts, 0, "")) == texts + [""]
    ensures |texts| == 0 ==> TxtLoop(texts, 0, "") == ""
  {
    var body := TxtBody(texts);
    assert TxtLoop(texts, 0, "") == body by {
      assert texts[0..] == texts;
      assert "" + body == body;
    }
    TxtLines(texts);
  }

  /** The vtt document reads back as the header and exactly the utterance
      cues; with no utterances it is the header alone. */
  lemma VttDocument(us: seq<Utterance>, texts: seq<string>)
    requires |texts| == |us|
    requires forall k :: 0 <= k < |texts| ==> '\n' !in texts[k]
    ensures DecodeVtt(VttLoop(us, texts, 0, VttHeader)).Some?
    ensures ShowsCues(DecodeVtt(VttLoop(us, texts, 0, VttHeader)).value, UtteranceCues(us, texts))
    ensures |us| == 0 ==> VttLoop(us, texts, 0, VttHeader) == VttHeader
  {
    var cues := UtteranceCues(us, texts);
    assert cues[0..] == cues;
    VttBody(cues);
  }

  /** The srt document reads back as exactly the utterance cues; with no
      utterances it is empty. */
  lemma SrtDocument(us: seq<Utterance>, texts: seq<string>)
    requires |texts| == |us|
    requires forall k :: 0 <= k < |texts| ==> '\n' !in texts[k]
    ensures DecodeSrt(SrtLoop(us, texts, 0, "")).Some?
    ensures ShowsCues(DecodeSrt(SrtLoop(us, texts, 0, "")).value, UtteranceCues(us, texts))
    ensures |us| == 0 ==> SrtLoop(us, texts, 0, "") == ""
  {
    var cues := UtteranceCues(us, texts);
    assert cues[0..] == cues;
    assert "" + Serialize(cues, Srt) == Serialize(cues, Srt);
    DecodeSerialize(cues, Srt);
  }

  /** The srt and vtt documents differ only in their timecodes: each srt
      block is the vtt block of the same cue with both `.` turned into `,`. */
  lemma SrtBlockIsVttBlock(c: Cue)
    ensures Stamp(c.start, Srt) == Stamp(c.start, Vtt)[8 := ',']
    ensures Stamp(c.end, Srt) == Stamp(c.end, Vtt)[8 := ',']
    ensures Block(c, Srt) == NatToString(c.index) + "\n" + MakeTime(c.start)[8 := ','] + Arrow
                             + MakeTime(c.end)[8 := ','] + "\n" + c.text + "\n\n"
  {
  }

  /** Word cues from word `j` on: one per remaining word, numbered on from
      `i`, cue `k` for word `j + k`. */
  lemma WordCuesAt(ts: seq<string>, words: seq<Word>, j: nat, i: nat)
    requires j <= |words|
    ensures |WordCues(ts, words, j, i)| == |words| - j
    ensures forall k :: 0 <= k < |words| - j ==> WordCues(ts, words, j, i)[k] == WordCue(ts, words[j + k], j + k, i + k)
  {
    WordCuesLength(ts, words, j, i);
    forall k | 0 <= k < |words| - j ensures WordCues(ts, words, j, i)[k] == WordCue(ts, words[j + k], j + k, i + k) {
      WordCueAt(ts, words, j, i, k);
    }
  }

  lemma {:induction false} WordCuesLength(ts: seq<string>, words: seq<Word>, j: nat, i: nat)
    requires j <= |words|
    ensures |WordCues(ts, words, j, i)| == |words| - j
    decreases |words| - j
  {
    if j < |words| {
      WordCuesUnfold(ts, words, j, i);
      WordCuesLength(ts, words, j + 1, i + 1);
    }
  }

  lemma {:induction false} WordCueAt(ts: seq<string>, words: seq<Word>, j: nat, i: nat, k: nat)
    requires j + k < |words|
    ensures k < |WordCues(ts, words, j, i)|
    ensures WordCues(ts, words, j, i)[k] == WordCue(ts, words[j + k], j + k, i + k)
    decreases k
  {
    var head := [WordCue(ts, words[j], j, i)];
    var rest := WordCues(ts, words, j + 1, i + 1);
    WordCuesUnfold(ts, words, j, i);
    if k > 0 {
      WordCueAt(ts, words, j + 1, i + 1, k - 1);
      IndexAfter(head, rest, k - 1);
    }
  }

  /** The vtt+ cues: exactly one per word over all utterances. */
  lemma {:induction false} PlusCuesCount(us: seq<Utterance>, tss: seq<seq<string>>, first: nat)
    requires |tss| == |us|
    ensures |PlusCues(us, tss, first)| == TotalWords(us)
    decreases |us|
  {
    if |us| > 0 {
      PlusCuesUnfold(us, tss, first);
      WordCuesAt(tss[0], us[0].words, 0, first);
      PlusCuesCount(us[1..], tss[1..], first + |us[0].words|);
    }
  }

  /** The vtt+ cues of two utterance lists one after the other: the second
      list's cues are numbered on from where the first list's stop. */
  lemma {:induction false} PlusCuesAppend(a: seq<Utterance>, ta: seq<seq<string>>, b: seq<Utterance>, tb: seq<seq<string>>, first: nat)
    requires |ta| == |a| && |tb| == |b|
    ensures PlusCues(a + b, ta + tb, first) == PlusCues(a, ta, first) + PlusCues(b, tb, first + TotalWords(a))
    decreases |a|
  {
    if |a| == 0 {
      assert a + b == b;
      assert ta + tb == tb;
    } else {
      var next := first + |a[0].words|;
      var head := WordCues(ta[0], a[0].words, 0, first);
      var tail := PlusCues(b, tb, first + TotalWords(a));
      PlusCuesAppendHead(a, ta, b, tb, first);
      PlusCuesAppend(a[1..], ta[1..], b, tb, next);
      assert next + TotalWords(a[1..]) == first + TotalWords(a);
      PlusCuesUnfold(a, ta, first);
      Reassociate(PlusCues(a + b, ta + tb, first), head, PlusCues(a[1..] + b, ta[1..] + tb, next),
                  PlusCues(a[1..], ta[1..], next), tail, PlusCues(a, ta, first));
    }
  }

  lemma PlusCuesAppendHead(a: seq<Utterance>, ta: seq<seq<string>>, b: seq<Utterance>, tb: seq<seq<string>>, first: nat)
    requires |ta| == |a| > 0 && |tb| == |b|
    ensures PlusCues(a + b, ta + tb, first)
         == WordCues(ta[0], a[0].words, 0, first) + PlusCues(a[1..] + b, ta[1..] + tb, first + |a[0].words|)
  {
    assert (a + b)[0] == a[0];
    assert (a + b)[1..] == a[1..] + b;
    assert (ta + tb)[0] == ta[0];
    assert (ta + tb)[1..] == ta[1..] + tb;
    PlusCuesUnfold(a + b, ta + tb, first);
  }

  lemma Reassociate(whole: seq<Cue>, head: seq<Cue>, middle: seq<Cue>, p: seq<Cue>, q: seq<Cue>, left: seq<Cue>)
    requires whole == head + middle && middle == p + q && left == head + p
    ensures whole == left + q
  {
  }

  /** Word `j` of utterance `u` is cue number `first + w + j`, where `w`
      counts the words of the utterances before `u`: its time is the
      word's own, its text the utterance's tokens with token `j` bolded. */
  lemma PlusCuesAt(us: seq<Utterance>, tss: seq<seq<string>>, first: nat, u: nat, j: nat)
    requires |tss| == |us|
    requires u < |us| && j < |us[u].words|
    ensures TotalWords(us[..u]) + j < |PlusCues(us, tss, first)|
    ensures PlusCues(us, tss, first)[TotalWords(us[..u]) + j]
         == WordCue(tss[u], us[u].words[j], j, first + TotalWords(us[..u]) + j)
  {
    var w := TotalWords(us[..u]);
    PlusCuesSplitAt(us, tss, first, u);
    PlusCuesAtStart(us, tss, first + w, u, j);
    IndexAfter(PlusCues(us[..u], tss[..u], first), PlusCues(us[u..], tss[u..], first + w), j);
  }

  /** The vtt+ cues split where utterance `u` starts. */
  lemma PlusCuesSplitAt(us: seq<Utterance>, tss: seq<seq<string>>, first: nat, u: nat)
    requires |tss| == |us| && u <= |us|
    ensures PlusCues(us, tss, first)
         == PlusCues(us[..u], tss[..u], first) + PlusCues(us[u..], tss[u..], first + TotalWords(us[..u]))
    ensures |PlusCues(us[..u], tss[..u], first)| == TotalWords(us[..u])
  {
    assert us[..u] + us[u..] == us;
    assert tss[..u] + tss[u..] == tss;
    PlusCuesAppend(us[..u], tss[..u], us[u..], tss[u..], first);
    PlusCuesCount(us[..u], tss[..u], first);
  }

  /** The first cues of the utterances from `u` on are the words of `u`. */
  lemma PlusCuesAtStart(us: seq<Utterance>, tss: seq<seq<string>>, first: nat, u: nat, j: nat)
    requires |tss| == |us| && u < |us| && j < |us[u].words|
    ensures j < |PlusCues(us[u..], tss[u..], first)|
    ensures PlusCues(us[u..], tss[u..], first)[j] == WordCue(tss[u], us[u].words[j], j, first + j)
  {
    assert us[u..][0] == us[u];
    assert tss[u..][0] == tss[u];
    PlusCuesAtFirst(us[u..], tss[u..], first, j);
  }

  lemma IndexAfter(before: seq<Cue>, after: seq<Cue>, j: nat)
    requires j < |after|
    ensures (before + after)[|before| + j] == after[j]
  {
  }

  lemma PlusCuesAtFirst(us: seq<Utterance>, tss: seq<seq<string>>, first: nat, j: nat)
    requires |tss| == |us| > 0 && j < |us[0].words|
    ensures j < |PlusCues(us, tss, first)|
    ensures PlusCues(us, tss, first)[j] == WordCue(tss[0], us[0].words[j], j, first + j)
  {
    var head := WordCues(tss[0], us[0].words, 0, first);
    var rest := PlusCues(us[1..], tss[1..], first + |us[0].words|);
    PlusCuesUnfold(us, tss, first);
    WordCuesAt(tss[0], us[0].words, 0, first);
    assert (head + rest)[j] == head[j];
  }

  /** The vtt+ counter runs 1, 2, 3, … across utterance boundaries. */
  lemma {:induction false} PlusCuesNumbered(us: seq<Utterance>, tss: seq<seq<string>>, first: nat)
    requires |tss| == |us|
    ensures NumberedFrom(PlusCues(us, tss, first), first)
    decreases |us|
  {
    if |us| > 0 {
      var head: seq<Cue> := WordCues(tss[0], us[0].words, 0, first);
      var rest: seq<Cue> := PlusCues(us[1..], tss[1..], first + |us[0].words|);
      PlusCuesUnfold(us, tss, first);
      WordCuesAt(tss[0], us[0].words, 0, first);
      PlusCuesNumbered(us[1..], tss[1..], first + |us[0].words|);
      forall k | 0 <= k < |head + rest| ensures (head + rest)[k].index == first + k {
        if k >= |head| { assert (head + rest)[k] == rest[k - |head|]; }
      }
    }
  }

  /** No vtt+ caption breaks a line. */
  lemma {:induction false} PlusCuesOneLine(us: seq<Utterance>, tss: seq<seq<string>>, first: nat)
    requires |tss| == |us|
    requires forall k :: 0 <= k < |tss| ==> WellFormed(tss[k])
    ensures forall k :: 0 <= k < |PlusCues(us, tss, first)| ==> '\n' !in PlusCues(us, tss, first)[k].text
    decreases |us|
  {
    if |us| > 0 {
      var head: seq<Cue> := WordCues(tss[0], us[0].words, 0, first);
      var rest: seq<Cue> := PlusCues(us[1..], tss[1..], first + |us[0].words|);
      PlusCuesUnfold(us, tss, first);
      WordCuesAt(tss[0], us[0].words, 0, first);
      PlusCuesOneLine(us[1..], tss[1..], first + |us[0].words|);
      forall k | 0 <= k < |head + rest| ensures '\n' !in (head + rest)[k].text {
        if k < |head| {
          HighlightOneLine(tss[0], k);
        } else {
          assert (head + rest)[k] == rest[k - |head|];
        }
      }
    }
  }

  /** The vtt+ document reads back as the header and exactly the vtt+ cues;
      with no words at all it is the header alone. */
  lemma PlusDocument(us: seq<Utterance>)
    ensures DecodeVtt(PlusLoop(us, 1, VttHeader)).Some?
    ensures ShowsCues(DecodeVtt(PlusLoop(us, 1, VttHeader)).value, PlusCues(us, Tokenize(us), 1))
    ensures TotalWords(us) == 0 ==> PlusLoop(us, 1, VttHeader) == VttHeader
  {
    var tss := Tokenize(us);
    var cues := PlusCues(us, tss, 1);
    assert forall k :: 0 <= k < |tss| ==> WellFormed(tss[k]);
    PlusCuesOneLine(us, tss, 1);
    PlusCuesCount(us, tss, 1);
    VttBody(cues);
  }

  /** A header followed by cue blocks reads back as those cues. */
  lemma VttBody(cues: seq<Cue>)
    requires forall k :: 0 <= k < |cues| ==> '\n' !in cues[k].text
    ensures DecodeVtt(VttHeader + Serialize(cues, Vtt)).Some?
    ensures ShowsCues(DecodeVtt(VttHeader + Serialize(cues, Vtt)).value, cues)
    ensures |cues| == 0 ==> VttHeader + Serialize(cues, Vtt) == VttHeader
  {
    var body := Serialize(cues, Vtt);
    HeaderLines(body);
    DecodeSerialize(cues, Vtt);
    if |cues| == 0 {
      assert body == "";
      assert VttHeader + "" == VttHeader;
    }
  }

  /** In the vtt+ document, word `j` of utterance `u` is cue number
      `1 + w + j` (`w` the words before `u`), timed as the word and showing
      the utterance's transcript tokens with token `j` in bold. */
  lemma PlusDocumentCue(us: seq<Utterance>, u: nat, j: nat)
    requires u < |us| && j < |us[u].words|
    ensures TotalWords(us[..u]) + j < |PlusCues(us, Tokenize(us), 1)|
    ensures PlusCues(us, Tokenize(us), 1)[TotalWords(us[..u]) + j]
         == Cue(1 + TotalWords(us[..u]) + j, us[u].words[j].start, us[u].words[j].end, Highlight(WsSplit(us[u].transcript), j))
  {
    var tss := Tokenize(us);
    assert tss[u] == WsSplit(us[u].transcript);
    PlusCuesAt(us, tss, 1, u, j);
  }
}
