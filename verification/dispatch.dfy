/** The output step: the `--format` value selects one of the four
    renderers, the vtt+ renderer first refuses a translation, and the txt,
    vtt and srt renderers take their texts from the translation phase. */
module Dispatch {
  import opened Wrappers
  import opened Strings
  import opened Transcript
  import opened Translation
  import opened Cues
  import opened Renderers
  import opened Documents

  const PlusWithTranslation: string := "sorry, VTT+ is not supported in combination with translation"

  /** The renderers behind a guard for vtt+: `plusRejected` says whether the
      vtt+ renderer refuses to run. An unknown format renders nothing. */
  function Select(format: string, plusRejected: bool, translate: string, language: string,
                  us: seq<Utterance>, tr: Translator): (r: Result<string, string>)
    ensures r.Failure? ==> IsKnownFormat(format)
    ensures format == "vtt+" ==> (r.Failure? <==> plusRejected)
    ensures format != "vtt+" && translate == NoTranslation ==> r.Success?
    ensures format != "vtt+" && r.Failure? ==>
              Texts(us, translate, language, tr).Failure? && r.error == Texts(us, translate, language, tr).error
  {
    if format == "txt" then
      var texts :- Texts(us, translate, language, tr);
      Success(TxtLoop(texts, 0, ""))
    else if format == "vtt+" then
      if plusRejected then Failure(PlusWithTranslation)
      else Success(PlusLoop(us, 1, VttHeader))
    else if format == "vtt" then
      var texts :- Texts(us, translate, language, tr);
      Success(VttLoop(us, texts, 0, VttHeader))
    else if format == "srt" then
      var texts :- Texts(us, translate, language, tr);
      Success(SrtLoop(us, texts, 0, ""))
    else Success("")
  }

  /** The program's guard `if (argv.translate)`: a non-empty `--translate`
      value, which includes its default `"none"`. */
  predicate PlusRejectedAsWritten(translate: string) {
    translate != ""
  }

  /** The guard the error message describes: a translation was asked for. */
  predicate PlusRejectedIntended(translate: string) {
    translate != NoTranslation
  }

  /** The output document of a run as the program computes it. */
  function Render(format: string, translate: string, language: string, us: seq<Utterance>, tr: Translator): (r: Result<string, string>)
    ensures format == "vtt+" ==> (r.Success? <==> translate == "")
    ensures format == "vtt+" && r.Failure? ==> r.error == PlusWithTranslation
  {
    Select(format, PlusRejectedAsWritten(translate), translate, language, us, tr)
  }

  /** The output document with the vtt+ guard testing for a translation. */
  function RenderIntended(format: string, translate: string, language: string, us: seq<Utterance>, tr: Translator): (r: Result<string, string>)
    ensures format == "vtt+" ==> (r.Success? <==> translate == NoTranslation)
    ensures format != "vtt+" ==> r == Render(format, translate, language, us, tr)
  {
    Select(format, PlusRejectedIntended(translate), translate, language, us, tr)
  }

  predicate IsKnownFormat(format: string) {
    format == "txt" || format == "vtt+" || format == "vtt" || format == "srt"
  }

  /** When a run fails and with which error: vtt+ only by its guard, the
      other formats only by the first rejected translation; an unknown
      format gives the empty document. */
  lemma SelectOutcome(format: string, plusRejected: bool, translate: string, language: string,
                      us: seq<Utterance>, tr: Translator)
    ensures !IsKnownFormat(format) ==> Select(format, plusRejected, translate, language, us, tr) == Success("")
    ensures format == "vtt+" ==>
              (Select(format, plusRejected, translate, language, us, tr).Failure? <==> plusRejected)
    ensures format == "vtt+" && plusRejected ==>
              Select(format, plusRejected, translate, language, us, tr).error == PlusWithTranslation
    ensures IsKnownFormat(format) && format != "vtt+" ==>
              (Select(format, plusRejected, translate, language, us, tr).Success?
               <==> translate == NoTranslation
                    || forall k :: 0 <= k < |us| ==> TranslateText(tr, language, translate, us[k].transcript).Success?)
    ensures IsKnownFormat(format) && format != "vtt+" && Select(format, plusRejected, translate, language, us, tr).Failure? ==>
              exists k :: 0 <= k < |us| && FirstRejected(us, translate, language, tr, k, Select(format, plusRejected, translate, language, us, tr).error)
  {
  }

  /** Each successful run produces its format's reference document: the
      texts each on a line, or the header and cue blocks of the utterance
      cues, or of the word cues for vtt+. */
  lemma SelectDocument(format: string, plusRejected: bool, translate: string, language: string,
                       us: seq<Utterance>, tr: Translator)
    requires Select(format, plusRejected, translate, language, us, tr).Success?
    ensures format == "txt" ==>
              Select(format, plusRejected, translate, language, us, tr).value
              == TxtBody(Texts(us, translate, language, tr).value)
    ensures format == "vtt" ==>
              Select(format, plusRejected, translate, language, us, tr).value
              == VttHeader + Serialize(UtteranceCues(us, Texts(us, translate, language, tr).value), Vtt)
    ensures format == "srt" ==>
              Select(format, plusRejected, translate, language, us, tr).value
              == Serialize(UtteranceCues(us, Texts(us, translate, language, tr).value), Srt)
    ensures format == "vtt+" ==>
              Select(format, plusRejected, translate, language, us, tr).value
              == VttHeader + Serialize(PlusCues(us, Tokenize(us), 1), Vtt)
  {
    if format == "txt" {
      var texts := Texts(us, translate, language, tr).value;
      assert texts[0..] == texts;
      assert "" + TxtBody(texts) == TxtBody(texts);
    } else if format == "vtt" || format == "srt" {
      var texts := Texts(us, translate, language, tr).value;
      assert UtteranceCues(us, texts)[0..] == UtteranceCues(us, texts);
      assert "" + Serialize(UtteranceCues(us, texts), Srt) == Serialize(UtteranceCues(us, texts), Srt);
    }
  }

  /** With translation off the translator is never called: every format
      renders the same with any translator, and txt, vtt and srt succeed. */
  lemma UntranslatedIgnoresTranslator(format: string, plusRejected: bool, language: string,
                                      us: seq<Utterance>, tr1: Translator, tr2: Translator)
    ensures Select(format, plusRejected, NoTranslation, language, us, tr1)
         == Select(format, plusRejected, NoTranslation, language, us, tr2)
    ensures format != "vtt+" ==> Select(format, plusRejected, NoTranslation, language, us, tr1).Success?
  {
    TextsIgnoreTranslator(us, language, tr1, tr2);
  }

  /** vtt+ never consults the translator, whatever `--translate` says. */
  lemma PlusIgnoresTranslator(plusRejected: bool, translate: string, language: string,
                              us: seq<Utterance>, tr1: Translator, tr2: Translator)
    ensures Select("vtt+", plusRejected, translate, language, us, tr1)
         == Select("vtt+", plusRejected, translate, language, us, tr2)
  {
  }

  /** A run of txt, vtt or srt whose translation phase gave `texts` is the
      renderer's loop over them. */
  lemma Selected(format: string, plusRejected: bool, translate: string, language: string,
                 us: seq<Utterance>, tr: Translator, texts: seq<string>)
    requires format == "txt" || format == "vtt" || format == "srt"
    requires Texts(us, translate, language, tr) == Success(texts) && |texts| == |us|
    ensures format == "txt" ==> Select(format, plusRejected, translate, language, us, tr) == Success(TxtLoop(texts, 0, ""))
    ensures format == "vtt" ==> Select(format, plusRejected, translate, language, us, tr) == Success(VttLoop(us, texts, 0, VttHeader))
    ensures format == "srt" ==> Select(format, plusRejected, translate, language, us, tr) == Success(SrtLoop(us, texts, 0, ""))
  {
  }

  /** The txt document of a successful run reads back as its texts, one per
      line, when no text holds a line break. */
  lemma TxtReadsBack(plusRejected: bool, translate: string, language: string, us: seq<Utterance>, tr: Translator)
    requires Texts(us, translate, language, tr).Success?
    requires forall k :: 0 <= k < |us| ==> '\n' !in Texts(us, translate, language, tr).value[k]
    ensures Select("txt", plusRejected, translate, language, us, tr).Success?
    ensures Lines(Select("txt", plusRejected, translate, language, us, tr).value)
         == Texts(us, translate, language, tr).value + [""]
  {
    var texts := Texts(us, translate, language, tr).value;
    Selected("txt", plusRejected, translate, language, us, tr, texts);
    TxtDocument(texts);
  }

  /** The vtt document of a successful run reads back as one cue per
      utterance. */
  lemma VttReadsBack(plusRejected: bool, translate: string, language: string, us: seq<Utterance>, tr: Translator)
    requires Texts(us, translate, language, tr).Success?
    requires forall k :: 0 <= k < |us| ==> '\n' !in Texts(us, translate, language, tr).value[k]
    ensures Select("vtt", plusRejected, translate, language, us, tr).Success?
    ensures DecodeVtt(Select("vtt", plusRejected, translate, language, us, tr).value).Some?
    ensures ShowsCues(DecodeVtt(Select("vtt", plusRejected, translate, language, us, tr).value).value,
                      UtteranceCues(us, Texts(us, translate, language, tr).value))
  {
    var texts := Texts(us, translate, language, tr).value;
    Selected("vtt", plusRejected, translate, language, us, tr, texts);
    VttDocument(us, texts);
  }

  /** The srt document of a successful run reads back as one cue per
      utterance. */
  lemma SrtReadsBack(plusRejected: bool, translate: string, language: string, us: seq<Utterance>, tr: Translator)
    requires Texts(us, translate, language, tr).Success?
    requires forall k :: 0 <= k < |us| ==> '\n' !in Texts(us, translate, language, tr).value[k]
    ensures Select("srt", plusRejected, translate, language, us, tr).Success?
    ensures DecodeSrt(Select("srt", plusRejected, translate, language, us, tr).value).Some?
    ensures ShowsCues(DecodeSrt(Select("srt", plusRejected, translate, language, us, tr).value).value,
                      UtteranceCues(us, Texts(us, translate, language, tr).value))
  {
    var texts := Texts(us, translate, language, tr).value;
    Selected("srt", plusRejected, translate, language, us, tr, texts);
    SrtDocument(us, texts);
  }

  /** The vtt+ document of a run its guard lets through reads back as one
      cue per word. */
  lemma PlusReadsBack(translate: string, language: string, us: seq<Utterance>, tr: Translator)
    ensures Select("vtt+", false, translate, language, us, tr).Success?
    ensures DecodeVtt(Select("vtt+", false, translate, language, us, tr).value).Some?
    ensures ShowsCues(DecodeVtt(Select("vtt+", false, translate, language, us, tr).value).value,
                      PlusCues(us, Tokenize(us), 1))
  {
    PlusDocument(us);
  }

  /** An empty transcription: the txt and srt documents are empty, the vtt
      document is the header alone. */
  lemma EmptyTranscription(plusRejected: bool, translate: string, language: string, tr: Translator)
    ensures Select("txt", plusRejected, translate, language, [], tr) == Success("")
    ensures Select("vtt", plusRejected, translate, language, [], tr) == Success(VttHeader)
    ensures Select("srt", plusRejected, translate, language, [], tr) == Success("")
    ensures !plusRejected ==> Select("vtt+", plusRejected, translate, language, [], tr) == Success(VttHeader)
  {
  }

  /** As written, vtt+ runs only with `--translate ""`: the default `"none"`
      and every real target language are refused alike. */
  lemma PlusRejectsDefault(language: string, us: seq<Utterance>, tr: Translator)
    ensures Render("vtt+", NoTranslation, language, us, tr) == Failure(PlusWithTranslation)
    ensures Render("vtt+", "", language, us, tr).Success?
  {
  }

  /** With the intended guard vtt+ runs exactly when translation is off, and
      then produces the word-cue document; every other format renders as
      the program does. */
  lemma IntendedPlusAccepted(format: string, translate: string, language: string, us: seq<Utterance>, tr: Translator)
    ensures RenderIntended("vtt+", translate, language, us, tr).Success? <==> translate == NoTranslation
    ensures RenderIntended("vtt+", NoTranslation, language, us, tr)
         == Success(VttHeader + Serialize(PlusCues(us, Tokenize(us), 1), Vtt))
    ensures format != "vtt+" ==> RenderIntended(format, translate, language, us, tr) == Render(format, translate, language, us, tr)
  {
    SelectDocument("vtt+", false, NoTranslation, language, us, tr);
  }
}
