/** The translation glue: the `translate` helper that sends one utterance's
    text to the translation service and falls back to the original text when
    the reply carries none, and the per-utterance text phase of the txt, vtt
    and srt renderers. */
module Translation {
  import opened Wrappers
  import opened Tokens
  import opened Transcript

  /** The translation service's `translateText(text, source, target)` with
      sentence splitting off. `Failure` is a rejected call, which aborts the
      whole program; `Success(None)` is a reply without a `text` field. */
  type Translator = (string, string, string) -> Result<Option<string>, string>

  /** The `--translate` value that switches translation off (also its default). */
  const NoTranslation: string := "none"

  /** The regular expression `/-.+$/` matches starting at position `i`: a
      dash followed by at least one character, none of them a line
      terminator (which `.` does not match), up to the end of the tag. */
  predicate StripsAt(tag: string, i: nat) {
    && i + 1 < |tag| && tag[i] == '-'
    && forall k :: i < k < |tag| ==> !IsLineTerminator(tag[k])
  }

  /** First position at or after `i` where `/-.+$/` matches, or `|tag|`. */
  function FirstStrip(tag: string, i: nat): (p: nat)
    requires i <= |tag|
    ensures i <= p <= |tag|
    ensures p < |tag| ==> StripsAt(tag, p)
    ensures forall k :: i <= k < p ==> !StripsAt(tag, k)
    decreases |tag| - i
  {
    if i == |tag| || StripsAt(tag, i) then i else FirstStrip(tag, i + 1)
  }

  /** The source language passed to the translation service:
      `language.replace(/-.+$/, "")`, which removes the leftmost match. The
      tag is cut at the first dash that is followed by at least one
      character and by no line terminator up to the end; a dash at the very
      end, or one with a line break after it, does not start a match. */
  function SourceLanguage(tag: string): (r: string)
    ensures r <= tag
    ensures |r| < |tag| ==> StripsAt(tag, |r|)
    ensures forall k :: 0 <= k < |r| ==> !StripsAt(tag, k)
    ensures |r| == |tag| ==> forall k :: 0 <= k < |tag| ==> !StripsAt(tag, k)
  {
    tag[..FirstStrip(tag, 0)]
  }

  /** The region subtag goes, and with it everything after the first dash
      that starts a match; a dash at the very end stays. */
  lemma SourceLanguageExamples()
    ensures SourceLanguage("en-US") == "en"
    ensures SourceLanguage("a-b-c") == "a"
    ensures SourceLanguage("en-") == "en-"
    ensures SourceLanguage("de") == "de"
  {
    assert StripsAt("en-US", 2);
    assert StripsAt("a-b-c", 1);
    assert !StripsAt("en-", 2);
  }

  /** The `translate(text)` helper: the reply's text, or `text` itself when
      the reply has none (`result?.text ?? text`). */
  function TranslateText(tr: Translator, language: string, target: string, text: string): (r: Result<string, string>)
    ensures r.Success? <==> tr(text, SourceLanguage(language), target).Success?
    ensures r.Failure? ==> r.error == tr(text, SourceLanguage(language), target).error
    ensures r.Success? ==> r.value == tr(text, SourceLanguage(language), target).value.GetOr(text)
  {
    var reply :- tr(text, SourceLanguage(language), target);
    Success(reply.GetOr(text))
  }

  /** The text each utterance contributes, in order: the transcript, or its
      translation when `translate` is not `"none"`. Translation calls happen
      one after another and the first rejected one aborts the render. */
  function Texts(us: seq<Utterance>, translate: string, language: string, tr: Translator): (r: Result<seq<string>, string>)
    ensures translate == NoTranslation ==> r.Success?
    ensures r.Success? ==> |r.value| == |us|
    ensures r.Success? <==>
      translate == NoTranslation || forall k :: 0 <= k < |us| ==> TranslateText(tr, language, translate, us[k].transcript).Success?
    ensures r.Success? ==> forall k :: 0 <= k < |us| ==>
      r.value[k] == if translate == NoTranslation then us[k].transcript
                    else TranslateText(tr, language, translate, us[k].transcript).value
    ensures r.Failure? ==> exists k :: 0 <= k < |us| && FirstRejected(us, translate, language, tr, k, r.error)
    decreases |us|
  {
    if |us| == 0 then Success([])
    else
      var head := if translate == NoTranslation then Success(us[0].transcript)
                  else TranslateText(tr, language, translate, us[0].transcript);
      if head.Failure? then
        assert FirstRejected(us, translate, language, tr, 0, head.error);
        Failure(head.error)
      else
        var rest := Texts(us[1..], translate, language, tr);
        if rest.Failure? then
          FirstRejectedLater(us, translate, language, tr, rest.error);
          Failure(rest.error)
        else
          Success([head.value] + rest.value)
  }

  /** A rejection among the later utterances, after a first one that went
      through, is the first rejection of the whole list. */
  lemma FirstRejectedLater(us: seq<Utterance>, translate: string, language: string, tr: Translator, error: string)
    requires |us| > 0
    requires TranslateText(tr, language, translate, us[0].transcript).Success?
    requires exists k :: 0 <= k < |us| - 1 && FirstRejected(us[1..], translate, language, tr, k, error)
    ensures exists k :: 0 <= k < |us| && FirstRejected(us, translate, language, tr, k, error)
  {
    var k :| 0 <= k < |us| - 1 && FirstRejected(us[1..], translate, language, tr, k, error);
    assert FirstRejected(us, translate, language, tr, k + 1, error);
  }

  /** Utterance `k` is the first whose translation is rejected, with `error`. */
  predicate FirstRejected(us: seq<Utterance>, translate: string, language: string, tr: Translator, k: nat, error: string)
    requires k < |us|
  {
    && TranslateText(tr, language, translate, us[k].transcript) == Failure(error)
    && forall k' :: 0 <= k' < k ==> TranslateText(tr, language, translate, us[k'].transcript).Success?
  }

  /** When translation is off the translator is never consulted: any two
      translators give the same texts. */
  lemma TextsIgnoreTranslator(us: seq<Utterance>, language: string, tr1: Translator, tr2: Translator)
    ensures Texts(us, NoTranslation, language, tr1) == Texts(us, NoTranslation, language, tr2)
  {
    var r1 := Texts(us, NoTranslation, language, tr1);
    var r2 := Texts(us, NoTranslation, language, tr2);
    assert r1.value == r2.value;
  }
}
