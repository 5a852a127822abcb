/** The transcription result the renderers consume: the utterances of
    `response.results.utterances`, with times as whole milliseconds. */
module Transcript {
  import opened Timecode

  /** One timed word (`{ word, start, end }`). Only its times are rendered. */
  datatype Word = Word(word: string, start: Millis, end: Millis)

  /** One utterance: its transcript text, its own time span and its words. */
  datatype Utterance = Utterance(transcript: string, start: Millis, end: Millis, words: seq<Word>)

  /** Number of words over all utterances. */
  function TotalWords(us: seq<Utterance>): nat
  {
    if |us| == 0 then 0 else |us[0].words| + TotalWords(us[1..])
  }
}
