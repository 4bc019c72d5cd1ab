/**
 * The rendering step of get_video_transcript: the fetched snippets' texts joined by
 * newlines, a fixed message when nothing was fetched, and the failure message with at
 * most 200 characters of the exception when the fetch raised.
 */
module Transcript {
  import opened Text

  const Unavailable := "Транскрипция недоступна для этого видео"
  const FailurePrefix := "Не удалось получить транскрипцию: "
  const FailureExcerpt: nat := 200

  /**
   * One fetched entry: an object with a `text` attribute, or a mapping read with
   * `.get('text', '')`.
   */
  datatype Snippet =
    | WithText(text: string)
    | Fields(fields: map<string, string>)

  /** `str(entry.text) if hasattr(entry, 'text') else str(entry.get('text', ''))` */
  function SnippetText(entry: Snippet): (r: string)
    ensures entry.WithText? ==> r == entry.text
    ensures entry.Fields? && "text" in entry.fields ==> r == entry.fields["text"]
    ensures entry.Fields? && "text" !in entry.fields ==> r == ""
  {
    match entry
    case WithText(text) => text
    case Fields(fields) => if "text" in fields then fields["text"] else ""
  }

  /** What `YouTubeTranscriptApi().fetch(video_id)` gives: the snippets, or an exception's message. */
  datatype FetchOutcome =
    | Fetched(snippets: seq<Snippet>)
    | Failed(message: string)

  /** The texts of the snippets, in order. */
  function Texts(snippets: seq<Snippet>): (r: seq<string>)
    ensures |r| == |snippets|
    ensures forall k | 0 <= k < |snippets| :: r[k] == SnippetText(snippets[k])
  {
    seq(|snippets|, k requires 0 <= k < |snippets| => SnippetText(snippets[k]))
  }

  /** The value get_video_transcript returns for a fetch outcome. */
  function RenderTranscript(outcome: FetchOutcome): (r: string)
    ensures outcome.Fetched? && |outcome.snippets| == 0 ==> r == Unavailable
    ensures outcome.Fetched? && |outcome.snippets| > 0 ==> r == JoinLines(Texts(outcome.snippets))
    ensures outcome.Fetched? && |outcome.snippets| > 0
      ==> |r| == TotalLength(Texts(outcome.snippets)) + |outcome.snippets| - 1
    ensures outcome.Failed? ==> FailurePrefix <= r
    ensures outcome.Failed? ==> r[|FailurePrefix|..] <= outcome.message
    ensures outcome.Failed? && |outcome.message| <= FailureExcerpt ==> r == FailurePrefix + outcome.message
    ensures outcome.Failed? && |outcome.message| > FailureExcerpt ==> |r| == |FailurePrefix| + FailureExcerpt
  {
    match outcome
    case Fetched(snippets) =>
      if |snippets| > 0 then
        var lines := Texts(snippets);
        JoinLinesLength(lines);
        JoinLines(lines)
      else
        Unavailable
    case Failed(message) =>
      var excerpt := Truncate(message, FailureExcerpt);
      assert (FailurePrefix + excerpt)[|FailurePrefix|..] == excerpt;
      FailurePrefix + excerpt
  }

  /**
   * The transcript keeps every snippet as one line, in order: splitting it at newlines gives
   * back the snippets' texts, as long as no text has a newline of its own.
   */
  lemma TranscriptLinesRoundTrip(snippets: seq<Snippet>)
    requires |snippets| > 0
    requires forall k | 0 <= k < |snippets| :: NoNewline(SnippetText(snippets[k]))
    ensures SplitLines(RenderTranscript(Fetched(snippets))) == Texts(snippets)
  {
    SplitJoinRoundTrip(Texts(snippets));
  }

  /** get_video_transcript(video_id) with the transcript service as a parameter. */
  function GetVideoTranscript(videoId: string, fetch: string -> FetchOutcome): (r: string)
    ensures r == RenderTranscript(fetch(videoId))
  {
    RenderTranscript(fetch(videoId))
  }

  /** A single snippet's text comes back unchanged; a snippet without `text` gives an empty transcript. */
  lemma SingleSnippet(entry: Snippet)
    ensures RenderTranscript(Fetched([entry])) == SnippetText(entry)
    ensures entry.Fields? && "text" !in entry.fields ==> RenderTranscript(Fetched([entry])) == ""
  {
  }

  /** Joining keeps order: a transcript of a + b is a's transcript, a newline, then b's. */
  lemma {:induction false} RenderConcatenates(a: seq<Snippet>, b: seq<Snippet>)
    requires |a| > 0 && |b| > 0
    ensures RenderTranscript(Fetched(a + b)) == RenderTranscript(Fetched(a)) + "\n" + RenderTranscript(Fetched(b))
  {
    assert Texts(a + b) == Texts(a) + Texts(b);
    JoinLinesAppend(Texts(a), Texts(b));
  }

  lemma {:induction false} JoinLinesAppend(xs: seq<string>, ys: seq<string>)
    requires |xs| > 0 && |ys| > 0
    ensures JoinLines(xs + ys) == JoinLines(xs) + "\n" + JoinLines(ys)
    decreases |xs|
  {
    if |xs| == 1 {
      assert (xs + ys)[1..] == ys;
    } else {
      assert (xs + ys)[1..] == xs[1..] + ys;
      JoinLinesAppend(xs[1..], ys);
    }
  }
}
