# Topic Maker: video id, title lookup and transcript rendering

Topic Maker is a single-page Streamlit tool. Given a YouTube link or video id, it collects
the video's title, thumbnail text and transcript, keeps them in the session and displays
them; the annotation, synopsis and scenario buttons are placeholders. This
project models the parts of `app.py` that are self-contained logic:

- `extract_video_id`: accept a bare 11-character id, or take the id that Python's
  `re.search` captures with the app's YouTube URL pattern (`video_id.dfy`, module `VideoId`).
  The pattern is stated twice. `MatchesAt` is a declarative reading: which text may lie
  between a match start and the captured id. `MatchAt`/`SearchFrom` is a backtracking
  matcher that tries start positions left to right, the alternatives in their written order,
  and greedy `.*`/`.+` from longest to shortest. Its contracts prove three things. It returns a
  match of the pattern, and the leftmost one. It finds one whenever one exists. At that start it
  captures the group the engine's priority fixes (`PreferredAt`): the path form before
  `v/`/`e/`/`embed/` before the query form, with the rightmost group for greedy `.+` and `.*`.
- `get_video_title` (`video_title.dfy`, module `VideoTitle`). Its two loops are methods.
  `DiscoverKeys` collects `YOUTUBE_API_KEY_1, _2, …` from the secrets until the first
  missing index. `TryKeys` tries the keys in order: a quota `HttpError` moves on to the next
  key, and anything else ends the search. Both are proved against specifications
  (`IsKeyRun`, `Rotation`), and lemmas then state the rotation policy.
- `get_video_transcript` (`transcript.dfy`, module `Transcript`). The snippets' texts are
  joined with newlines. An empty fetch gives a fixed message. A failed fetch gives the
  failure prefix plus at most 200 characters of the error.
- `get_claude_model` (`claude_model.dfy`, module `ClaudeModel`): the sidebar label to
  model id table. The page defines it but does not call it.
- `text.dfy` (module `Text`) holds the string operations these use: `s[:n]`, `'\n'.join`
  and its inverse `split('\n')`, lower-casing, `in` on strings, and `f"{i}"`.

Outside collaborators are parameters. The Streamlit secrets store is a `map<string, string>`.
The YouTube Data API call made with one key is the oracle `api: string -> CallOutcome`, and
the transcript fetch is a `FetchOutcome` value or an oracle `fetch`. Python exceptions that
escape a function are `Result.Failure`, and Python's `None` is `Option.None`.

## Model

| member | source | states |
|---|---|---|
| `VideoId.ExtractVideoId` | app.py:34-49 | None or the empty string gives None. A bare 11-character `[A-Za-z0-9_-]` input is returned unchanged. Any other input gives exactly the URL search's result. Every result is 11 characters long, and a result from the URL branch contains no `"`, `&`, `?`, `/` or whitespace. |
| `VideoId.FindUrlId` | app.py:43-48 | The result is present exactly when the pattern matches somewhere. It is the group that the priority order (`PreferredAt`) fixes, at a start with no match to its left. |
| `VideoId.SearchFrom` | app.py:46 | `re.search` from position p. The returned start matches, no earlier start does, and the returned group is the preferred one at that start. When nothing is returned, no start at or after p matches. |
| `VideoId.MatchAt` | app.py:44 | At one start position, a result is a match of the pattern. It is the group the alternatives' order and greedy repetition fix: the rightmost path-form group if there is one, else the `v/`, `e/` or `embed/` group, else the rightmost query-form group, else the `youtu.be/` group. No result means no match starts there. |
| `VideoId.MatchPath` | app.py:44 | The `[^\/]+\/.+\/` alternative: a result is a match of that shape. It is the rightmost one, because `.+` is greedy. No result means no such match exists. |
| `VideoId.MatchEmbed` | app.py:44 | The `v/`, `e/`, `embed/` alternative: a result is a `v/`, `e/` or `embed/` match. No result means none exists. |
| `VideoId.MatchQuery` | app.py:44 | The `.*[?&]v=` alternative: a result is a match with no newline before `?v=`/`&v=`. It is the rightmost such match, because `.*` is greedy. No result means none exists. |
| `VideoId.BacktrackSlash` | app.py:44 | Backtracking `.+\/` over m characters: it returns the rightmost closing slash followed by a valid group, or reports that there is none in range. |
| `VideoId.BacktrackQuery` | app.py:44 | Backtracking `.*[?&]v=`: it returns the rightmost `?v=`/`&v=` followed by a valid group, or reports that there is none in range. |
| `VideoId.SlashFrom` | app.py:44 | Greedy `[^\/]+` stops at the first `/` at or after i (or at the end), and every character before that is not `/`. |
| `VideoId.LineEndFrom` | app.py:44 | Greedy `.` repetition stops at the first newline at or after i (or at the end), and nothing before it is a newline. |
| `VideoId.PathAfterFirstSlash` | app.py:44 | In every path-form match, the segment before the first `/` is the one `[^\/]+` takes. The closing `/` lies before the next newline. |
| `VideoId.QueryWithinLine` | app.py:44 | In every query-form match, `?v=`/`&v=` lies before the first newline after the host. |
| `VideoId.MatchStartsWithY` | app.py:44 | Every match starts at a `y`. It spans at least a host and an 11-character id. |
| `VideoId.MatchNeedsHost` | app.py:44-46 | A match exists only if the text contains `youtube.com/` or `youtu.be/`. |
| `VideoId.WithoutHostNone` | app.py:39-49 | An input that is not a bare id and contains neither `youtube.com/` nor `youtu.be/` yields None. |
| `VideoId.FirstMatchDecides` | app.py:46-48 | If the pattern matches at p with a single possible group, and no `y` comes earlier, then the result is that group. |
| `VideoId.EmbedMatchUnique` | app.py:44 | At most one of `v/`, `e/` and `embed/` leads to a group at a given position. |
| `VideoId.PreferredIsMatch` | app.py:44 | The preferred group at p belongs to a match of the whole pattern at p. |
| `VideoId.PreferredUnique` | app.py:44 | The priority order leaves one group per start position, so the captured id is determined. |
| `VideoId.PreferredMatchDecides` | app.py:39-48 | When nothing matches before p, an input that is not a bare id yields the preferred group at p. |
| `VideoId.SearchFindsFirst` | app.py:46 | When the pattern matches at p and at no earlier start, `re.search` reports start p. |
| `VideoId.SearchDecides` | app.py:46-48 | `extract_video_id` on a non-id input returns the 11 characters at the group position `re.search` reports. |
| `VideoId.IdTail` | app.py:39-44 | The characters of a bare id are all accepted by the capturing group `[^"&?\/\s]`. |
| `VideoId.ShortLinkYieldsId` | app.py:43-48 | `https://youtu.be/<id>` yields `<id>` for every bare id. |
| `VideoId.WatchLinkMatch` | app.py:44 | In `https://www.youtube.com/watch?v=<id>`, the pattern matches at the host only through `?v=`, with the group at the id. |
| `VideoId.WatchLinkYieldsId` | app.py:43-48 | `https://www.youtube.com/watch?v=<id>` yields `<id>` for every bare id. |
| `VideoId.EmbedLinkMatch` | app.py:44 | In `https://www.youtube.com/embed/<id>`, the pattern matches at the host only through `embed/`, with the group at the id. |
| `VideoId.EmbedLinkYieldsId` | app.py:43-48 | `https://www.youtube.com/embed/<id>` yields `<id>` for every bare id. |
| `VideoId.QueryTakesLastV` | app.py:43-48 | `youtube.com/x?v=<a>&v=<b>` yields b: greedy `.*` reaches the last `v=`. |
| `VideoId.PathBeatsQuery` | app.py:43-48 | `youtube.com/a/b/<x>?v=<y>` yields x: the path form is tried before the query form. |
| `VideoId.ShortsLinkRejected` | app.py:43-49 | `https://www.youtube.com/shorts/<id>` yields None, because the path form needs a second `/` after the id. |
| `VideoTitle.DiscoverKeys` | app.py:53-65 | The discovery loop returns the values of `YOUTUBE_API_KEY_1 … _n` in index order, where `YOUTUBE_API_KEY_{n+1}` is missing. |
| `VideoTitle.KeyRunUnique` | app.py:55-65 | The secrets determine the discovered key list uniquely, so nothing after a gap can be collected. |
| `VideoTitle.KeyNameInjective` | app.py:57 | Distinct indices give distinct secret names. |
| `VideoTitle.KeyName` | app.py:57 | `f"YOUTUBE_API_KEY_{i}"`: the prefix followed by decimal digits that read back as i, with no leading zero (the first digit is `0` only for i = 0). `KeyNameInjective` proves distinct indices give distinct names. |
| `VideoTitle.TryKeys` | app.py:67-90 | The rotation loop returns exactly the rotation specification: `Видео ID: <id>` when there are no keys, otherwise `Rotation` over the keys. |
| `VideoTitle.GetVideoTitle` | app.py:52-90 | The title is the rotation result over the uniquely discovered key run. |
| `VideoTitle.Verdict` | app.py:80-88 | A listing gives its first title, and an empty listing gives `Видео не найдено`. A non-quota HttpError gives `Ошибка: ` followed by exactly `str(e)[:100]`: a prefix of the error, of length min(100, its length). Any other exception propagates. |
| `VideoTitle.IsQuotaError` | app.py:85 | `"quota" in str(e).lower()` for an HttpError: `quota` occurs at some index of the lower-cased message. `QuotaInAnyCase` proves every case spelling is detected. |
| `VideoTitle.Rotation` | app.py:71-90 | The rotation specification `TryKeys` is proved against: quota errors are skipped, the first other outcome is the verdict, and the end of the list gives `Все API ключи исчерпали квоту`. Its contract states that an exception can only come from some key's call; `AllQuotaExhausts`, `FirstDecisiveKey`, `LaterKeysUntried` and `RotationOutcomes` carry the policy. |
| `VideoTitle.TitleFor` | app.py:67-90 | get_video_title for a given key list: `Видео ID: <id>` with no keys, otherwise the rotation; an exception can only come from some key's call. |
| `VideoTitle.NoKeysGivesIdMessage` | app.py:67-68 | Without `YOUTUBE_API_KEY_1`, the result is `Видео ID: ` followed by the id. |
| `VideoTitle.AllQuotaExhausts` | app.py:71-90 | If every key yields a quota error, the result is `Все API ключи исчерпали квоту`. |
| `VideoTitle.FirstDecisiveKey` | app.py:71-88 | The first key whose call is not a quota error decides the result. |
| `VideoTitle.LaterKeysUntried` | app.py:71-88 | Keys after the decisive one are never consulted: changing their outcomes does not change the result. |
| `VideoTitle.RotationOutcomes` | app.py:67-90 | The result is the exhausted message, the not-found message, an `Ошибка: ` message, some key's first listed title, or some key's propagated exception. |
| `VideoTitle.QuotaInAnyCase` | app.py:85 | An HttpError whose message contains the word in any mix of cases (`QUOTA`, `Quota`, …) is a quota error. |
| `Transcript.RenderTranscript` | app.py:102-112 | Empty data gives `Транскрипция недоступна для этого видео`. Otherwise the result is the snippets' texts joined with newlines, and its length is their total plus the separators. A failure gives `Не удалось получить транскрипцию: ` followed by exactly `str(e)[:200]`: the whole error when it has at most 200 characters, otherwise a 200-character prefix of it. |
| `Transcript.TranscriptLinesRoundTrip` | app.py:106 | Splitting the transcript at newlines gives back every snippet's text, in order, as long as no text contains a newline itself. |
| `Transcript.RenderConcatenates` | app.py:106 | The transcript of `a + b` is the transcript of `a`, a newline, then the transcript of `b`. |
| `Transcript.SingleSnippet` | app.py:106 | One snippet renders as its own text. A mapping without `text` renders as the empty string. |
| `Transcript.Texts` | app.py:106 | A snippet's text is its `text` attribute, or `get('text', '')` for a mapping, kept in order. |
| `Transcript.SnippetText` | app.py:106 | An entry's `text` attribute if it has one, otherwise `get('text', '')` of the mapping. |
| `Transcript.GetVideoTranscript` | app.py:93-112 | The fetch's outcome is rendered as `RenderTranscript` states: the joined texts, the fixed message for empty data, or the failure prefix and excerpt for an exception. |
| `ClaudeModel.GetClaudeModel` | app.py:180-187 | A label has a model id exactly when it is one of the four sidebar choices. Both Opus labels map to `claude-3-opus-20240229`, `Claude Sonnet 4.5` to `claude-3-5-sonnet-20241022`, and `Claude Sonnet 4.1` to `claude-3-sonnet-20240229`. |
| `ClaudeModel.EveryModelOffered` | app.py:180-187 | Each of the three model ids is requested by some sidebar choice. |
| `Text.Truncate` | app.py:88 | `s[:n]` has at most n characters, is a prefix of s, and is s itself when s is short enough. |
| `Text.JoinLines` | app.py:106 | `'\n'.join(lines)`: empty for no lines, starting with the first line, followed by a newline when more lines come. `JoinLinesLength`, `SplitJoinRoundTrip` and `Transcript.RenderConcatenates` carry its properties. |
| `Text.Lower` | app.py:85 | `str.lower()` on ASCII letters: the same length, each character lower-cased. |
| `Text.HasInfix` | app.py:85 | Python's `t in s`: an occurrence needs `t` no longer than `s`. `HasInfixIff` proves it is an occurrence at some index. |
| `Text.SplitJoinRoundTrip` | app.py:106 | For a non-empty list of lines without newlines, splitting `'\n'.join(lines)` at newlines gives back `lines`. (`'\n'.join([])` is `""`, which splits to `[""]`.) |
| `Text.JoinLinesLength` | app.py:106 | `'\n'.join(lines)` has the total length of the lines plus one separator between each pair. |
| `Text.HasInfixIff` | app.py:85 | The recursive substring test holds exactly when the text occurs at some index. This is Python's `t in s`. |
| `Text.NatToString` | app.py:57 | `f"{i}"`: at least one decimal digit, with a leading `0` only for 0. |
| `Text.NatToStringRoundTrip` | app.py:57 | The decimal rendering of i in the key name reads back as i. |
| `Text.NatToStringInjective` | app.py:57 | Distinct indices render as distinct decimal strings. |

## Left out

- Streamlit page layout, forms, buttons, `session_state` bookkeeping, `st.rerun`, the 50-character title shortening in the success message and the debug panel: these are user interface, not logic.
- `get_thumbnail_text`: an HTTP download, PIL re-encoding, base64, reading the prompt file (with its built-in fallback text) and the Claude vision call, the only Anthropic request the page makes. It is all network, file and foreign-library work.
- `googleapiclient.build`, `execute` and `YouTubeTranscriptApi.fetch`: these are oracles (`api`, `fetch`) whose outcomes feed the modelled logic. The text of Python exception messages is an opaque string.
- `Text.Lower`: `str(e).lower()` is modelled as ASCII lower-casing. For the test `"quota" in …` this agrees with full Unicode lower-casing, because only ASCII `Q`, `U`, `O`, `T`, `A` lower-case to those letters. The one lower-casing that lengthens text (U+0130) adds a combining mark that is not in `quota`. The Unicode case tables themselves are not modelled.
- `VideoTitle.DiscoverKeys`: the bare `except: break` around the secrets lookup is not a separate path. A secrets store that raises at index i behaves like a map without `YOUTUBE_API_KEY_i`, and the model passes that map.
- `VideoTitle.TryKeys`: the API is a function of the key string, so a key listed twice gets the same answer both times. The source calls the network twice, and the answers may differ. No stated property depends on this.
- `VideoTitle.Verdict`: the item's title is given directly as `titles[0]`. A response missing `snippet` or `title` (a KeyError that would propagate) is covered by the `Raised` outcome.
- `VideoId.ExtractVideoId` only accepts string input and Python's None, which is all the text field can supply. Other falsy values are not modelled.
