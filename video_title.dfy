/**
 * get_video_title: discover the YouTube Data API keys among the secrets, then try them in
 * order. A quota error moves on to the next key; a listing, an empty listing or any other
 * API error ends the search. The API call itself is an oracle: `api(key)` is what
 * `videos().list(part="snippet", id=video_id).execute()` gives with that developer key.
 */
module VideoTitle {
  import opened Wrappers
  import opened Text

  const KeyPrefix := "YOUTUBE_API_KEY_"
  const NoKeysPrefix := "Видео ID: "
  const NotFound := "Видео не найдено"
  const ErrorPrefix := "Ошибка: "
  const AllExhausted := "Все API ключи исчерпали квоту"
  const ErrorExcerpt: nat := 100

  /** The secret name `f"YOUTUBE_API_KEY_{i}"`. */
  function KeyName(i: nat): (r: string)
    ensures KeyPrefix < r
    ensures forall k | |KeyPrefix| <= k < |r| :: IsDigit(r[k])
    ensures DigitsValue(r[|KeyPrefix|..]) == i
    ensures r[|KeyPrefix|] == '0' <==> i == 0
  {
    NatToStringRoundTrip(i);
    assert (KeyPrefix + NatToString(i))[|KeyPrefix|..] == NatToString(i);
    KeyPrefix + NatToString(i)
  }

  lemma KeyNameInjective(a: nat, b: nat)
    requires a != b
    ensures KeyName(a) != KeyName(b)
  {
    NatToStringInjective(a, b);
    assert KeyName(a)[|KeyPrefix|..] == NatToString(a);
    assert KeyName(b)[|KeyPrefix|..] == NatToString(b);
  }

  /**
   * keys are the values of YOUTUBE_API_KEY_1, YOUTUBE_API_KEY_2, ... in index order,
   * stopping just before the first index that is missing.
   */
  ghost predicate IsKeyRun(secrets: map<string, string>, keys: seq<string>)
  {
    && (forall i | 1 <= i <= |keys| :: KeyName(i) in secrets && keys[i - 1] == secrets[KeyName(i)])
    && KeyName(|keys| + 1) !in secrets
  }

  /** The discovery loop: look up YOUTUBE_API_KEY_i for i = 1, 2, ... until one is missing. */
  method DiscoverKeys(secrets: map<string, string>) returns (keys: seq<string>)
    ensures IsKeyRun(secrets, keys)
  {
    keys := [];
    var i := 1;
    ghost var seen: set<string> := {};
    while true
      invariant i == |keys| + 1
      invariant forall j | 1 <= j < i :: KeyName(j) in secrets && keys[j - 1] == secrets[KeyName(j)]
      invariant seen <= secrets.Keys
      invariant forall x | x in seen :: exists k | 1 <= k < i :: x == KeyName(k)
      decreases secrets.Keys - seen
    {
      var name := KeyName(i);
      if name in secrets {
        forall k | 1 <= k < i
          ensures KeyName(k) != name
        {
          KeyNameInjective(k, i);
        }
        keys := keys + [secrets[name]];
        seen := seen + {name};
        i := i + 1;
      } else {
        break;
      }
    }
  }

  /** The secrets determine the discovered keys: there is exactly one key run. */
  lemma {:induction false} KeyRunUnique(secrets: map<string, string>, a: seq<string>, b: seq<string>)
    requires IsKeyRun(secrets, a) && IsKeyRun(secrets, b)
    ensures a == b
  {
    assert |a| == |b|;
    forall k | 0 <= k < |a|
      ensures a[k] == b[k]
    {
      assert KeyName(k + 1) in secrets;
    }
  }

  /** What one API call gives: the titles of the listed items, an HttpError, or another exception. */
  datatype CallOutcome =
    | Listed(titles: seq<string>)
    | HttpError(message: string)
    | Raised(message: string)

  /** `"quota" in str(e).lower()` for an HttpError. */
  predicate IsQuotaError(o: CallOutcome)
    ensures IsQuotaError(o) <==> o.HttpError? && exists i :: InfixAt(Lower(o.message), "quota", i)
  {
    o.HttpError? && (HasInfixIff(Lower(o.message), "quota"); HasInfix(Lower(o.message), "quota"))
  }

  /**
   * What a call that is not a quota error makes get_video_title return: the first item's
   * title, the not-found message, the error message with at most 100 characters of the
   * error, or (Failure) an exception that propagates to the caller.
   */
  function Verdict(o: CallOutcome): (r: Result<string, string>)
    requires !IsQuotaError(o)
    ensures o.Listed? && |o.titles| > 0 ==> r == Success(o.titles[0])
    ensures o.Listed? && |o.titles| == 0 ==> r == Success(NotFound)
    ensures o.HttpError? ==> r.Success? && ErrorPrefix <= r.value
    ensures o.HttpError? ==> r.value[|ErrorPrefix|..] <= o.message
    ensures o.HttpError? ==> |r.value| == |ErrorPrefix| + if |o.message| < ErrorExcerpt then |o.message| else ErrorExcerpt
    ensures o.Raised? ==> r == Failure(o.message)
  {
    match o
    case Listed(titles) => if |titles| > 0 then Success(titles[0]) else Success(NotFound)
    case HttpError(message) =>
      var excerpt := Truncate(message, ErrorExcerpt);
      assert (ErrorPrefix + excerpt)[|ErrorPrefix|..] == excerpt;
      Success(ErrorPrefix + excerpt)
    case Raised(message) => Failure(message)
  }

  /** The rotation over the keys, as a specification: skip quota errors, stop at anything else. */
  function Rotation(keys: seq<string>, api: string -> CallOutcome): (r: Result<string, string>)
    ensures r.Failure? ==> exists k | 0 <= k < |keys| :: api(keys[k]) == Raised(r.error)
    decreases |keys|
  {
    if |keys| == 0 then Success(AllExhausted)
    else if IsQuotaError(api(keys[0])) then Rotation(keys[1..], api)
    else Verdict(api(keys[0]))
  }

  /** get_video_title as a specification, given the discovered keys. */
  function TitleFor(videoId: string, keys: seq<string>, api: string -> CallOutcome): (r: Result<string, string>)
    ensures |keys| == 0 ==> r == Success(NoKeysPrefix + videoId)
    ensures r.Failure? ==> exists k | 0 <= k < |keys| :: api(keys[k]) == Raised(r.error)
  {
    if |keys| == 0 then Success(NoKeysPrefix + videoId) else Rotation(keys, api)
  }

  /** The rotation loop of get_video_title: `for api_key in api_keys`. */
  method TryKeys(videoId: string, keys: seq<string>, api: string -> CallOutcome) returns (r: Result<string, string>)
    ensures r == TitleFor(videoId, keys, api)
  {
    if |keys| == 0 {
      return Success(NoKeysPrefix + videoId);
    }
    for n := 0 to |keys|
      invariant Rotation(keys[n..], api) == Rotation(keys, api)
    {
      var outcome := api(keys[n]);
      match outcome {
        case Listed(titles) =>
          if |titles| > 0 {
            return Success(titles[0]);
          } else {
            return Success(NotFound);
          }
        case HttpError(message) =>
          if HasInfix(Lower(message), "quota") {
            assert keys[n..][1..] == keys[n + 1..];
            continue;
          } else {
            return Success(ErrorPrefix + Truncate(message, ErrorExcerpt));
          }
        case Raised(message) =>
          return Failure(message);
      }
    }
    assert keys[|keys|..] == [];
    return Success(AllExhausted);
  }

  /** get_video_title(video_id) with the secrets store and the API as parameters. */
  method GetVideoTitle(videoId: string, secrets: map<string, string>, api: string -> CallOutcome)
    returns (r: Result<string, string>)
    ensures exists keys :: IsKeyRun(secrets, keys) && r == TitleFor(videoId, keys, api)
  {
    var keys := DiscoverKeys(secrets);
    r := TryKeys(videoId, keys, api);
  }

  // ---------------------------------------------------------------------------
  // Properties of the rotation
  // ---------------------------------------------------------------------------

  /** With no YOUTUBE_API_KEY_1 the title is "Видео ID: " followed by the id. */
  lemma NoKeysGivesIdMessage(videoId: string, secrets: map<string, string>, keys: seq<string>, api: string -> CallOutcome)
    requires IsKeyRun(secrets, keys)
    requires KeyName(1) !in secrets
    ensures TitleFor(videoId, keys, api) == Success(NoKeysPrefix + videoId)
  {
  }

  /** When every key hits its quota, the result is the all-keys-exhausted message. */
  lemma {:induction false} AllQuotaExhausts(keys: seq<string>, api: string -> CallOutcome)
    requires forall k | 0 <= k < |keys| :: IsQuotaError(api(keys[k]))
    ensures Rotation(keys, api) == Success(AllExhausted)
    decreases |keys|
  {
    if |keys| > 0 {
      AllQuotaExhausts(keys[1..], api);
    }
  }

  /**
   * The first key whose call is not a quota error decides the result: keys before it
   * all hit their quota, and nothing after it matters.
   */
  lemma {:induction false} FirstDecisiveKey(keys: seq<string>, api: string -> CallOutcome, i: nat)
    requires i < |keys|
    requires forall k | 0 <= k < i :: IsQuotaError(api(keys[k]))
    requires !IsQuotaError(api(keys[i]))
    ensures Rotation(keys, api) == Verdict(api(keys[i]))
    decreases i
  {
    if i > 0 {
      FirstDecisiveKey(keys[1..], api, i - 1);
    }
  }

  /**
   * No key after the decisive one is tried: two APIs that agree on the keys up to and
   * including the first non-quota outcome give the same result.
   */
  lemma LaterKeysUntried(keys: seq<string>, api: string -> CallOutcome, api': string -> CallOutcome, i: nat)
    requires i < |keys|
    requires forall k | 0 <= k < i :: IsQuotaError(api(keys[k]))
    requires !IsQuotaError(api(keys[i]))
    requires forall k | 0 <= k <= i :: api(keys[k]) == api'(keys[k])
    ensures Rotation(keys, api) == Rotation(keys, api')
  {
    FirstDecisiveKey(keys, api, i);
    FirstDecisiveKey(keys, api', i);
  }

  /** The result is always one of the outcomes the source can return. */
  lemma {:induction false} RotationOutcomes(keys: seq<string>, api: string -> CallOutcome)
    ensures var r := Rotation(keys, api);
      || r == Success(AllExhausted)
      || r == Success(NotFound)
      || (r.Success? && ErrorPrefix <= r.value)
      || (exists k | 0 <= k < |keys| :: api(keys[k]).Listed? && |api(keys[k]).titles| > 0 && r == Success(api(keys[k]).titles[0]))
      || (exists k | 0 <= k < |keys| :: api(keys[k]).Raised? && r == Failure(api(keys[k]).message))
    decreases |keys|
  {
    if |keys| > 0 && IsQuotaError(api(keys[0])) {
      RotationOutcomes(keys[1..], api);
      var r := Rotation(keys, api);
      if exists k | 0 <= k < |keys| - 1 :: api(keys[1..][k]).Listed? && |api(keys[1..][k]).titles| > 0 && r == Success(api(keys[1..][k]).titles[0]) {
        var k :| 0 <= k < |keys| - 1 && api(keys[1..][k]).Listed? && |api(keys[1..][k]).titles| > 0 && r == Success(api(keys[1..][k]).titles[0]);
        assert keys[1..][k] == keys[k + 1];
      }
      if exists k | 0 <= k < |keys| - 1 :: api(keys[1..][k]).Raised? && r == Failure(api(keys[1..][k]).message) {
        var k :| 0 <= k < |keys| - 1 && api(keys[1..][k]).Raised? && r == Failure(api(keys[1..][k]).message);
        assert keys[1..][k] == keys[k + 1];
      }
    }
  }

  /** "QUOTA", "Quota", "qUoTa" or any other spelling of the word in the message is detected. */
  lemma {:induction false} QuotaInAnyCase(message: string, word: string)
    requires Lower(word) == "quota"
    requires HasInfix(message, word)
    ensures IsQuotaError(HttpError(message))
  {
    HasInfixIff(message, word);
    var i :| InfixAt(message, word, i);
    assert Lower(message)[i..i + 5] == Lower(word);
    assert InfixAt(Lower(message), "quota", i);
    HasInfixIff(Lower(message), "quota");
  }
}
