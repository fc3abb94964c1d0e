/**
 * The retry policy of the OpenAI translator (`translate_text`): up to five
 * attempts, a back-off of 5 * 2^n seconds after the n-th failed attempt when
 * the failure is one of the client's API errors, no wait after the last
 * attempt, and an empty string when every attempt fails or an unexpected
 * error occurs. The provider is an oracle: `provider(n)` is what attempt
 * `n` of this `translate_text` call gets back. Waits are recorded instead
 * of slept.
 */
module TranslateRetry {
  import opened Text

  const MaxRetries: nat := 5
  const InitialDelaySeconds: nat := 5

  /** The language names used in the prompt, keyed by language code. */
  const LanguageNames: map<string, string> := map[
    "en" := "English", "de" := "German", "fr" := "French", "it" := "Italian",
    "pl" := "Polish", "sv" := "Swedish", "nb" := "Norwegian (Bokm\U{221a}\U{2022}l)",
    "da" := "Danish", "fi" := "Finnish", "lt_LT" := "Lithuanian", "lv_LV" := "Latvian",
    "et_EE" := "Estonian", "tr_TR" := "Turkish", "ar" := "Arabic", "el" := "Greek"]

  /** `LANGUAGE_NAMES.get(code, code)`. */
  function PromptLanguageName(code: string): string {
    if code in LanguageNames then LanguageNames[code] else code
  }

  /** What one chat-completion call does. */
  datatype CallOutcome =
    | Reply(content: string)   // the first choice's message content
    | ApiError                 // APIConnectionError, RateLimitError, APITimeoutError or APIStatusError
    | OtherError               // any other exception

  /** The outcome of each attempt of one `translate_text` call, by attempt number. */
  type Provider = nat -> CallOutcome

  /**
   * The parts of the chat request that vary: source text, target code and
   * prompt add-ons. The prompt names the target language
   * `PromptLanguageName(langCode)`.
   */
  datatype Request = Request(text: string, langCode: string, addons: string)

  function Pow2(n: nat): nat {
    if n == 0 then 1 else 2 * Pow2(n - 1)
  }

  /** The wait after failed attempt `n` (counting from 0): `INITIAL_DELAY_SECONDS * 2 ** n`. */
  function BackoffDelay(n: nat): nat
  {
    if n == 0 then InitialDelaySeconds else 2 * BackoffDelay(n - 1)
  }

  /** The waits after attempts `n .. k-1`. */
  function DelaysBetween(n: nat, k: nat): seq<nat>
    decreases k - n
  {
    if n >= k then [] else [BackoffDelay(n)] + DelaysBetween(n + 1, k)
  }

  /** How the retry loop ended: the text returned, the waits taken, the calls made. */
  datatype Attempts = Attempts(text: string, waits: seq<nat>, calls: nat)

  /** The outcome of attempt `j`. */
  function At(provider: Provider, j: nat): CallOutcome {
    provider(j)
  }

  /** What an attempt that does not retry hands back. */
  function Final(o: CallOutcome): string {
    match o
    case Reply(t) => Strip(t)
    case _ => ""
  }

  /** The retry loop from attempt `n` on. */
  function RetryFrom(provider: Provider, n: nat, final: CallOutcome -> string): Attempts
    requires n < MaxRetries
    decreases MaxRetries - n
  {
    if At(provider, n).ApiError? && n < MaxRetries - 1 then
      var rest := RetryFrom(provider, n + 1, final);
      Attempts(rest.text, [BackoffDelay(n)] + rest.waits, rest.calls)
    else Attempts(final(At(provider, n)), [], n + 1)
  }

  /** The retry loop; the fifth API error hands back `Final(ApiError)`, the empty string. */
  function Retry(provider: Provider): Attempts {
    RetryFrom(provider, 0, Final)
  }

  /** `a` preceded by the waits `w` of earlier attempts. */
  function AfterWaits(w: seq<nat>, a: Attempts): Attempts {
    Attempts(a.text, w + a.waits, a.calls)
  }

  function Repeat<T>(x: T, n: nat): (r: seq<T>)
    ensures |r| == n && forall i :: 0 <= i < n ==> r[i] == x
  {
    if n == 0 then [] else [x] + Repeat(x, n - 1)
  }

  lemma {:induction false} DelaysSnoc(n: nat, k: nat)
    requires n <= k
    ensures DelaysBetween(n, k + 1) == DelaysBetween(n, k) + [BackoffDelay(k)]
    decreases k - n
  {
    if n < k { DelaysSnoc(n + 1, k); }
  }

  /**
   * `translate_text`: the same request goes out on every attempt; the loop
   * stops at the first reply, at the first unexpected error, or after the
   * fifth API error.
   */
  method TranslateText(provider: Provider, text: string, langCode: string, addons: string)
    returns (translation: string, waits: seq<nat>, sent: seq<Request>)
    ensures Attempts(translation, waits, |sent|) == Retry(provider)
    ensures sent == Repeat(Request(text, langCode, addons), |sent|)
  {
    var request := Request(text, langCode, addons);
    var calls: nat;
    translation, waits, calls := Attempt(provider);
    sent := Repeat(request, calls);
  }

  /** The attempt loop of `translate_text`; `calls` is the number of requests sent. */
  method Attempt(provider: Provider) returns (translation: string, waits: seq<nat>, calls: nat)
    ensures Attempts(translation, waits, calls) == Retry(provider)
  {
    waits := [];
    var attempt: nat := 0;
    while true
      invariant attempt < MaxRetries
      invariant waits == DelaysBetween(0, attempt)
      invariant Retry(provider) == AfterWaits(waits, RetryFrom(provider, attempt, Final))
      decreases MaxRetries - attempt
    {
      var outcome := At(provider, attempt);
      if !outcome.ApiError? {
        StepStops(provider, attempt, waits, Retry(provider), Final);
        return Final(outcome), waits, attempt + 1;
      } else if attempt < MaxRetries - 1 {
        StepRetries(provider, attempt, waits, Retry(provider), Final);
        waits := waits + [BackoffDelay(attempt)];
        attempt := attempt + 1;
      } else {
        StepStops(provider, attempt, waits, Retry(provider), Final);
        return "", waits, attempt + 1;
      }
    }
  }

  lemma StepStops(provider: Provider, n: nat, w: seq<nat>, whole: Attempts, final: CallOutcome -> string)
    requires n < MaxRetries
    requires !At(provider, n).ApiError? || n == MaxRetries - 1
    requires whole == AfterWaits(w, RetryFrom(provider, n, final))
    ensures whole == Attempts(final(At(provider, n)), w, n + 1)
  {
    assert w + [] == w;
  }

  lemma StepRetries(provider: Provider, n: nat, w: seq<nat>, whole: Attempts, final: CallOutcome -> string)
    requires n < MaxRetries - 1 && At(provider, n).ApiError?
    requires w == DelaysBetween(0, n)
    requires whole == AfterWaits(w, RetryFrom(provider, n, final))
    ensures whole == AfterWaits(w + [BackoffDelay(n)], RetryFrom(provider, n + 1, final))
    ensures w + [BackoffDelay(n)] == DelaysBetween(0, n + 1)
  {
    DelaysSnoc(0, n);
    var rest := RetryFrom(provider, n + 1, final);
    assert w + ([BackoffDelay(n)] + rest.waits) == (w + [BackoffDelay(n)]) + rest.waits;
  }

  /**
   * When attempts `0 .. k-1` hit API errors and attempt `k` does not, the
   * result is that attempt's answer after the waits 5, 10, ... for the
   * failures before it.
   */
  lemma {:induction false} RetryStopsAtFirstNonApiError(provider: Provider, k: nat)
    requires k < MaxRetries
    requires forall j :: 0 <= j < k ==> At(provider, j).ApiError?
    requires !At(provider, k).ApiError?
    ensures Retry(provider) == Attempts(Final(At(provider, k)), DelaysBetween(0, k), k + 1)
  {
    StopsFrom(provider, k, 0, Final);
  }

  lemma {:induction false} StopsFrom(provider: Provider, k: nat, n: nat, final: CallOutcome -> string)
    requires n <= k < MaxRetries
    requires forall j :: n <= j < k ==> At(provider, j).ApiError?
    requires !At(provider, k).ApiError?
    ensures RetryFrom(provider, n, final) == Attempts(final(At(provider, k)), DelaysBetween(n, k), k + 1)
    decreases k - n
  {
    if n < k { StopsFrom(provider, k, n + 1, final); }
  }

  /** Five API errors in a row: the text is empty after waiting 5, 10, 20 and 40 seconds. */
  lemma {:induction false} RetryGivesUpAfterFiveApiErrors(provider: Provider)
    requires forall j :: 0 <= j < MaxRetries ==> At(provider, j).ApiError?
    ensures Retry(provider) == Attempts("", [5, 10, 20, 40], 5)
  {
    GivesUpFrom(provider, 0, Final);
    assert DelaysBetween(0, 4) == [5, 10, 20, 40] by {
      assert DelaysBetween(4, 4) == [];
      assert DelaysBetween(3, 4) == [40];
      assert DelaysBetween(2, 4) == [20, 40];
      assert DelaysBetween(1, 4) == [10, 20, 40];
    }
  }

  lemma {:induction false} GivesUpFrom(provider: Provider, n: nat, final: CallOutcome -> string)
    requires n < MaxRetries
    requires forall j :: n <= j < MaxRetries ==> At(provider, j).ApiError?
    ensures RetryFrom(provider, n, final) == Attempts(final(At(provider, MaxRetries - 1)), DelaysBetween(n, MaxRetries - 1), MaxRetries)
    decreases MaxRetries - n
  {
    if n < MaxRetries - 1 { GivesUpFrom(provider, n + 1, final); }
  }

  /**
   * Whatever the provider does: between one and five calls, one wait fewer
   * than calls (none after the last attempt), the waits double from 5 s,
   * and a non-empty text only when the last call replied.
   */
  lemma {:induction false} RetryBounds(provider: Provider)
    ensures var a := Retry(provider);
      1 <= a.calls <= MaxRetries && a.waits == DelaysBetween(0, a.calls - 1)
      && (forall j :: 0 <= j < a.calls - 1 ==> At(provider, j).ApiError?)
      && (a.text != "" ==> At(provider, a.calls - 1).Reply?
                           && a.text == Strip(At(provider, a.calls - 1).content))
  {
    BoundsFrom(provider, 0, Final);
    TextFrom(provider, 0, Final);
  }

  lemma {:induction false} BoundsFrom(provider: Provider, n: nat, final: CallOutcome -> string)
    requires n < MaxRetries
    ensures var a := RetryFrom(provider, n, final);
      n + 1 <= a.calls <= MaxRetries && a.waits == DelaysBetween(n, a.calls - 1)
      && (forall j :: n <= j < a.calls - 1 ==> At(provider, j).ApiError?)
    decreases MaxRetries - n
  {
    if At(provider, n).ApiError? && n < MaxRetries - 1 {
      BoundsFrom(provider, n + 1, final);
      var rest := RetryFrom(provider, n + 1, final);
      assert DelaysBetween(n, rest.calls - 1) == [BackoffDelay(n)] + DelaysBetween(n + 1, rest.calls - 1);
    } else {
      assert DelaysBetween(n, n) == [];
    }
  }

  /** The text comes from the last attempt. */
  lemma {:induction false} TextFrom(provider: Provider, n: nat, final: CallOutcome -> string)
    requires n < MaxRetries
    ensures var a := RetryFrom(provider, n, final);
      n + 1 <= a.calls <= MaxRetries && a.text == final(At(provider, a.calls - 1))
    decreases MaxRetries - n
  {
    if At(provider, n).ApiError? && n < MaxRetries - 1 {
      TextFrom(provider, n + 1, final);
    }
  }

  /** The wait after failed attempt `n` is 5 * 2^n seconds. */
  lemma {:induction false} BackoffIsExponential(n: nat)
    ensures BackoffDelay(n) == InitialDelaySeconds * Pow2(n)
  {
    if n > 0 { BackoffIsExponential(n - 1); }
  }

  /** The i-th recorded wait belongs to attempt `n + i`. */
  lemma {:induction false} DelayAt(n: nat, k: nat, i: nat)
    requires n + i < k
    ensures |DelaysBetween(n, k)| == k - n && DelaysBetween(n, k)[i] == BackoffDelay(n + i)
    decreases k - n
  {
    if i > 0 { DelayAt(n + 1, k, i - 1); } else if n + 1 < k { DelayAt(n + 1, k, 0); }
  }
}
