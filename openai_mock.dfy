/**
 * The in-memory stand-in for the OpenAI API that the tests use: a canned
 * phrase table, a request counter, a token counter, and a failure mode
 * that raises one of several exception kinds after the request is counted.
 */
module OpenAiMock {
  import opened Wrappers
  import opened Text

  /** (text, target language) to translation. */
  type PhraseTable = map<(string, string), string>

  const DefaultPhrases: PhraseTable := map[
    ("Hello", "it") := "Ciao",
    ("Hello", "de") := "Hallo",
    ("Hello", "fr") := "Bonjour",
    ("Hello", "es") := "Hola",
    ("Goodbye", "it") := "Arrivederci",
    ("Goodbye", "de") := "Auf Wiedersehen",
    ("Goodbye", "fr") := "Au revoir",
    ("Thank you", "it") := "Grazie",
    ("Thank you", "de") := "Danke",
    ("Thank you", "fr") := "Merci",
    ("Welcome", "it") := "Benvenuto",
    ("Welcome", "de") := "Willkommen",
    ("Welcome", "fr") := "Bienvenue"
  ]

  const Generic := "generic"

  datatype ErrorKind = Exception | TimeoutError | ConnectionError
  datatype Raised = Raised(kind: ErrorKind, message: string)

  /** What `translate` raises in each failure mode. */
  function TranslateFailure(failureType: string): Raised {
    if failureType == "rate_limit" then Raised(Exception, "Rate limit exceeded. Please try again later.")
    else if failureType == "timeout" then Raised(TimeoutError, "Request timed out")
    else if failureType == "connection" then Raised(ConnectionError, "Connection failed")
    else Raised(Exception, "API error occurred")
  }

  /** What `chat_completion` raises in each failure mode; it has no connection case of its own. */
  function ChatFailure(failureType: string): Raised {
    if failureType == "rate_limit" then Raised(Exception, "Rate limit exceeded")
    else if failureType == "timeout" then Raised(TimeoutError, "Request timed out")
    else Raised(Exception, "API error")
  }

  /** The token estimate of a text: two per whitespace-separated word. */
  function Tokens(text: string): nat {
    2 * WordCount(text)
  }

  /** The canned translation, or the text tagged with the target language. */
  function MockTranslation(phrases: PhraseTable, text: string, lang: string): string {
    if (text, lang) in phrases then phrases[(text, lang)] else "[LANG:" + lang + "] " + text
  }

  /** An unknown phrase comes back whole, behind a tag naming the language. */
  lemma UnknownPhraseIsTagged(phrases: PhraseTable, text: string, lang: string)
    requires (text, lang) !in phrases
    ensures var r := MockTranslation(phrases, text, lang);
      StartsWith(r, "[LANG:" + lang + "] ") && EndsWith(r, text) && |r| == |text| + |lang| + 8
  {
    var r := MockTranslation(phrases, text, lang);
    assert r[..|"[LANG:" + lang + "] "|] == "[LANG:" + lang + "] ";
    assert r[|r| - |text|..] == text;
  }

  // ---------------------------------------------------------------------
  // Reading a chat request
  // ---------------------------------------------------------------------

  /** A chat message, read with `msg.get`: either field may be missing. */
  datatype Message = Message(role: Option<string>, content: Option<string>)

  function ContentOf(m: Message): string {
    match m.content case Some(c) => c case None => ""
  }

  predicate HasRole(m: Message, role: string) {
    m.role == Some(role)
  }

  /** Position of the last user message, if any. */
  function LastUser(messages: seq<Message>): (r: Option<nat>)
    ensures r.Some? ==> (r.value < |messages| && HasRole(messages[r.value], "user")
                         && forall j :: r.value < j < |messages| ==> !HasRole(messages[j], "user"))
    ensures r.None? ==> forall j :: 0 <= j < |messages| ==> !HasRole(messages[j], "user")
  {
    if |messages| == 0 then None
    else if HasRole(messages[|messages| - 1], "user") then Some(|messages| - 1)
    else LastUser(messages[..|messages| - 1])
  }

  /** Position of the first system message, if any. */
  function FirstSystem(messages: seq<Message>): (r: Option<nat>)
    ensures r.Some? ==> (r.value < |messages| && HasRole(messages[r.value], "system")
                         && forall j :: 0 <= j < r.value ==> !HasRole(messages[j], "system"))
    ensures r.None? ==> forall j :: 0 <= j < |messages| ==> !HasRole(messages[j], "system")
  {
    if |messages| == 0 then None
    else if HasRole(messages[0], "system") then Some(0)
    else
      var r := FirstSystem(messages[1..]);
      if r.Some? then Some(r.value + 1) else None
  }

  const NoTranslation := "No translation available"
  const CodeMarker := "language code: `"

  /** The text to translate: the last user message, or a fixed text when there is none or it is empty. */
  function UserText(messages: seq<Message>): (r: string)
    ensures r != ""
  {
    match LastUser(messages)
    case Some(i) => if ContentOf(messages[i]) == "" then NoTranslation else ContentOf(messages[i])
    case None => NoTranslation
  }

  /**
   * ASCII letters, digits and `_`. Python's `\w` on a `str` also matches
   * every other Unicode letter and digit; this predicate leaves those out.
   */
  predicate IsWordChar(c: char) {
    'a' <= c <= 'z' || 'A' <= c <= 'Z' || '0' <= c <= '9' || c == '_'
  }

  /** Length of the run of word characters starting at `i`. */
  function WordRun(s: string, i: nat): (n: nat)
    requires i <= |s|
    ensures i + n <= |s|
    ensures forall j :: i <= j < i + n ==> IsWordChar(s[j])
    ensures i + n < |s| ==> !IsWordChar(s[i + n])
    decreases |s| - i
  {
    if i < |s| && IsWordChar(s[i]) then 1 + WordRun(s, i + 1) else 0
  }

  /** The code matched at `p` by the pattern language code: `(\w+)`, if it matches there. */
  function CodeAt(s: string, p: nat): Option<string> {
    if !MatchAt(s, CodeMarker, p) then None
    else
      var q := p + |CodeMarker|;
      var n := WordRun(s, q);
      if n >= 1 && q + n < |s| && s[q + n] == '`' then Some(s[q..q + n]) else None
  }

  /** `re.search`: the code at the leftmost position where the pattern matches, from `from` on. */
  function SearchCode(s: string, from: nat): (r: Option<string>)
    ensures r.Some? ==> exists p :: from <= p < |s| && CodeAt(s, p) == r
    ensures r.None? ==> forall p :: from <= p ==> CodeAt(s, p).None?
    decreases |s| - from
  {
    if from >= |s| then None
    else if CodeAt(s, from).Some? then CodeAt(s, from)
    else SearchCode(s, from + 1)
  }

  /** The target language: the code in the first system message when it names one, otherwise "unknown". */
  function TargetLanguage(messages: seq<Message>): string {
    match FirstSystem(messages)
    case Some(i) =>
      var content := ContentOf(messages[i]);
      if Contains(content, "into **") then
        match SearchCode(content, 0) case Some(code) => code case None => "unknown"
      else "unknown"
    case None => "unknown"
  }

  /** A code found at `p` is a non-empty word spelled out there between the marker and a backtick. */
  lemma CodeAtSpellsCode(s: string, p: nat)
    requires CodeAt(s, p).Some?
    ensures var t := CodeAt(s, p).value;
      MatchAt(s, CodeMarker + t + "`", p) && |t| >= 1 && forall j :: 0 <= j < |t| ==> IsWordChar(t[j])
  {
    var t := CodeAt(s, p).value;
    var q := p + |CodeMarker|;
    var n := WordRun(s, q);
    assert s[p..q] == CodeMarker;
    assert s[p..q + n + 1] == s[p..q] + s[q..q + n] + [s[q + n]];
  }

  /**
   * The target language is "unknown" unless the first system message
   * asks for a translation "into **" a language and spells its code out
   * between the marker and a backtick.
   */
  lemma TargetLanguageIsQuoted(messages: seq<Message>)
    ensures var t := TargetLanguage(messages);
      t == "unknown"
      || (FirstSystem(messages).Some?
          && var content := ContentOf(messages[FirstSystem(messages).value]);
          Contains(content, "into **")
          && (exists p :: MatchAt(content, CodeMarker + t + "`", p))
          && |t| >= 1 && forall j :: 0 <= j < |t| ==> IsWordChar(t[j]))
  {
    var t := TargetLanguage(messages);
    if t != "unknown" {
      var i := FirstSystem(messages).value;
      var s := ContentOf(messages[i]);
      var p :| 0 <= p < |s| && CodeAt(s, p) == Some(t);
      CodeAtSpellsCode(s, p);
    }
  }

  /** Two tokens per word of every message's content. */
  function PromptTokens(messages: seq<Message>): nat {
    if |messages| == 0 then 0
    else PromptTokens(messages[..|messages| - 1]) + Tokens(ContentOf(messages[|messages| - 1]))
  }

  /** Tokens `translate` adds for each of `texts`, summed. */
  function BatchTokens(texts: seq<string>): nat {
    if |texts| == 0 then 0 else BatchTokens(texts[..|texts| - 1]) + Tokens(texts[|texts| - 1])
  }

  datatype ChatReply = ChatReply(id: string, model: string, content: string,
                                 promptTokens: nat, completionTokens: nat, totalTokens: nat)

  /** The scan of `chat_completion` for the last user message, from the end. */
  method ReadUserText(messages: seq<Message>) returns (user: string)
    ensures user == UserText(messages)
  {
    var userMessage: Option<string> := None;
    var i := |messages|;
    while i > 0
      invariant 0 <= i <= |messages|
      invariant userMessage.None? ==> LastUser(messages) == LastUser(messages[..i])
      invariant userMessage.Some? ==> LastUser(messages).Some? && userMessage == Some(ContentOf(messages[LastUser(messages).value]))
      invariant userMessage.Some? ==> i == 0
    {
      if HasRole(messages[i - 1], "user") {
        assert LastUser(messages[..i]) == Some(i - 1);
        userMessage := Some(ContentOf(messages[i - 1]));
        i := 0;
      } else {
        assert messages[..i][..i - 1] == messages[..i - 1];
        i := i - 1;
      }
    }
    if userMessage.None? {
      assert messages[..0] == [];
    }
    user := if userMessage.None? || userMessage.value == "" then NoTranslation else userMessage.value;
  }

  /** The scan of `chat_completion` for the first system message and the code it names. */
  method ReadTargetLanguage(messages: seq<Message>) returns (targetLang: string)
    ensures targetLang == TargetLanguage(messages)
  {
    targetLang := "unknown";
    var k := 0;
    var found := false;
    while k < |messages| && !found
      invariant 0 <= k <= |messages|
      invariant !found ==> targetLang == "unknown" && forall j :: 0 <= j < k ==> !HasRole(messages[j], "system")
      invariant found ==> targetLang == TargetLanguage(messages)
      decreases |messages| - k, !found
    {
      if HasRole(messages[k], "system") {
        assert FirstSystem(messages) == Some(k);
        var content := ContentOf(messages[k]);
        if Contains(content, "into **") {
          var code := SearchCode(content, 0);
          if code.Some? {
            targetLang := code.value;
          }
        }
        found := true;
      } else {
        k := k + 1;
      }
    }
  }

  /** The prompt-token sum of `chat_completion`. */
  method CountPromptTokens(messages: seq<Message>) returns (n: nat)
    ensures n == PromptTokens(messages)
  {
    n := 0;
    var m := 0;
    while m < |messages|
      invariant 0 <= m <= |messages|
      invariant n == PromptTokens(messages[..m])
    {
      assert messages[..m + 1][..m] == messages[..m];
      n := n + Tokens(ContentOf(messages[m]));
      m := m + 1;
    }
    assert messages[..|messages|] == messages;
  }

  // ---------------------------------------------------------------------
  // The mock client
  // ---------------------------------------------------------------------

  class MockOpenAIAPI {
    var requestCount: nat
    var totalTokens: nat
    var shouldFail: bool
    var failureType: string
    var phrases: PhraseTable

    constructor ()
      ensures requestCount == 0 && totalTokens == 0 && !shouldFail && failureType == Generic
      ensures phrases == DefaultPhrases
    {
      requestCount := 0;
      totalTokens := 0;
      shouldFail := false;
      failureType := Generic;
      phrases := DefaultPhrases;
    }

    /**
     * Counts the request first; in failure mode raises without charging
     * tokens, otherwise charges two tokens per word and answers from the
     * phrase table.
     */
    method Translate(text: string, targetLanguage: string) returns (r: Result<string, Raised>)
      modifies this
      ensures requestCount == old(requestCount) + 1
      ensures shouldFail == old(shouldFail) && failureType == old(failureType) && phrases == old(phrases)
      ensures shouldFail ==> r == Err(TranslateFailure(failureType)) && totalTokens == old(totalTokens)
      ensures !shouldFail ==>
        r == Ok(MockTranslation(phrases, text, targetLanguage)) && totalTokens == old(totalTokens) + Tokens(text)
    {
      requestCount := requestCount + 1;
      if shouldFail {
        return Err(TranslateFailure(failureType));
      }
      totalTokens := totalTokens + Tokens(text);
      if (text, targetLanguage) in phrases {
        return Ok(phrases[(text, targetLanguage)]);
      }
      return Ok("[LANG:" + targetLanguage + "] " + text);
    }

    /** `translate` on each text in turn; the first failure ends the batch. */
    method TranslateBatch(texts: seq<string>, targetLanguage: string) returns (r: Result<seq<string>, Raised>)
      modifies this
      ensures shouldFail == old(shouldFail) && failureType == old(failureType) && phrases == old(phrases)
      ensures shouldFail && |texts| > 0 ==>
        r == Err(TranslateFailure(failureType)) && requestCount == old(requestCount) + 1 && totalTokens == old(totalTokens)
      ensures !shouldFail || |texts| == 0 ==>
        r.Ok? && |r.value| == |texts|
        && (forall i :: 0 <= i < |texts| ==> r.value[i] == MockTranslation(phrases, texts[i], targetLanguage))
        && requestCount == old(requestCount) + |texts| && totalTokens == old(totalTokens) + BatchTokens(texts)
    {
      var out: seq<string> := [];
      var i := 0;
      while i < |texts|
        invariant 0 <= i <= |texts|
        invariant shouldFail == old(shouldFail) && failureType == old(failureType) && phrases == old(phrases)
        invariant shouldFail ==> i == 0 && requestCount == old(requestCount) && totalTokens == old(totalTokens)
        invariant |out| == i && forall j :: 0 <= j < i ==> out[j] == MockTranslation(phrases, texts[j], targetLanguage)
        invariant requestCount == old(requestCount) + i && totalTokens == old(totalTokens) + BatchTokens(texts[..i])
      {
        assert texts[..i + 1][..i] == texts[..i];
        assert BatchTokens(texts[..i + 1]) == BatchTokens(texts[..i]) + Tokens(texts[i]);
        var t := Translate(texts[i], targetLanguage);
        if t.Err? {
          return Err(t.error);
        }
        out := out + [t.value];
        i := i + 1;
      }
      assert texts[..|texts|] == texts;
      r := Ok(out);
    }

    /**
     * Counts the request; in failure mode raises. Otherwise translates the
     * last user message into the first system message's language code
     * (through `translate`, which counts a second request) and charges the
     * prompt and completion tokens on top.
     */
    method ChatCompletion(messages: seq<Message>, model: string) returns (r: Result<ChatReply, Raised>)
      modifies this
      ensures shouldFail == old(shouldFail) && failureType == old(failureType) && phrases == old(phrases)
      ensures shouldFail ==>
        r == Err(ChatFailure(failureType)) && requestCount == old(requestCount) + 1 && totalTokens == old(totalTokens)
      ensures !shouldFail ==>
        var user := UserText(messages);
        var translation := MockTranslation(phrases, user, TargetLanguage(messages));
        r.Ok? && r.value.content == translation && r.value.model == model
        && r.value.promptTokens == PromptTokens(messages) && r.value.completionTokens == Tokens(translation)
        && r.value.totalTokens == PromptTokens(messages) + Tokens(translation)
        && r.value.id == "chatcmpl-mock-" + NatToString(requestCount)
        && requestCount == old(requestCount) + 2
        && totalTokens == old(totalTokens) + Tokens(user) + r.value.totalTokens
    {
      requestCount := requestCount + 1;
      if shouldFail {
        return Err(ChatFailure(failureType));
      }
      var user := ReadUserText(messages);
      var targetLang := ReadTargetLanguage(messages);
      var translated := Translate(user, targetLang);
      var translation := translated.value;
      var promptTokens := CountPromptTokens(messages);
      var completionTokens := Tokens(translation);
      var total := promptTokens + completionTokens;
      totalTokens := totalTokens + total;
      r := Ok(ChatReply("chatcmpl-mock-" + NatToString(requestCount), model, translation,
                        promptTokens, completionTokens, total));
    }

    /** Adds or replaces one phrase; nothing else changes. */
    method AddTranslation(text: string, language: string, translation: string)
      modifies this
      ensures phrases == old(phrases)[(text, language) := translation]
      ensures requestCount == old(requestCount) && totalTokens == old(totalTokens)
      ensures shouldFail == old(shouldFail) && failureType == old(failureType)
    {
      phrases := phrases[(text, language) := translation];
    }

    /** Back to the default phrase table, zero counters and generic non-failing mode. */
    method Reset()
      modifies this
      ensures requestCount == 0 && totalTokens == 0 && !shouldFail && failureType == Generic
      ensures phrases == DefaultPhrases
    {
      requestCount := 0;
      totalTokens := 0;
      shouldFail := false;
      failureType := Generic;
      phrases := DefaultPhrases;
    }

    method SetFailureMode(fail: bool, kind: string)
      modifies this
      ensures shouldFail == fail && failureType == kind
      ensures requestCount == old(requestCount) && totalTokens == old(totalTokens) && phrases == old(phrases)
    {
      shouldFail := fail;
      failureType := kind;
    }
  }
}
