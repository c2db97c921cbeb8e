/**
 * The `POST /translate` route: the ordered chain of guards the route applies
 * to the decoded JSON body before it calls the translation service, and the
 * envelope it answers with.
 */
module Route {
  import opened Wrappers
  import opened Json
  import opened PyText
  import opened Gateway
  import Catalog

  const MaxTextLength := 5000
  const AutoDetect := "auto"
  const DefaultSource := AutoDetect
  const DefaultTarget := "en"

  const ServerErrorPrefix := "Server error: "

  /**
   * The JSON object the client posts: the `text`, `source_lang` and
   * `target_lang` keys, each possibly absent. `text` may hold any JSON value.
   */
  datatype Request = Request(text: Option<Value>, sourceLang: Option<string>, targetLang: Option<string>)

  /** Why the route answers without calling the translation service. */
  datatype Rejection =
    | NoText                    // no JSON body, or no `text` key
    | TextNotString(v: Value)   // `text` holds a non-string, so `.strip()` raises
    | BlankText                 // nothing is left after stripping
    | TextTooLong               // more than 5000 characters are left after stripping
    | SameLanguage              // equal languages other than "auto"

  /**
   * The `error` string of the envelope the route answers a rejection with.
   * Only the fault raised by `.strip()` reaches the handler's "Server error: "
   * answer; the four guard messages are the route's own literals.
   */
  function Message(reason: Rejection): (r: string)
    ensures |r| >= |ServerErrorPrefix|
    ensures r[..|ServerErrorPrefix|] == ServerErrorPrefix <==> reason.TextNotString?
  {
    match reason
    // each literal differs from "Server error: " in its first or second character
    case NoText => assert "No text provided"[0] != ServerErrorPrefix[0]; "No text provided"
    case TextNotString(v) => ServerErrorPrefix + "'" + TypeName(v) + "' object has no attribute 'strip'"
    case BlankText =>
      assert "Please enter text to translate"[0] != ServerErrorPrefix[0];
      "Please enter text to translate"
    case TextTooLong =>
      assert "Text too long (max 5000 characters)"[0] != ServerErrorPrefix[0];
      "Text too long (max 5000 characters)"
    case SameLanguage =>
      // in two pieces: the verifier cannot see the characters of a literal this long
      assert ("Source and target " + "languages cannot be the same")[1] != ServerErrorPrefix[1];
      "Source and target " + "languages cannot be the same"
  }

  /**
   * What the guards decide: call the translation service with the stripped
   * text and the language pair, or answer `{success: false, error}` at once.
   */
  datatype Decision = Forward(text: string, sourceLang: string, targetLang: string) | Reject(reason: Rejection)

  /**
   * The request invariant the guards establish: 1 to 5000 characters with no
   * whitespace at either end, and distinct languages unless the source is "auto".
   */
  predicate WellFormed(text: string, sourceLang: string, targetLang: string) {
    && 1 <= |text| <= MaxTextLength
    && Tight(text)
    && (sourceLang != AutoDetect ==> sourceLang != targetLang)
  }

  /**
   * The guards of the route, in their order. `body` is `None` when
   * `request.get_json()` yields `None` (a JSON `null` body).
   */
  function Validate(body: Option<Request>): (d: Decision)
    ensures d.Forward? ==> WellFormed(d.text, d.sourceLang, d.targetLang)
    ensures d.Forward? ==>
      && body.Some? && body.value.text.Some? && body.value.text.value.JString?
      && |d.text| <= |body.value.text.value.s|
      && d.sourceLang == body.value.sourceLang.GetOr(DefaultSource)
      && d.targetLang == body.value.targetLang.GetOr(DefaultTarget)
  {
    if body.None? || body.value.text.None? then Reject(NoText)
    else if !body.value.text.value.JString? then Reject(TextNotString(body.value.text.value))
    else
      var text := Strip(body.value.text.value.s);
      var sourceLang := body.value.sourceLang.GetOr(DefaultSource);
      var targetLang := body.value.targetLang.GetOr(DefaultTarget);
      if text == [] then Reject(BlankText)
      else if |text| > MaxTextLength then Reject(TextTooLong)
      else if sourceLang == targetLang && sourceLang != AutoDetect then Reject(SameLanguage)
      else Forward(text, sourceLang, targetLang)
  }

  /** The whole route: validate, then either answer the rejection or translate. */
  function Respond(body: Option<Request>, provider: Provider): (r: TranslationResult)
    ensures Validate(body).Reject? ==> r == Failure(Message(Validate(body).reason))
    ensures r.Success? ==>
      && Validate(body).Forward?
      && WellFormed(Validate(body).text, r.sourceLang, r.targetLang)
      && r.sourceLang == body.value.sourceLang.GetOr(DefaultSource)
      && r.targetLang == body.value.targetLang.GetOr(DefaultTarget)
  {
    match Validate(body)
    case Reject(reason) => Failure(Message(reason))
    case Forward(text, sourceLang, targetLang) => TranslateText(text, sourceLang, targetLang, provider)
  }

  /** The route forwards exactly the requests that pass every guard. */
  lemma ForwardIff(body: Option<Request>)
    ensures Validate(body).Forward? <==>
      && body.Some? && body.value.text.Some? && body.value.text.value.JString?
      && 1 <= |Strip(body.value.text.value.s)| <= MaxTextLength
      && var sourceLang := body.value.sourceLang.GetOr(DefaultSource);
         !(sourceLang == body.value.targetLang.GetOr(DefaultTarget) && sourceLang != AutoDetect)
  {
  }

  /** A rejected request never reaches the provider: the answer does not depend on it. */
  lemma RejectionSkipsProvider(body: Option<Request>, p1: Provider, p2: Provider)
    requires Validate(body).Reject?
    ensures Respond(body, p1) == Respond(body, p2) == Failure(Message(Validate(body).reason))
  {
  }

  /** No body, or a body without `text`, is answered "No text provided". */
  lemma MissingText(body: Option<Request>, provider: Provider)
    requires body.None? || body.value.text.None?
    ensures Validate(body) == Reject(NoText)
    ensures Respond(body, provider) == Failure("No text provided")
  {
  }

  /**
   * A `text` that is not a string makes `.strip()` raise before any other
   * guard runs; the route's handler answers with a server error naming its type.
   */
  lemma NonStringText(v: Value, sourceLang: Option<string>, targetLang: Option<string>, provider: Provider)
    requires !v.JString?
    ensures Validate(Some(Request(Some(v), sourceLang, targetLang))) == Reject(TextNotString(v))
    ensures Respond(Some(Request(Some(v), sourceLang, targetLang)), provider)
      == Failure("Server error: '" + TypeName(v) + "' object has no attribute 'strip'")
  {
  }

  /**
   * Empty or whitespace-only text is answered "Please enter text to
   * translate", whatever the languages (this guard precedes the language check).
   */
  lemma BlankTextGuard(t: string, sourceLang: Option<string>, targetLang: Option<string>, provider: Provider)
    requires AllSpace(t)
    ensures Validate(Some(Request(Some(JString(t)), sourceLang, targetLang))) == Reject(BlankText)
    ensures Respond(Some(Request(Some(JString(t)), sourceLang, targetLang)), provider)
      == Failure("Please enter text to translate")
  {
    StripEmptyIff(t);
  }

  /** Text that is not all whitespace is never answered with the blank-text rejection. */
  lemma NonBlankTextPassesBlankGuard(t: string, sourceLang: Option<string>, targetLang: Option<string>)
    requires !AllSpace(t)
    ensures Validate(Some(Request(Some(JString(t)), sourceLang, targetLang))) != Reject(BlankText)
  {
    StripEmptyIff(t);
  }

  /**
   * Length counts after stripping: a tight core of more than 5000 characters
   * is too long whatever the languages; one of at most 5000 passes this guard
   * however much whitespace surrounds it.
   */
  lemma LengthGuard(pre: string, core: string, post: string, sourceLang: Option<string>, targetLang: Option<string>,
                    provider: Provider)
    requires AllSpace(pre) && AllSpace(post) && Tight(core) && core != []
    ensures var d := Validate(Some(Request(Some(JString(pre + core + post)), sourceLang, targetLang)));
      d == Reject(TextTooLong) <==> |core| > MaxTextLength
    ensures |core| > MaxTextLength ==>
      Respond(Some(Request(Some(JString(pre + core + post)), sourceLang, targetLang)), provider)
        == Failure("Text too long (max 5000 characters)")
  {
    StripOf(pre, core, post);
  }

  /** The boundary: 5000 characters are forwarded, 5001 are rejected (same-language aside). */
  lemma LengthBoundary(t: string, sourceLang: Option<string>, targetLang: Option<string>)
    requires Tight(t)
    requires sourceLang.GetOr(DefaultSource) != targetLang.GetOr(DefaultTarget)
    ensures |t| == 5000 ==>
      Validate(Some(Request(Some(JString(t)), sourceLang, targetLang)))
        == Forward(t, sourceLang.GetOr(DefaultSource), targetLang.GetOr(DefaultTarget))
    ensures |t| == 5001 ==>
      Validate(Some(Request(Some(JString(t)), sourceLang, targetLang))) == Reject(TextTooLong)
  {
    StripOf([], t, []);
    assert [] + t + [] == t;
  }

  /**
   * The same language on both sides is rejected unless it is "auto"; the
   * check runs only once the text passed its guards.
   */
  lemma SameLanguageGuard(t: string, lang: string, provider: Provider)
    requires 1 <= |Strip(t)| <= MaxTextLength
    ensures Validate(Some(Request(Some(JString(t)), Some(lang), Some(lang)))) ==
      if lang == AutoDetect then Forward(Strip(t), AutoDetect, AutoDetect) else Reject(SameLanguage)
    ensures lang != AutoDetect ==>
      Respond(Some(Request(Some(JString(t)), Some(lang), Some(lang))), provider)
        == Failure("Source and target " + "languages cannot be the same")
  {
  }

  /**
   * Defaults: an absent `source_lang` is "auto" and an absent `target_lang`
   * is "en", so a request naming no source language is never rejected as
   * same-language; naming only "en" as the source is.
   */
  lemma Defaults(t: string)
    requires 1 <= |Strip(t)| <= MaxTextLength
    ensures Validate(Some(Request(Some(JString(t)), None, None))) == Forward(Strip(t), "auto", "en")
    ensures forall target ::
      Validate(Some(Request(Some(JString(t)), None, Some(target)))) == Forward(Strip(t), "auto", target)
    ensures Validate(Some(Request(Some(JString(t)), Some("en"), None))) == Reject(SameLanguage)
  {
  }

  /**
   * When every guard passes, the translation service is called with the
   * submitted text stripped of its surrounding whitespace and the (defaulted)
   * pair, and its result is the answer.
   */
  lemma ForwardsValidatedQuery(body: Option<Request>, provider: Provider)
    requires Validate(body).Forward?
    ensures var d := Validate(body);
      && body.value.text.value.JString?
      && d.text == Strip(body.value.text.value.s)
      && StripsTo(body.value.text.value.s, d.text)
      && Respond(body, provider) == TranslateText(d.text, d.sourceLang, d.targetLang, provider)
  {
    StripSpec(body.value.text.value.s);
  }

  /**
   * End to end: well-formed text and a provider answering status 200 yield
   * Success with the provider's translation and the requested pair.
   */
  lemma EndToEndSuccess(t: string, sourceLang: string, targetLang: string, provider: Provider)
    requires 1 <= |Strip(t)| <= MaxTextLength
    requires sourceLang == AutoDetect || sourceLang != targetLang
    requires provider(Strip(t), sourceLang, targetLang).Delivered?
    requires var p := provider(Strip(t), sourceLang, targetLang).payload; StatusOk(p) && HasTranslation(p)
    ensures Respond(Some(Request(Some(JString(t)), Some(sourceLang), Some(targetLang))), provider)
      == Success(provider(Strip(t), sourceLang, targetLang).payload.responseData.value.translatedText.value,
                 sourceLang, targetLang)
  {
  }

  /** Both defaults are codes of the language catalog. */
  lemma DefaultsAreListed()
    ensures Catalog.Listed(Catalog.SupportedLanguages(), DefaultSource)
    ensures Catalog.Listed(Catalog.SupportedLanguages(), DefaultTarget)
  {
    Catalog.ListedIff(DefaultSource);
    Catalog.ListedIff(DefaultTarget);
  }

  /**
   * The guards never consult the catalog: codes it does not list (any code
   * longer than five characters) are forwarded to the provider unchanged.
   */
  lemma UnlistedCodesForwarded(t: string, sourceLang: string, targetLang: string)
    requires 1 <= |Strip(t)| <= MaxTextLength
    requires |sourceLang| > 5 && |targetLang| > 5 && sourceLang != targetLang
    ensures !Catalog.Listed(Catalog.SupportedLanguages(), sourceLang)
    ensures !Catalog.Listed(Catalog.SupportedLanguages(), targetLang)
    ensures Validate(Some(Request(Some(JString(t)), Some(sourceLang), Some(targetLang))))
      == Forward(Strip(t), sourceLang, targetLang)
  {
    Catalog.LongCodesUnlisted(sourceLang);
    Catalog.LongCodesUnlisted(targetLang);
  }

  /**
   * A transport failure of a forwarded request is answered with an error
   * that names a network cause.
   */
  lemma NetworkFailure(body: Option<Request>, provider: Provider)
    requires Validate(body).Forward?
    requires provider(Validate(body).text, Validate(body).sourceLang, Validate(body).targetLang).TransportError?
    ensures Respond(body, provider).Failure?
    ensures Respond(body, provider).error[..|NetworkErrorPrefix|] == NetworkErrorPrefix
  {
  }
}
