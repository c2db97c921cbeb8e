/**
 * `TranslationService.translate_text`: one call to the MyMemory translation
 * provider and the shaping of its reply into the uniform result envelope.
 * The HTTP exchange itself (URL encoding of the text, the GET with its
 * 10-second timeout, `raise_for_status`, JSON decoding) is the `Provider`
 * function the caller supplies; this module models what happens to its reply.
 */
module Gateway {
  import opened Wrappers
  import opened Json

  /** `{success: true, translated_text, source_lang, target_lang}` or `{success: false, error}`. */
  datatype TranslationResult =
    | Success(translatedText: string, sourceLang: string, targetLang: string)
    | Failure(error: string)

  /** The `responseData` object of a provider payload. */
  datatype ResponseData = ResponseData(translatedText: Option<string>)

  /** The fields of the provider's JSON payload that `translate_text` reads. */
  datatype Payload = Payload(
    responseStatus: Option<Value>,
    responseData: Option<ResponseData>,
    responseDetails: Option<string>)

  /**
   * What the HTTP exchange with the provider yields: a `requests.RequestException`
   * (timeout, DNS or connection failure, 4xx or 5xx status, undecodable body) with
   * its `str(e)`, or the decoded payload.
   */
  datatype ProviderReply = TransportError(detail: string) | Delivered(payload: Payload)

  /** The provider, as seen from `translate_text`: (text, source_lang, target_lang) to its reply. */
  type Provider = (string, string, string) -> ProviderReply

  const DefaultError := "Translation failed"
  const NetworkErrorPrefix := "Network error: "
  const TranslationErrorPrefix := "Translation error: "

  /** The message of a `KeyError` raised by `d[key]`, caught by `except Exception`. */
  function KeyErrorMessage(key: string): (r: string)
    ensures |r| == |TranslationErrorPrefix| + |key| + 2
    ensures r[..|TranslationErrorPrefix|] == TranslationErrorPrefix
    ensures r[|TranslationErrorPrefix|] == '\'' && r[|r| - 1] == '\''
    ensures r[|TranslationErrorPrefix| + 1..|r| - 1] == key
  {
    TranslationErrorPrefix + "'" + key + "'"
  }

  /** `data.get('responseStatus') == 200`. */
  predicate StatusOk(p: Payload) {
    p.responseStatus.Some? && EqualsInt(p.responseStatus.value, 200)
  }

  /** The payload carries `responseData.translatedText`. */
  predicate HasTranslation(p: Payload) {
    p.responseData.Some? && p.responseData.value.translatedText.Some?
  }

  /** The branch of `translate_text` that inspects the decoded payload. */
  function ShapeResponse(p: Payload, sourceLang: string, targetLang: string): (r: TranslationResult)
    ensures r.Success? <==> StatusOk(p) && HasTranslation(p)
    ensures r.Success? ==> r.sourceLang == sourceLang && r.targetLang == targetLang
    ensures !StatusOk(p) ==> r == Failure(p.responseDetails.GetOr(DefaultError))
  {
    if StatusOk(p) then
      match p.responseData
      case None => Failure(KeyErrorMessage("responseData"))
      case Some(data) =>
        match data.translatedText
        case None => Failure(KeyErrorMessage("translatedText"))
        case Some(text) => Success(text, sourceLang, targetLang)
    else
      Failure(p.responseDetails.GetOr(DefaultError))
  }

  /** `translate_text(text, source_lang, target_lang)`, with the provider as a parameter. */
  function TranslateText(text: string, sourceLang: string, targetLang: string, provider: Provider): (r: TranslationResult)
    ensures var reply := provider(text, sourceLang, targetLang);
      r.Success? <==> reply.Delivered? && StatusOk(reply.payload) && HasTranslation(reply.payload)
    ensures var reply := provider(text, sourceLang, targetLang);
      r.Success? ==> r == Success(reply.payload.responseData.value.translatedText.value, sourceLang, targetLang)
    ensures var reply := provider(text, sourceLang, targetLang);
      reply.TransportError? ==> r == Failure(NetworkErrorPrefix + reply.detail)
  {
    match provider(text, sourceLang, targetLang)
    case TransportError(detail) => Failure(NetworkErrorPrefix + detail)
    case Delivered(payload) => ShapeResponse(payload, sourceLang, targetLang)
  }

  /**
   * A payload with status 200 and a translation yields Success carrying the
   * provider's translated text and the REQUESTED language pair, whatever pair
   * the request named.
   */
  lemma SuccessEchoesRequest(p: Payload, sourceLang: string, targetLang: string)
    requires StatusOk(p) && HasTranslation(p)
    ensures ShapeResponse(p, sourceLang, targetLang)
      == Success(p.responseData.value.translatedText.value, sourceLang, targetLang)
  {
  }

  /**
   * The language pair only labels the result: two requests that receive the
   * same payload agree on success and on everything but the echoed pair.
   */
  lemma PairOnlyLabelsResult(p: Payload, s1: string, t1: string, s2: string, t2: string)
    ensures ShapeResponse(p, s1, t1).Success? == ShapeResponse(p, s2, t2).Success?
    ensures ShapeResponse(p, s1, t1).Success? ==>
      ShapeResponse(p, s1, t1).translatedText == ShapeResponse(p, s2, t2).translatedText
    ensures ShapeResponse(p, s1, t1).Failure? ==> ShapeResponse(p, s1, t1) == ShapeResponse(p, s2, t2)
  {
  }

  /**
   * A payload whose status is not 200 fails with the provider's
   * `responseDetails`, or with "Translation failed" when it has none.
   */
  lemma ProviderFailureMessage(p: Payload, sourceLang: string, targetLang: string)
    requires !StatusOk(p)
    ensures p.responseDetails.Some? ==> ShapeResponse(p, sourceLang, targetLang) == Failure(p.responseDetails.value)
    ensures p.responseDetails.None? ==> ShapeResponse(p, sourceLang, targetLang) == Failure(DefaultError)
  {
  }

  /**
   * The status must equal the number 200: the string "200", or a payload with
   * no status at all, is a provider failure even when a translation is present.
   */
  lemma StatusMustBeNumeric(data: ResponseData, details: Option<string>, sourceLang: string, targetLang: string)
    ensures ShapeResponse(Payload(Some(JString("200")), Some(data), details), sourceLang, targetLang)
      == Failure(details.GetOr(DefaultError))
    ensures ShapeResponse(Payload(None, Some(data), details), sourceLang, targetLang)
      == Failure(details.GetOr(DefaultError))
    ensures data.translatedText.Some? ==>
      ShapeResponse(Payload(Some(JFloat(200.0)), Some(data), details), sourceLang, targetLang).Success?
  {
  }

  /**
   * Status 200 without the translated text is an unexpected fault, caught and
   * reported as a translation error naming the missing key.
   */
  lemma MissingTranslationIsFault(p: Payload, sourceLang: string, targetLang: string)
    requires StatusOk(p) && !HasTranslation(p)
    ensures ShapeResponse(p, sourceLang, targetLang) ==
      Failure(KeyErrorMessage(if p.responseData.None? then "responseData" else "translatedText"))
    ensures ShapeResponse(p, sourceLang, targetLang).error[..|TranslationErrorPrefix|] == TranslationErrorPrefix
  {
  }
}
