# Language translation proxy: a Dafny model

This project models the logic of a small Flask backend that forwards text to
the MyMemory translation API. The model covers three parts of `app.py`:

- **Request validation.** This is the `POST /translate` route (module `Route`).
  It runs an ordered chain of guards on the decoded JSON body: missing body or
  `text` key, a `text` that is not a string, blank text after `strip()`, more
  than 5000 characters after `strip()`, and the same language on both sides
  unless the source is `"auto"`. It also supplies the defaults `"auto"` and
  `"en"`. The result is either a rejection, which is sent back at once, or a
  call to the translation service with the stripped text and the language pair.
- **Result shaping.** This is `TranslationService.translate_text` (module
  `Gateway`). It turns the provider's reply into the envelope
  `Success{translated_text, source_lang, target_lang}` or `Failure{error}`.
  On success the language pair is the one the request named. On failure the
  message is `responseDetails`, or `"Translation failed"` when that is absent.
  A transport fault becomes `"Network error: …"`. A payload with status 200 but
  no translation makes the code raise a `KeyError`, reported as
  `"Translation error: '<key>'"`.
- **Language catalog.** This is `TranslationService.get_supported_languages`
  (module `Catalog`): 30 (code, display name) pairs in a fixed order, starting
  with `auto`. The model proves the codes are distinct and that the dictionary
  served by `GET /languages` has exactly those 30 keys.

Module `PyText` models Python's `str.strip()`, using the exact set of
characters for which `str.isspace()` holds. Module `Json` models the decoded
JSON values. Module `Wrappers` holds `Option`.

The HTTP exchange with the provider is a parameter of type `Provider`, a
function from `(text, source_lang, target_lang)` to a `ProviderReply`. Because
the translator is a parameter, "the translator is never called" can be stated
as a lemma: for a rejected request, the answer is the same for any two
providers.

Three behaviours of the code are easy to miss:

- The length limit is applied to the text *after* stripping. A 5000-character
  text wrapped in any amount of whitespace is accepted.
- A `text` value that is not a string reaches `.strip()` and raises
  `AttributeError`. The route's `except` turns that into
  `"Server error: '<type>' object has no attribute 'strip'"`.
- A request that names only `source_lang: "en"` is rejected as same-language,
  because the target defaults to `"en"`.

## Model

| member | source | states |
|---|---|---|
| `Route.Validate` | app.py:114-130 | a forwarded request satisfies the request invariant: 1..5000 characters, no whitespace at either end, languages distinct unless the source is "auto"; it comes from a string `text` of at least that length, with the languages defaulted to "auto"/"en" |
| `Route.Respond` | app.py:114-137 | a rejection is answered with its message; a Success only ever answers a request that passed every guard, and it names that request's (defaulted) language pair |
| `Route.ForwardIff` | app.py:118-133 | a request is forwarded if and only if the body and `text` are present, `text` is a string, its stripped length is in 1..5000, and the defaulted languages are not equal (or the source is "auto") |
| `Route.RejectionSkipsProvider` | app.py:118-133 | for a rejected request, the answer is the same for every provider, so the translator is never consulted |
| `Route.MissingText` | app.py:118-119 | no body, or a body without `text`, is answered "No text provided" |
| `Route.Message` | app.py:118-137 | a rejection's `error` string starts with "Server error: " if and only if it comes from a non-string `text`; the four guard rejections answer with the route's own literals |
| `Route.NonStringText` | app.py:121-137 | a non-string `text` is rejected by the failing `.strip()` before any other guard, whatever the languages, and answered "Server error: '<type>' object has no attribute 'strip'" |
| `Route.BlankTextGuard` | app.py:121-126 | whitespace-only (or empty) text is answered "Please enter text to translate", whatever the languages |
| `Route.NonBlankTextPassesBlankGuard` | app.py:125-126 | text that is not all whitespace is never rejected as blank |
| `Route.LengthGuard` | app.py:121-128 | for any text made of whitespace, a tight core and whitespace, the too-long rejection happens if and only if the core exceeds 5000 characters, and it is answered "Text too long (max 5000 characters)" |
| `Route.LengthBoundary` | app.py:127-128 | 5000 characters with distinct languages are forwarded unchanged; 5001 are rejected as too long |
| `Route.SameLanguageGuard` | app.py:129-130 | the same language on both sides is rejected with "Source and target languages cannot be the same", except "auto"/"auto", which is forwarded |
| `Route.Defaults` | app.py:122-130 | an absent source is "auto" and an absent target is "en"; a request with no source is never rejected as same-language; source "en" with no target is rejected |
| `Route.ForwardsValidatedQuery` | app.py:121-134 | the translation service receives the submitted text stripped of surrounding whitespace only, plus the defaulted pair, and its result is the answer |
| `Route.EndToEndSuccess` | app.py:121-134 | valid text and a provider reply with status 200 yield Success with the provider's translation and the requested language pair |
| `Route.DefaultsAreListed` | app.py:122-123 | both default codes are catalog codes |
| `Route.UnlistedCodesForwarded` | app.py:129-133 | the guards never check codes against the catalog: two distinct codes longer than five characters, which the catalog does not list, are forwarded as given |
| `Route.NetworkFailure` | app.py:48-52 | a transport failure of a forwarded request is answered with a Failure whose message starts "Network error: " |
| `Json.TypeName` | app.py:121-137 | the Python type name of a decoded JSON value, the one the `AttributeError` message quotes, is one of the seven JSON-derived types, and it is "str" exactly for strings |
| `Json.EqualsIntIff` | app.py:35 | a JSON value equals an int under Python's `==` exactly when it is that int, the float of the same value, or `False`/`True` for 0/1; a string never does |
| `Gateway.KeyErrorMessage` | app.py:53-57 | a missing-key fault is reported as "Translation error: " followed by the key in single quotes, as `str(KeyError(key))` renders it |
| `Gateway.ShapeResponse` | app.py:35-57 | Success if and only if the status equals 200 and a translation is present; a Success carries the requested pair; a non-200 status fails with `responseDetails` or "Translation failed" |
| `Gateway.TranslateText` | app.py:16-57 | Success exactly when the provider delivers a status-200 payload with a translation, carrying that translation and the requested pair; a transport fault gives "Network error: " followed by its detail |
| `Gateway.SuccessEchoesRequest` | app.py:35-41 | a successful payload yields Success with the provider's text and the requested pair, for any pair |
| `Gateway.PairOnlyLabelsResult` | app.py:35-46 | two requests receiving the same payload agree on success, on the translated text and on any failure message; the pair only labels the result |
| `Gateway.ProviderFailureMessage` | app.py:42-46 | a non-200 status fails with `responseDetails` when present, else with "Translation failed" |
| `Gateway.StatusMustBeNumeric` | app.py:35 | the string "200", or a missing status, is a failure even when a translation is present; the float 200.0 counts as 200 |
| `Gateway.MissingTranslationIsFault` | app.py:38-57 | status 200 without `responseData` or `translatedText` fails with a "Translation error: " message naming the missing key |
| `PyText.IsSpaceCharacters` | app.py:121 | the ASCII characters `strip()` removes are exactly tab, newline, vertical tab, form feed, carriage return, 0x1C-0x1F and space; no-break space and ideographic space are whitespace, zero-width space and the byte-order mark are not |
| `PyText.TrimStart` | app.py:121 | the result is no longer than the input and does not start with whitespace |
| `PyText.TrimStartSpec` | app.py:121 | the left strip removes a prefix of the input that is all whitespace |
| `PyText.TrimEnd` | app.py:121 | the result is no longer than the input and does not end with whitespace |
| `PyText.TrimEndSpec` | app.py:121 | the right strip removes a suffix of the input that is all whitespace |
| `PyText.Strip` | app.py:121 | the stripped text is no longer than the input and has no whitespace at either end |
| `PyText.StripSpec` | app.py:121 | the input is whitespace, then the stripped text, then whitespace |
| `PyText.StripOf` | app.py:121 | whatever whitespace surrounds a tight core, stripping returns exactly that core |
| `PyText.StripEmptyIff` | app.py:121 | stripping yields the empty string if and only if the text is all whitespace |
| `PyText.StripIdempotent` | app.py:121 | stripping twice is the same as stripping once |
| `PyText.TrimStartOf` | app.py:121 | the left strip of leading whitespace followed by a non-whitespace start is that remainder |
| `PyText.TrimEndOf` | app.py:121 | the right strip of a non-whitespace end followed by trailing whitespace is that prefix |
| `Catalog.SupportedLanguages` | app.py:59-95 | the catalog has 30 entries with distinct codes; ("auto", "Auto-detect") comes first and ("en", "English") second |
| `Catalog.CatalogCodesDistinct` | app.py:64-95 | no two entries of the dictionary literal share a code |
| `Catalog.AsMapKeys` | app.py:64-95 | the keys of the dictionary a list of pairs denotes are exactly the listed codes |
| `Catalog.AsMapAt` | app.py:64-95 | with distinct codes, every entry keeps its display name in the dictionary |
| `Catalog.AsMapLastWins` | app.py:64-95 | in a dictionary built from a list of pairs, an entry with no later entry of the same code keeps its display name: the later key overwrites |
| `Catalog.AsMapSize` | app.py:64-95 | with distinct codes, the dictionary has one key per entry |
| `Catalog.LanguagesEndpoint` | app.py:139-145 | `GET /languages` serves an object with exactly 30 keys, the catalog codes, each mapped to its display name, including "auto" and "en" |
| `Catalog.ListedIff` | app.py:64-95 | a code is listed if and only if it is one of the thirty literal codes |
| `Catalog.LongCodesUnlisted` | app.py:64-95 | no code longer than five characters is in the catalog |

## Left out

- The outbound HTTP GET, its 10-second timeout and `raise_for_status` (app.py:28-29) are network I/O. They are the `Provider` parameter. A `requests.RequestException` is its `TransportError` reply, with `str(e)` as the detail.
- URL encoding with `urllib.parse.quote` and the URL construction (app.py:22-25) are a library call. The provider receives the text itself, so the lossless-encoding round trip for non-ASCII text is not stated.
- Exceptions from the provider exchange other than `RequestException` and the two `KeyError`s carry a foreign `str(e)` (app.py:53-57). The model does not produce them. How JSON decoding failures are classified depends on the installed version of `requests`; the model counts them as transport errors.
- Route.Validate: a body that is not valid JSON makes `get_json()` raise a `400` error, which the route's `except` answers with "Server error: " and the error's text; that text comes from the framework, so this path is not modelled.
- Route.Validate: JSON `true` and `false` bodies are not modelled. `false` is falsy and is answered "No text provided"; for `true` the membership test `'text' not in data` raises `TypeError`, answered with "Server error: " and its text.
- Route.Validate: only JSON objects are modelled as bodies. A JSON array, string or number body, and a `get_json()` that raises on a wrong content type, take the route down Python paths (membership tests, `TypeError`, a `415` caught as "Server error: …") that are not modelled.
- Route.Validate: `source_lang` and `target_lang` are modelled as strings. Non-string JSON values there, compared with Python's cross-type `==`, are not modelled.
- Gateway.ShapeResponse: `responseData` is modelled as an object, and `translatedText` and `responseDetails` as strings. A `responseData` of `null` (a `TypeError`) and non-string values passed through verbatim are not modelled.
- Python strings may hold lone surrogate code points, which Dafny's `char` cannot represent, so texts containing them are outside the model.
- Flask routing, `render_template` for `GET /` (app.py:101-107), `jsonify` and its key ordering, the constant 404 and 500 handlers (app.py:149-155) and server start-up (app.py:159-163) are framework plumbing. `TranslationService.__init__` only stores the constant provider URL (app.py:12-14), which appears in the URL construction that is left out.
