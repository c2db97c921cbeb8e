/**
 * The fixed language catalog returned by
 * `TranslationService.get_supported_languages`: an ordered list of
 * (code, display name) pairs, served as a JSON object by `GET /languages`
 * and rendered, in this order, as the drop-down options of `GET /`.
 */
module Catalog {
  datatype Language = Language(code: string, name: string)

  /** No two entries share a code, so the list is a faithful dictionary. */
  predicate CodesDistinct(langs: seq<Language>) {
    forall i, j :: 0 <= i < j < |langs| ==> langs[i].code != langs[j].code
  }

  predicate Listed(langs: seq<Language>, code: string) {
    exists i :: 0 <= i < |langs| && langs[i].code == code
  }

  /** The dictionary literal of `get_supported_languages`, entry by entry, in its order. */
  const Entries: seq<Language> :=
    [ Language("auto", "Auto-detect"),
      Language("en", "English"),
      Language("hi", "Hindi"),
      Language("bn", "Bengali"),
      Language("gu", "Gujarati"),
      Language("ml", "Malayalam"),
      Language("mr", "Marathi"),
      Language("ta", "Tamil"),
      Language("te", "Telugu"),
      Language("es", "Spanish"),
      Language("fr", "French"),
      Language("de", "German"),
      Language("it", "Italian"),
      Language("pt", "Portuguese"),
      Language("ru", "Russian"),
      Language("ja", "Japanese"),
      Language("ko", "Korean"),
      Language("zh", "Chinese (Simplified)"),
      Language("zh-tw", "Chinese (Traditional)"),
      Language("ar", "Arabic"),
      Language("th", "Thai"),
      Language("vi", "Vietnamese"),
      Language("nl", "Dutch"),
      Language("sv", "Swedish"),
      Language("no", "Norwegian"),
      Language("da", "Danish"),
      Language("fi", "Finnish"),
      Language("pl", "Polish"),
      Language("el", "Greek"),
      Language("ro", "Romanian") ]

  predicate StringsDistinct(s: seq<string>) {
    forall i, j :: 0 <= i < j < |s| ==> s[i] != s[j]
  }

  function Codes(langs: seq<Language>): (codes: seq<string>)
    ensures |codes| == |langs|
    ensures forall i :: 0 <= i < |langs| ==> codes[i] == langs[i].code
  {
    seq(|langs|, i requires 0 <= i < |langs| => langs[i].code)
  }

  /**
   * The codes of the catalog, in order, as a plain list of strings. It adds
   * nothing to `Entries` (`CatalogCodesAre` proves the two agree); it exists
   * because distinctness of plain strings is far cheaper for the verifier to
   * establish than distinctness of a field of thirty datatype values.
   */
  const CatalogCodes: seq<string> := ["auto", "en", "hi", "bn", "gu", "ml", "mr", "ta", "te", "es", "fr", "de", "it", "pt", "ru", "ja", "ko", "zh", "zh-tw", "ar", "th", "vi", "nl", "sv", "no", "da", "fi", "pl", "el", "ro"]

  lemma CatalogCodesAre()
    ensures Codes(Entries) == CatalogCodes
  {
  }

  /** The code at position `j` differs from every earlier one. */
  lemma CatalogCodeFresh(j: nat)
    requires j < |CatalogCodes|
    ensures forall i :: 0 <= i < j ==> CatalogCodes[i] != CatalogCodes[j]
  {
  }

  lemma CatalogCodesLiteralDistinct()
    ensures StringsDistinct(CatalogCodes)
  {
    forall j | 0 <= j < |CatalogCodes| ensures forall i :: 0 <= i < j ==> CatalogCodes[i] != CatalogCodes[j] {
      CatalogCodeFresh(j);
    }
  }

  lemma CodesDistinctFrom(langs: seq<Language>)
    requires StringsDistinct(Codes(langs))
    ensures CodesDistinct(langs)
  {
    var codes := Codes(langs);
    forall i, j | 0 <= i < j < |langs| ensures langs[i].code != langs[j].code {
      assert codes[i] != codes[j];
    }
  }

  lemma CatalogCodesDistinct()
    ensures CodesDistinct(Entries)
  {
    CatalogCodesLiteralDistinct();
    CatalogCodesAre();
    CodesDistinctFrom(Entries);
  }

  /** `get_supported_languages()`: the catalog, in the order of the dictionary literal. */
  function SupportedLanguages(): (langs: seq<Language>)
    ensures |langs| == 30
    ensures langs[0] == Language("auto", "Auto-detect")
    ensures langs[1] == Language("en", "English")
    ensures CodesDistinct(langs)
  {
    CatalogCodesDistinct();
    Entries
  }

  /**
   * The Python dictionary a list of pairs denotes, built left to right as a
   * dict literal is: a later entry with the same code overwrites an earlier one.
   */
  function AsMap(langs: seq<Language>): map<string, string> {
    if langs == [] then map[]
    else AsMap(langs[..|langs| - 1])[langs[|langs| - 1].code := langs[|langs| - 1].name]
  }

  /** The dictionary's keys are exactly the listed codes. */
  lemma {:induction false} AsMapKeys(langs: seq<Language>)
    ensures forall c :: c in AsMap(langs) <==> Listed(langs, c)
  {
    if langs != [] {
      var init := langs[..|langs| - 1];
      AsMapKeys(init);
      forall c ensures c in AsMap(langs) <==> Listed(langs, c) {
        if Listed(init, c) {
          var i :| 0 <= i < |init| && init[i].code == c;
          assert langs[i].code == c;
        }
        if Listed(langs, c) && c != langs[|langs| - 1].code {
          var i :| 0 <= i < |langs| && langs[i].code == c;
          assert init[i].code == c;
        }
      }
    }
  }

  /** With distinct codes, every entry survives in the dictionary. */
  lemma {:induction false} AsMapAt(langs: seq<Language>, i: nat)
    requires CodesDistinct(langs) && i < |langs|
    ensures langs[i].code in AsMap(langs) && AsMap(langs)[langs[i].code] == langs[i].name
  {
    var init := langs[..|langs| - 1];
    if i < |langs| - 1 {
      assert CodesDistinct(init);
      AsMapAt(init, i);
    }
  }

  /** With distinct codes, the dictionary has one key per entry. */
  lemma {:induction false} AsMapSize(langs: seq<Language>)
    requires CodesDistinct(langs)
    ensures |AsMap(langs)| == |langs|
  {
    if langs != [] {
      var init := langs[..|langs| - 1];
      var last := langs[|langs| - 1];
      assert CodesDistinct(init);
      AsMapSize(init);
      AsMapKeys(init);
      assert !Listed(init, last.code);
      assert last.code !in AsMap(init);
    }
  }

  /**
   * `GET /languages`: a JSON object with 30 keys, exactly the catalog's codes,
   * each mapped to its display name; the route defaults "auto" and "en" are keys.
   */
  lemma LanguagesEndpoint()
    ensures |AsMap(SupportedLanguages())| == 30
    ensures forall c :: c in AsMap(SupportedLanguages()) <==> Listed(SupportedLanguages(), c)
    ensures forall i :: 0 <= i < 30 ==>
      && SupportedLanguages()[i].code in AsMap(SupportedLanguages())
      && AsMap(SupportedLanguages())[SupportedLanguages()[i].code] == SupportedLanguages()[i].name
    ensures "auto" in AsMap(SupportedLanguages()) && AsMap(SupportedLanguages())["auto"] == "Auto-detect"
    ensures "en" in AsMap(SupportedLanguages()) && AsMap(SupportedLanguages())["en"] == "English"
  {
    var langs := SupportedLanguages();
    AsMapSize(langs);
    AsMapKeys(langs);
    forall i | 0 <= i < 30 ensures langs[i].code in AsMap(langs) && AsMap(langs)[langs[i].code] == langs[i].name {
      AsMapAt(langs, i);
    }
    AsMapAt(langs, 0);
    AsMapAt(langs, 1);
  }

  /** A code is listed exactly when it is one of the thirty literal codes. */
  lemma ListedIff(code: string)
    ensures Listed(SupportedLanguages(), code) <==> code in CatalogCodes
  {
    CatalogCodesAre();
    var codes := Codes(Entries);
    if Listed(Entries, code) {
      var i :| 0 <= i < |Entries| && Entries[i].code == code;
      assert codes[i] == code;
    }
    if code in CatalogCodes {
      var i :| 0 <= i < |codes| && codes[i] == code;
      assert Entries[i].code == code;
    }
  }

  /** Every code has at most five characters, so no longer code is listed. */
  lemma LongCodesUnlisted(code: string)
    requires |code| > 5
    ensures !Listed(SupportedLanguages(), code)
  {
    assert forall i :: 0 <= i < |CatalogCodes| ==> |CatalogCodes[i]| <= 5;
    ListedIff(code);
  }

  /**
   * Dict-literal semantics: when a code occurs more than once, the dictionary
   * keeps the display name of its LAST occurrence.
   */
  lemma {:induction false} AsMapLastWins(langs: seq<Language>, i: nat)
    requires i < |langs|
    requires forall j :: i < j < |langs| ==> langs[j].code != langs[i].code
    ensures langs[i].code in AsMap(langs) && AsMap(langs)[langs[i].code] == langs[i].name
  {
    if i < |langs| - 1 {
      AsMapLastWins(langs[..|langs| - 1], i);
    }
  }
}
