/** Language selection and the message catalogue. The catalogue's strings are
    data of the presentation layer: the model treats them as an opaque lookup
    keyed by language code and message key. */
module Translation {

  /** The two languages the strength scorer writes its feedback in. */
  datatype Lang = French | English

  /** The strength scorer compares the language code with "fr" and falls back
      to English for every other code. */
  function FeedbackLang(langCode: string): (l: Lang)
    ensures l == French <==> langCode == "fr"
    ensures l == English <==> langCode != "fr"
  {
    if langCode == "fr" then French else English
  }

  datatype Option<T> = None | Some(value: T)

  /** The translation table: for each language code, its messages by key. */
  type Catalog = map<string, map<string, string>>

  /** `get_translation`: `translations[lang_code][key]`. An unknown language
      code or key raises `KeyError` in the source; here it gives `None`. */
  function GetTranslation(catalog: Catalog, langCode: string, key: string): (r: Option<string>)
    ensures r.Some? <==> langCode in catalog && key in catalog[langCode]
    ensures r.Some? ==> r.value == catalog[langCode][key]
  {
    if langCode in catalog && key in catalog[langCode] then Some(catalog[langCode][key]) else None
  }
}
