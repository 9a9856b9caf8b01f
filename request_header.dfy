/** `getAcceptLanguageFromHeader` (src/utilities/request_header.ts), with the
    request reduced to its optional `accept-language` header. */
module RequestHeader {
  import opened Outcomes
  import opened Text

  /** `header?.includes(sub)`: false when the header is missing. */
  predicate HeaderIncludes(header: Option<string>, sub: string) {
    header.Some? && Contains(header.value, sub)
  }

  function AcceptLanguage(header: Option<string>): (lang: string)
    ensures lang == "en" || lang == "vi"
    ensures lang == "en" <==> HeaderIncludes(header, "en")
  {
    if HeaderIncludes(header, "en") then "en"
    else if HeaderIncludes(header, "vi") then "vi"
    else "vi"
  }

  /** `vi` wins only when `en` is absent; a missing header, or one naming
      neither language, also gives `vi`. */
  lemma AcceptLanguageCases(header: Option<string>)
    ensures HeaderIncludes(header, "vi") && !HeaderIncludes(header, "en") ==> AcceptLanguage(header) == "vi"
    ensures header.None? ==> AcceptLanguage(header) == "vi"
    ensures !HeaderIncludes(header, "vi") && !HeaderIncludes(header, "en") ==> AcceptLanguage(header) == "vi"
  {
  }

  /** `en` is chosen even when `vi` comes first in the header. */
  lemma EnglishWinsAnywhere()
    ensures AcceptLanguage(Some("vi-VN,vi;q=0.9,en;q=0.8")) == "en"
  {
    var h := "vi-VN,vi;q=0.9,en;q=0.8";
    assert OccursAt(h, "en", 15);
    ContainsAt(h, "en", 15);
  }
}
