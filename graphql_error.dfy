/** `generateGraphqlError` (src/utilities/graphql_error.generate.ts). The
    i18n lookup `i18n.__({ phrase, locale })` is a parameter. */
module GraphqlError {
  import opened Outcomes

  type Translator = (string, string) -> string

  datatype I18nConfig = I18nConfig(phrase: Option<string>, locale: Option<string>)

  datatype ErrorRequest = ErrorRequest(message: Option<string>, i18n: Option<I18nConfig>, code: string)

  /** A GraphQL error: its message and `extensions.code`. */
  datatype GraphqlError = GraphqlError(message: string, code: string)

  const DefaultPhrase := "application.error.something_went_wrong"
  const DefaultLocale := "en"

  function GenerateGraphqlError(request: ErrorRequest, translate: Translator): (e: GraphqlError)
    ensures e.code == request.code
    ensures request.i18n.None? && request.message.Some? ==> e.message == request.message.value
    ensures request.i18n.None? && request.message.None? ==> e.message == ""
    ensures request.i18n.Some? ==>
      var config := request.i18n.value;
      e.message == translate(config.phrase.GetOr(DefaultPhrase), config.locale.GetOr(DefaultLocale))
  {
    var formatted := if request.message.Some? then request.message.value else "";
    match request.i18n
    case None => GraphqlError(formatted, request.code)
    case Some(config) =>
      var phrase := config.phrase.GetOr(DefaultPhrase);
      var locale := config.locale.GetOr(DefaultLocale);
      GraphqlError(translate(phrase, locale), request.code)
  }

  /** With an i18n config the message argument plays no part. */
  lemma MessageIgnoredWithI18n(request: ErrorRequest, other: Option<string>, translate: Translator)
    requires request.i18n.Some?
    ensures GenerateGraphqlError(request.(message := other), translate) == GenerateGraphqlError(request, translate)
  {
  }

  /** Only a missing phrase or locale is defaulted: an empty phrase is looked
      up as the empty phrase. */
  lemma EmptyPhraseIsNotDefaulted(code: string, translate: Translator)
    ensures GenerateGraphqlError(ErrorRequest(None, Some(I18nConfig(Some(""), None)), code), translate).message == translate("", "en")
    ensures GenerateGraphqlError(ErrorRequest(None, Some(I18nConfig(None, Some(""))), code), translate).message == translate(DefaultPhrase, "")
  {
  }
}
