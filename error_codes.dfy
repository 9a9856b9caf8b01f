/** The application error codes (src/enum/error_code.enum.ts) and the codes
    the resolver layer localises (src/constants/graphql_error_code.constant.ts). */
module ErrorCodes {

  datatype ErrorCode =
    | DATA_ERROR
    | UNAUTHENTICATED
    | FORBIDDEN
    | INTERNAL_SERVER_ERROR
    | BAD_REQUEST
    | TOKEN_EXPIRED
    | GRAPHQL_PARSE_FAILED
    | GRAPHQL_VALIDATION_FAILED
    | BAD_USER_INPUT

  /** The string value of each enum member. */
  function Name(c: ErrorCode): string {
    match c
    case DATA_ERROR => "DATA_ERROR"
    case UNAUTHENTICATED => "UNAUTHENTICATED"
    case FORBIDDEN => "FORBIDDEN"
    case INTERNAL_SERVER_ERROR => "INTERNAL_SERVER_ERROR"
    case BAD_REQUEST => "BAD_REQUEST"
    case TOKEN_EXPIRED => "TOKEN_EXPIRED"
    case GRAPHQL_PARSE_FAILED => "GRAPHQL_PARSE_FAILED"
    case GRAPHQL_VALIDATION_FAILED => "GRAPHQL_VALIDATION_FAILED"
    case BAD_USER_INPUT => "BAD_USER_INPUT"
  }

  /** `ARR_GRAPHQL_ERROR_CODE`: every code except INTERNAL_SERVER_ERROR. */
  const GraphqlErrorCodes: seq<string> := [
    Name(BAD_REQUEST), Name(DATA_ERROR), Name(FORBIDDEN), Name(TOKEN_EXPIRED),
    Name(UNAUTHENTICATED), Name(GRAPHQL_PARSE_FAILED), Name(GRAPHQL_VALIDATION_FAILED),
    Name(BAD_USER_INPUT)]

  /** A code is localised exactly when it is not INTERNAL_SERVER_ERROR. */
  lemma WhitelistIsAllButInternal(c: ErrorCode)
    ensures Name(c) in GraphqlErrorCodes <==> c != INTERNAL_SERVER_ERROR
  {
  }
}
