# storkyle/shared core, modelled in Dafny

This project models the deterministic core of the `storkyle/shared` TypeScript
library: the generic repository `BaseRepo` with its query and payload builders,
the resolver combinator and its GraphQL errors, and the string and collection
utilities. The persistence layer (TypeORM), GraphQL, i18n and the URL parser are
foreign code. Each becomes a function parameter of the Dafny member that calls it.

Files and modules:

- `values.dfy`
  - `Outcomes`: `Option` and `Result`.
  - `JsValue`: a JSON-like `Value` with `Undefined`, `Null`, booleans,
    integer numbers, strings, arrays, objects, `Date` as milliseconds, and the
    ORM's `ILike` pattern as an opaque tag. Objects are association lists in
    insertion order, and the module gives property read, write, delete and
    `Object.assign` with their laws.
- `text.dfy` (`Text`): `indexOf`, `includes`, `replace` with a string pattern,
  and collapsing runs of one character.
- `trim_data.dfy` (`TrimData`): `trimStr` and `trimData`.
- `common.dfy` (`Common`): `getValidArray`, `isEmptyArray`, `pickBy`,
  `trimKeys`, `checkOverlapTime`.
- `format_url.dfy` (`FormatUrl`): `formatURL`.
- `cast_boolean.dfy` (`BooleanCast`): `castBoolean`.
- `base_type_resolver.dfy` (`BaseTypeResolver`): `baseTypeResolver`.
- `request_header.dfy` (`RequestHeader`): `getAcceptLanguageFromHeader`.
- `error_codes.dfy` (`ErrorCodes`): the `EErrorCode` enum and the list of
  localised codes.
- `graphql_error.dfy` (`GraphqlError`): `generateGraphqlError`.
- `combine_resolver.dfy` (`CombineResolver`): `combineResolvers` and `skip`.
- `repo_payload.dfy` (`RepoPayload`): the write side of `BaseRepo`.
  - `getActorId` and `formatPayload`.
  - `_save` and `createWithTransaction`, which update the caller's objects in
    place. These are modelled with a class `JsObject`.
  - The payloads and boolean answers of `setStatus`, `remove` and `destroy`.
- `repo_query.dfy` (`RepoQuery`): the read side of `BaseRepo`.
  - The constructor defaults.
  - `generateTrueWhereConditions` and `_generateOrderConditions`.
  - `generateConditionGetList`, including the search product.
  - `detail`, `list`, and the paging of `listWithPaging`.

The code works in place in `formatPayload`, `_generateOrderConditions`,
`generateConditionGetList`, `trimStr`, `trimData`, `pickBy` and `trimKeys`.
Each of these is a method with a loop. The first five are proved equal to a
specification function, and the properties are proved as lemmas about that
function. `pickBy` and `trimKeys` have no specification function: their
methods' contracts state the resulting keys and what each key reads. `_save`
mutates the objects it is given, so it is a method that modifies `JsObject`
instances.

Some contracts require that an object's keys are unique (`UniqueKeys`). This
is not a demand the source makes of its callers. It is a fact about every
JavaScript object, which the association-list model has to state explicitly.

Where the code and its documented intent differ, the model follows the code:

- `destroy` has no error handling: a rejected delete propagates
  (`RepoPayload.Destroy`).
- The page size gets no positivity check or fallback, only the cap at the
  maximum (`RepoQuery.NonPositiveSizesPassThrough`).
- When no order tuple names a known column, the order map is empty. The
  default order is used only when `orders` is absent
  (`RepoQuery.UnknownFieldsGiveEmptyOrder`).

## Model

| member | source | states |
|---|---|---|
| JsValue.Get | src/utilities/common.ts:19 | a read finds the value of an own property and nothing for a missing key; on an object with unique keys it is the entry with that key |
| JsValue.Put | src/utilities/common.ts:19 | after a write the key reads the new value and every other key reads as before; key uniqueness is kept |
| JsValue.PutKeys | src/utilities/common.ts:18-20 | a write keeps the key order when the key exists and appends the key otherwise |
| JsValue.Truthy | src/utilities/cast_boolean.ts:5 | `!!v` is false exactly for `undefined`, `null`, `false`, `0` and `''`; objects, arrays, dates and patterns are truthy |
| JsValue.Delete | src/base/base_repo.ts:91 | the deleted key is held by no entry afterwards, and there are no more entries than before |
| JsValue.DeleteMembers | src/base/base_repo.ts:91 | every entry left is an entry of the original whose key is not the deleted one |
| JsValue.DeleteGet | src/utilities/common.ts:27 | after `delete` the key is gone, every other key reads as before, and keys stay unique |
| JsValue.Assign | src/base/base_repo.ts:207-210 | `Object.assign`: a key reads from the source when the source holds it and from the target otherwise; the keys are the union; uniqueness is kept |
| JsValue.AssignGet | src/base/base_repo.ts:118-122 | the same read law, phrased with the source's own read |
| JsValue.AssignSame | src/base/base_repo.ts:207-210 | assigning entries the target already holds changes nothing |
| JsValue.PutPresent | src/base/base_repo.ts:207-210 | rewriting a key with the value it holds changes nothing |
| JsValue.PutAt | src/base/base_repo.ts:94 | writing an existing key replaces its entry in place |
| JsValue.DeleteAt | src/base/base_repo.ts:91 | deleting a key held once removes just that entry |
| JsValue.DeleteAbsent | src/utilities/common.ts:27 | deleting a missing key changes nothing |
| JsValue.Dedup | src/base/base_repo.ts:153-158 | key order after a series of writes: the same elements, each once |
| JsValue.DedupSnoc | src/base/base_repo.ts:157 | one more write appends a new key and leaves an existing one in place |
| Text.IndexOf | src/utilities/trim_data.ts:43 | `indexOf` finds the first occurrence, and finds none exactly when there is none |
| Text.Contains | src/utilities/trim_data.ts:43 | `includes` holds exactly when the text occurs at some position |
| Text.ContainsAt | src/utilities/trim_data.ts:43 | an occurrence anywhere makes `includes` true |
| Text.ReplaceFirst | src/utilities/trim_data.ts:44 | `replace` with a string replaces only the first occurrence, and changes nothing when there is none |
| Text.CollapseRuns | src/utilities/format_url.ts:13 | collapsing leaves no adjacent pair of the character, is no longer than the input, and keeps both ends |
| Text.CollapseKeepsOtherChars | src/utilities/trim_data.ts:43-45 | collapsing removes only copies of the collapsed character; every other character (tabs, newlines) survives in order |
| Text.CollapseNoPair | src/utilities/trim_data.ts:43 | a string without a pair is already collapsed |
| Text.CollapseDropsOneOfPair | src/utilities/trim_data.ts:44 | removing one character of a pair does not change the collapsed string |
| TrimData.LeadingSpace | src/utilities/trim_data.ts:39 | the length of the leading whitespace |
| TrimData.TrailingStart | src/utilities/trim_data.ts:39 | where the trailing whitespace begins |
| TrimData.JsTrim | src/utilities/trim_data.ts:39 | `trim` leaves no whitespace at either end, is empty exactly for an all-whitespace string, leaves a stripped string unchanged, and is no longer than the input |
| TrimData.JsTrimPieces | src/utilities/trim_data.ts:39 | `trim` cuts off the leading whitespace and a whitespace tail and keeps what lies between: the input is its leading whitespace, then the result, then whitespace |
| TrimData.TrimmedString | src/utilities/trim_data.ts:37-47 | `trimStr` keeps every character of the trimmed text other than a space, in order, dropping only spaces, and is no longer than the trimmed text |
| TrimData.TrimmedStringShape | src/utilities/trim_data.ts:37-47 | the result of `trimStr` has no whitespace at either end and no double space, and is empty exactly when the input is all whitespace |
| TrimData.TrimmedStringIdempotent | src/utilities/trim_data.ts:37-47 | `trimStr` of its own result returns it unchanged |
| TrimData.TrimStr | src/utilities/trim_data.ts:37-47 | the loop computes trim followed by collapsing every run of spaces to one space; it stops because each turn shortens the string |
| TrimData.ReplacePairStep | src/utilities/trim_data.ts:43-45 | one turn shortens the string and keeps its collapsed form |
| TrimData.NoDoubleSpaceCollapsed | src/utilities/trim_data.ts:43 | on loop exit the string is its own collapsed form |
| TrimData.TrimValue | src/utilities/trim_data.ts:1-35 | a string becomes its `trimStr` text, or `null` when that is empty (exactly for an all-whitespace string); a non-null result is stripped, non-empty and without double spaces; arrays and objects keep their length; `undefined`, `null`, booleans and numbers are unchanged |
| TrimData.TrimArrayInPlace | src/utilities/trim_data.ts:13-17 | each array element is trimmed in its position |
| TrimData.TrimObjectKeys | src/utilities/trim_data.ts:18-22 | an object keeps its keys, in order |
| TrimData.TrimObjectValues | src/utilities/trim_data.ts:18-22 | each key holds its value trimmed |
| TrimData.TrimIdempotent | src/utilities/trim_data.ts:1-47 | `trimData` of its own output returns it unchanged |
| TrimData.TrimFixedElements | src/utilities/trim_data.ts:13-17 | an array whose elements trimming leaves alone is itself left alone |
| TrimData.TrimFixedEntries | src/utilities/trim_data.ts:18-22 | an object whose values trimming leaves alone is itself left alone |
| TrimData.TrimData | src/utilities/trim_data.ts:1-35 | the method computes `TrimValue` |
| TrimData.TrimElements | src/utilities/trim_data.ts:13-17 | the array branch pushes each trimmed element in order |
| TrimData.TrimEntries | src/utilities/trim_data.ts:18-22 | the object branch writes each key once, with its trimmed value |
| TrimData.ElementsStep | src/utilities/trim_data.ts:16 | each push appends the next element, trimmed, after those already pushed |
| TrimData.EntriesStep | src/utilities/trim_data.ts:21 | each write appends the next key with its trimmed value after those already written |
| TrimData.TrimmedElements | src/utilities/trim_data.ts:13-17 | the elements pushed one by one are the trimmed array |
| TrimData.TrimmedEntries | src/utilities/trim_data.ts:18-22 | the entries written one by one are the trimmed object |
| Common.GetValidArray | src/utilities/common.ts:1-6 | the array itself, or `[]` for `undefined` and every other non-array |
| Common.IsEmptyArray | src/utilities/common.ts:8-10 | true exactly for an empty array or a non-array |
| Common.IndexKey | src/utilities/common.ts:19 | a key names an index exactly when it is a non-empty string of decimal digits without a leading zero (or `"0"`), and then it names the number its digits spell; `length` is no index |
| Common.Property | src/utilities/common.ts:19 | `obj[key]` is an object's own property, `undefined` for a missing one; an array's element or a string's character at an index key; the `length` of an array or a string; `undefined` for any other value |
| Common.IndexReads | src/utilities/common.ts:19 | `"1"` reads the second element, `"01"`, `"-1"` and an index past the end read `undefined`; a string reads its characters and its `length` |
| Common.PickStep | src/utilities/common.ts:18-20 | one turn of the loop keeps the key order and the values picked so far |
| Common.PickBy | src/utilities/common.ts:12-22 | `{}` for `null` or `undefined`; otherwise exactly the listed keys, each once in first-listed order, each mapped to `obj[key]` (`undefined` when missing) |
| Common.TrimKeys | src/utilities/common.ts:24-30 | the listed keys are absent; every other key reads as in the input; nothing is added; uniqueness is kept (the order of the surviving entries is not stated) |
| Common.OverlapSymmetric | src/utilities/common.ts:32-37 | the overlap check does not depend on the order of the ranges |
| Common.TouchingRangesDoNotOverlap | src/utilities/common.ts:36 | ranges where one ends as the other starts do not overlap |
| Common.CheckOverlapTime | src/utilities/common.ts:32-37 | for non-empty ranges, the overlap test holds exactly when some instant lies in both |
| Common.UncheckedRangesCanOverlap | src/utilities/common.ts:32-37 | empty or backwards ranges are not rejected and can be reported as overlapping |
| FormatUrl.SplitPieces | src/utilities/format_url.ts:12 | the first two pieces of `split('://')`: none without a separator, otherwise the text before the first separator and the text up to the next one; neither contains the separator |
| FormatUrl.FormatURL | src/utilities/format_url.ts:10-16 | `undefined` exactly for a URL the parser rejects; a valid URL without `://` throws |
| FormatUrl.FirstSeparatorAt | src/utilities/format_url.ts:12 | a separator with no colon before it is the first one |
| FormatUrl.FormattedShape | src/utilities/format_url.ts:12-13 | everything through the first `://` is kept; after it comes the second piece with slash runs collapsed, no `//`, and nothing but slashes removed |
| FormatUrl.FormatFromPieces | src/utilities/format_url.ts:12-13 | the result is protocol, `://`, and the collapsed second piece |
| FormatUrl.HttpSeparator | src/utilities/format_url.ts:12 | in an `http://` URL the first separator follows `http` |
| FormatUrl.RedirectUrlPieces | src/utilities/format_url.ts:12 | a URL with a second `://` splits at both separators |
| FormatUrl.SecondSeparatorTruncates | src/utilities/format_url.ts:12-13 | everything after a second `://` is dropped |
| FormatUrl.SlashyUrlPieces | src/utilities/format_url.ts:12 | `http://a//b///c` splits into `http` and `a//b///c` |
| FormatUrl.CollapseBothRuns | src/utilities/format_url.ts:13 | double and triple slash runs each become one slash |
| FormatUrl.CollapsesSlashRuns | src/utilities/format_url.ts:10-16 | `http://a//b///c` formats to `http://a/b/c` |
| BooleanCast.CastBoolean | src/utilities/cast_boolean.ts:1-6 | an array is true exactly when it has an element; any other value is true exactly when it is truthy; true implies truthy |
| BooleanCast.CastDiffersFromTruthinessOnlyOnEmptyArray | src/utilities/cast_boolean.ts:1-6 | the cast equals JavaScript truthiness except on the empty array |
| BooleanCast.CastArray | src/utilities/cast_boolean.ts:2-4 | an array casts to true exactly when it has an element, whatever the elements are |
| BooleanCast.CastCases | src/utilities/cast_boolean.ts:5 | `null`, `undefined`, `false`, `0`, `''` and `[]` give false; `'false'`, `'0'`, `-1`, `{}` and dates give true |
| BaseTypeResolver.ActorReference | src/base/base_type_resolver.ts:6 | a user reference or `null`, and non-null exactly when the column casts to true |
| BaseTypeResolver.Creator | src/base/base_type_resolver.ts:5-7 | `{ __typename: 'User', id: creator }` when `creator` casts to true, `null` otherwise |
| BaseTypeResolver.Updater | src/base/base_type_resolver.ts:8-10 | the same rule on `updater` |
| BaseTypeResolver.UnsetActorGivesNull | src/base/base_type_resolver.ts:5-10 | `null`, `undefined` and `''` give `null` |
| BaseTypeResolver.ResolversIndependent | src/base/base_type_resolver.ts:5-10 | each resolver reads only its own column |
| RequestHeader.AcceptLanguage | src/utilities/request_header.ts:3-7 | always `en` or `vi`, and `en` exactly when the header contains `en` |
| RequestHeader.AcceptLanguageCases | src/utilities/request_header.ts:5-6 | `vi` when the header names only `vi`, names neither, or is missing |
| RequestHeader.EnglishWinsAnywhere | src/utilities/request_header.ts:4 | `en` wins even when `vi` comes first |
| ErrorCodes.WhitelistIsAllButInternal | src/constants/graphql_error_code.constant.ts:3-14 | a code is localised exactly when it is not INTERNAL_SERVER_ERROR |
| GraphqlError.GenerateGraphqlError | src/utilities/graphql_error.generate.ts:14-37 | the code is always the given code; without i18n the message is the given message or `''`; with i18n it is the translation of the phrase and locale, which default only when missing |
| GraphqlError.MessageIgnoredWithI18n | src/utilities/graphql_error.generate.ts:21-33 | with an i18n config the message argument plays no part |
| GraphqlError.EmptyPhraseIsNotDefaulted | src/utilities/graphql_error.generate.ts:22-30 | an empty phrase or locale is looked up as given, not defaulted |
| CombineResolver.Reduce | src/libs/combine_resolver.ts:29-35 | the fold invokes the resolvers at positions 0 to k-1 for some k, in order and each once; while the chain is still pending on `skip`, every resolver was invoked |
| CombineResolver.Upto | src/libs/combine_resolver.ts:29-35 | the positions 0 to n-1 in order |
| CombineResolver.AllSkipInvokesAll | src/libs/combine_resolver.ts:29-35 | when every resolver skips, all are invoked in order and the result is `skip`; an empty list gives `skip` |
| CombineResolver.FirstDecisiveSettles | src/libs/combine_resolver.ts:29-35 | the first resolver that does not skip decides: those up to it are invoked in order, none after it, and its value or error is the result |
| CombineResolver.FirstIsInvoked | src/libs/combine_resolver.ts:29-32 | the first resolver is always invoked |
| CombineResolver.FirstDecisiveFrom | src/libs/combine_resolver.ts:32 | the position of the first resolver that does not skip, or the list length |
| CombineResolver.TranslateError | src/libs/combine_resolver.ts:36-51 | a listed code keeps its code and gets the translation in `context.lang` (default `en`); any other code becomes INTERNAL_SERVER_ERROR with the raw message |
| CombineResolver.CombineResolvers | src/libs/combine_resolver.ts:24-53 | the combined resolver fails exactly when the chain rejected, with the translated error, and otherwise returns the settled value |
| CombineResolver.CombinedIsFirstDecisive | src/libs/combine_resolver.ts:24-53 | the result is the first non-skip outcome (its value or its translated error), or `skip` when there is none |
| CombineResolver.InternalErrorKeepsRawMessage | src/libs/combine_resolver.ts:47-50 | a thrown INTERNAL_SERVER_ERROR keeps its raw message |
| CombineResolver.FalsyValuesShortCircuit | src/libs/combine_resolver.ts:32 | `null`, `false` and `0` are not `skip` and end the chain |
| CombineResolver.GuardThenForbidden | src/libs/combine_resolver.ts:29-45 | a skipping guard then a FORBIDDEN throw: both run, and FORBIDDEN comes back localised |
| RepoPayload.GetActorId | src/base/base_repo.ts:29-35 | no one for the system actor, the actor itself otherwise |
| RepoPayload.Prepared | src/base/base_repo.ts:89-96 | the loop adds no key, keeps keys unique, and leaves no `undefined` or `Date` value |
| RepoPayload.GetAppend | src/base/base_repo.ts:88 | a read on an object made of two parts checks the first part, then the second |
| RepoPayload.PreparedGet | src/base/base_repo.ts:89-96 | after the loop a key is absent when it was missing or `undefined`, holds the formatted string when it held a `Date`, and keeps its value otherwise |
| RepoPayload.FormattedPayloadGet | src/base/base_repo.ts:87-100 | `formatPayload` keeps exactly the keys not holding `undefined`, formats dates, trims every value, keeps keys unique, and leaves no `undefined` or `Date` |
| RepoPayload.TrimObjectEntry | src/utilities/trim_data.ts:18-22 | entry `i` of a trimmed object is entry `i` trimmed |
| RepoPayload.FormatStep | src/base/base_repo.ts:89-96 | one turn of the loop does its own entry and nothing else |
| RepoPayload.StepShape | src/base/base_repo.ts:89-96 | at turn `i`, the prepared front and the untouched rest do not hold the current key |
| RepoPayload.EntryStep | src/base/base_repo.ts:90-95 | the loop body deletes an `undefined` entry and formats a `Date` in place |
| RepoPayload.FormattedPayload | src/base/base_repo.ts:87-100 | `formatPayload` adds no key and no entry, and keeps keys unique |
| RepoPayload.FormatPayload | src/base/base_repo.ts:87-100 | the method computes the specification `FormattedPayload` |
| RepoPayload.ActorField | src/base/base_repo.ts:204 | the audit column is `creator` on create and `updater` on edit |
| RepoPayload.Stamp | src/base/base_repo.ts:207-210 | the stamp `{ ...formatPayload(payload), [actorField]: actorId }` has unique keys |
| RepoPayload.Stamped | src/base/base_repo.ts:207-210 | the payload after `Object.assign` has unique keys |
| RepoPayload.StampedGet | src/base/base_repo.ts:206-211 | the actor column holds the actor id; other keys hold their formatted, trimmed values; a key that held `undefined` still does; no other key is added |
| RepoPayload.StampedIdempotent | src/base/base_repo.ts:213-216 | stamping a stamped payload again changes nothing |
| RepoPayload.StampedAgain | src/base/base_repo.ts:213-216 | a payload that occurs twice in the array ends up stamped once |
| RepoPayload.JsObject.constructor | src/base/base_repo.ts:198 | a caller-owned object with the given entries |
| RepoPayload.FormatWithRelationship | src/base/base_repo.ts:206-211 | the caller's object now holds the stamped payload |
| RepoPayload.SaveOne | src/base/base_repo.ts:197-222 | for one payload, the object itself is stamped with the mode's column and the actor id, and is handed on |
| RepoPayload.SaveMany | src/base/base_repo.ts:213-216 | for an array, each object is stamped (once, even when repeated) and the same objects are handed on |
| RepoPayload.StatusPayload | src/base/base_repo.ts:269-272 | only `status` and `updater`; missing when `undefined` (so `updater` is missing for the system actor); values formatted and trimmed |
| RepoPayload.FormattedOnlyHasPayloadKeys | src/base/base_repo.ts:87-100 | `formatPayload` adds no key |
| RepoPayload.SetStatus | src/base/base_repo.ts:264-275 | true exactly when more than zero rows were affected, with a missing count taken as 0; a rejected update propagates |
| RepoPayload.RemovalPayload | src/base/base_repo.ts:281-288 | `removed` is true, `removed_at` is the formatted current time, `remover` is the actor id and is missing for the system actor; nothing else |
| RepoPayload.FormattedThree | src/base/base_repo.ts:283-287 | `formatPayload` on three distinct keys gives each key's formatted value and no other key |
| RepoPayload.Remove | src/base/base_repo.ts:277-291 | true exactly when more than zero rows were affected; a rejected update propagates |
| RepoPayload.Destroy | src/base/base_repo.ts:293-296 | the truthiness of the count; a rejected delete propagates |
| RepoPayload.CountTestsDisagreeOnlyOnNegative | src/base/base_repo.ts:274 | `affected > 0` and `!!affected` differ only on a negative count |
| RepoPayload.SystemActorLeftOut | src/base/base_repo.ts:271 | the system actor is never written as updater or remover |
| RepoQuery.NewBaseRepo | src/base/base_repo.ts:56-67 | no search fields by default; each missing option takes its default of order `created_at DESC`, page size 10 or maximum 100 |
| RepoQuery.TrueWhere | src/base/base_repo.ts:73-85 | an absent, falsy or empty where gives `[{removed: false}]`; a single object becomes one alternative; a list keeps its length |
| RepoQuery.TrueWhereAt | src/base/base_repo.ts:82-84 | alternative `i` is the caller's alternative `i` with `removed` forced |
| RepoQuery.TrueWhereAlternatives | src/base/base_repo.ts:76-84 | every alternative asks `removed = false`, even when the caller set it, and keeps the caller's other keys |
| RepoQuery.WhereValue | src/base/base_repo.ts:84 | the alternatives as a list of objects, in order |
| RepoQuery.OnlyLiveRecordsMatch | src/base/base_repo.ts:73-85 | under the reference matcher, a record found through the filtered where is not removed |
| RepoQuery.SingleAlternativeMatches | src/base/base_repo.ts:82-84 | a record matches a filtered single alternative exactly when it matches the alternative and is not removed |
| RepoQuery.OneAlternative | src/base/base_repo.ts:82 | a one-alternative where matches exactly what the alternative matches |
| RepoQuery.AppendedCondition | src/base/base_repo.ts:84 | one more entry adds one more condition |
| RepoQuery.PutAbsent | src/base/base_repo.ts:84 | writing `removed` that the alternative lacks appends it |
| RepoQuery.DirectionValue | src/base/base_repo.ts:157 | the direction is handed on as `ASC` or `DESC` |
| RepoQuery.OrderMap | src/base/base_repo.ts:149-160 | the order map has unique keys |
| RepoQuery.KnownFields | src/base/base_repo.ts:154 | only fields that are columns are kept |
| RepoQuery.OrderMapGet | src/base/base_repo.ts:149-160 | a column reads the direction of its last tuple; a non-column or missing field is absent |
| RepoQuery.OrderMapKeys | src/base/base_repo.ts:153-158 | sort priority is the known fields in order of first occurrence |
| RepoQuery.UnknownFieldsGiveEmptyOrder | src/base/base_repo.ts:153-159 | when no tuple names a column the map is empty, with no fallback |
| RepoQuery.OrderConditions | src/base/base_repo.ts:149-160 | the loop computes the order map |
| RepoQuery.CombinedGet | src/base/base_repo.ts:186 | the combined alternative holds the pattern on its field and the caller's other keys |
| RepoQuery.RowFor | src/base/base_repo.ts:185-187 | one combined alternative per search field, in field order |
| RepoQuery.SearchAlternatives | src/base/base_repo.ts:184-188 | there is one search alternative per caller alternative and field, n × m in all |
| RepoQuery.SearchAlternativeAt | src/base/base_repo.ts:184-188 | caller alternative `i` and field `j` give the alternative at `i × m + j` for m fields (outer loop over alternatives, inner over fields) |
| RepoQuery.SearchWhereShape | src/base/base_repo.ts:176-189 | the filtered product has n × m alternatives for n caller alternatives and m fields; the one for `i`, `j` has the pattern on field `j`, `removed` false, and the caller's other keys |
| RepoQuery.CombinedWhereAt | src/base/base_repo.ts:186-189 | a combined alternative, once filtered, reads `removed` false, the pattern on its field, and the caller's other keys |
| RepoQuery.SearchingWhere | src/base/base_repo.ts:179-189 | with a search, the where is the filtered product |
| RepoQuery.NotRemovedCombinedGet | src/base/base_repo.ts:84 | forcing `removed` on a combined alternative leaves its other keys |
| RepoQuery.TrueWhereListAt | src/base/base_repo.ts:82-84 | a non-empty list keeps its length, each alternative filtered in place |
| RepoQuery.SearchWithoutFieldsMatchesAll | src/base/base_repo.ts:179-189 | with no search fields the where becomes `[{removed: false}]` |
| RepoQuery.EmptyWhereListIgnoresSearch | src/base/base_repo.ts:176-191 | an empty where list gives `[{removed: false}]`, with or without search |
| RepoQuery.EmptySearchIsNoSearch | src/base/base_repo.ts:179-191 | an empty search value is no search |
| RepoQuery.ConditionGetList | src/base/base_repo.ts:162-195 | the query object has unique keys |
| RepoQuery.ConditionGetListGet | src/base/base_repo.ts:171-194 | `where` is the computed where; `order` is the caller's when given, else the order map of `orders` (default only when absent); every other key is the caller's |
| RepoQuery.GenerateConditionGetList | src/base/base_repo.ts:162-195 | the loops compute the query object |
| RepoQuery.SearchRow | src/base/base_repo.ts:185-187 | the inner loop pushes one combined alternative per field |
| RepoQuery.RowForSnoc | src/base/base_repo.ts:186 | one more field adds one alternative at the end |
| RepoQuery.SearchAlternativesSnoc | src/base/base_repo.ts:184-188 | one more caller alternative adds its row at the end |
| RepoQuery.WhereFor | src/base/base_repo.ts:176-191 | the where always has an alternative; with a search over n caller alternatives and m fields (n × m > 0) it has n × m; without a search a non-empty list keeps its length |
| RepoQuery.DetailQuery | src/base/base_repo.ts:102-107 | the caller's options, with `where` replaced by the filtered alternatives |
| RepoQuery.Detail | src/base/base_repo.ts:102-107 | `detail` returns what `findOne` returns for those options |
| RepoQuery.EffectivePageSize | src/base/base_repo.ts:113-116 | the requested size (default from the options) capped at the maximum |
| RepoQuery.Window | src/base/base_repo.ts:118-120 | the paging window has unique keys |
| RepoQuery.WindowGet | src/base/base_repo.ts:112-120 | `skip` is page × size with page 0 by default, `take` is the size, nothing else |
| RepoQuery.ConsecutivePagesAdjacent | src/base/base_repo.ts:119-120 | page `p + 1` starts where page `p` ends |
| RepoQuery.DefaultWindows | src/constants/filter.constant.ts:5-8 | defaults give `skip 0, take 10`; 500 rows are capped at 100 |
| RepoQuery.NonPositiveSizesPassThrough | src/base/base_repo.ts:116 | zero and negative sizes are not rejected |
| RepoQuery.PagedConditions | src/base/base_repo.ts:118-122 | the paged query has unique keys |
| RepoQuery.PagedConditionsGet | src/base/base_repo.ts:118-122 | `skip` and `take` come from the window unless the caller's options hold them; every other key is the query object's |
| RepoQuery.ListWithPaging | src/base/base_repo.ts:109-133 | rows and total come from `findAndCount` on the paged query; `page_info.filter` echoes the page, the effective size and the search value |
| RepoQuery.List | src/base/base_repo.ts:135-147 | the rows `find` returns for the query object |

## Left out

- The TypeORM calls (`findOne`, `find`, `findAndCount`, `update`, `delete`, `create`, `metadata.columns`, the `EntityManager`) are foreign. They are function parameters, and their answers are inputs.
- `RepoPayload.SaveOne` and `RepoPayload.SaveMany` stop at the objects handed to `repository.save` (src/base/base_repo.ts:221). They take no `save` parameter: what the ORM then writes and returns is not modelled, and the model's result is the object handed on, not the ORM's answer. `buildEntity` and `getRepo` only delegate to them, so they are not modelled.
- `createWithTransaction` is `_save` in create mode, handed to a different ORM object. It is `RepoPayload.SaveOne` and `RepoPayload.SaveMany` with `Create`.
- src/base/base_service.ts and src/base/external_service.ts are not part of this model. They are async pass-throughs to the repository and HTTP I/O.
- `formatDate` (src/utilities/format_date.ts) is not part of this model. It is an uninterpreted function from milliseconds to a string.
- `i18n.__` is an uninterpreted translator of a phrase and a locale, and `replacements` are not modelled. The `GraphQLError` class is reduced to its message and `extensions.code`.
- The WHATWG URL parser behind `isValidUrl` is an uninterpreted predicate on strings.
- Promises and async sequencing in `combineResolvers` become a synchronous left fold. Resolvers are functions of the request, so one request gives one outcome per resolver.
- Numbers are unbounded integers. Floating point, `NaN` and `Infinity` are not modelled, and neither are the page arithmetic limits of JavaScript numbers.
- JavaScript puts integer-like keys first in key order. The model keeps plain insertion order for every key.
- `Spread` of a string, an array or an `ILike` object gives no entries. JavaScript spreads a string's characters and an array's indices.
- `Object.assign` of the constructor options: a key present with the value `undefined` overrides the default in JavaScript. The model treats a missing option and an `undefined` one alike.
- `RepoQuery.MatchesWhere` is a reference reading of how the ORM applies a where: any alternative matches, and every condition of an alternative holds. `ILike` matching is an uninterpreted `like` predicate.
- `RepoPayload.SaveMany` models the array branch on a sequence of caller-owned objects. `map` returns a new array holding the same objects, and the model returns the same sequence.
- `RepoPayload.StatusPayload` and `RepoPayload.RemovalPayload` state the formatted values through `PreparedEntry`. A `Date` actor id would be formatted like any other date.
- `Common.Property`: reads on numbers, booleans, dates and patterns (`toString`, prototype methods) give `undefined`, and so do inherited properties of objects and arrays. A string's `length` and index reads count Unicode scalar values, where JavaScript counts UTF-16 code units: `"😀".length` is 2 in JavaScript and 1 here, and its index reads differ accordingly. The other string operations of the core (trim, `includes`, `replace`, `split`) give the same results either way.
- `Common.TrimKeys`: the contract does not state that the surviving entries keep their order (`{...object}` followed by `delete` keeps it); only the read law, membership and uniqueness are proved.
- `TrimData.TrimValue`: an `ILike` pattern is kept as it is. `trimData` rebuilds every non-null object, a TypeORM `FindOperator` included, as a plain object of its own enumerable fields; those fields are not modelled.
- `CombineResolver.TranslateError`: a thrown `null` or `undefined`, or a missing `context`, makes the catch block itself throw a `TypeError` (src/libs/combine_resolver.ts:37-40). In the model the thrown value is always a record, its code and message possibly missing, and the context is always present.
- `Value` carries no object prototypes, getters, symbols or non-enumerable properties. A `Date` nested in `trimData` input becomes `{}`, as it has no own enumerable keys.
