/** `combineResolvers` and `skip` (src/libs/combine_resolver.ts): resolvers
    run one after another on the same request until one returns something
    other than `skip`; a thrown error is turned into a GraphQL error. */
module CombineResolver {
  import opened Outcomes
  import opened JsValue
  import opened GraphqlError
  import opened ErrorCodes

  /** `skip` is `undefined`. */
  const Skip: Value := Undefined

  /** The part of the GraphQL context the combinator reads. */
  datatype Context = Context(lang: Option<string>)

  /** The four arguments every resolver of the chain receives. The
      `GraphQLResolveInfo` is opaque here and carried as a value. */
  datatype Request = Request(source: Value, args: Value, context: Context, info: Value)

  /** What was thrown, read as a `CustomError`: either property may be
      missing when something else was thrown. */
  datatype Thrown = Thrown(code: Option<string>, message: Option<string>)

  /** What one resolver does when called: return a value or throw. */
  datatype Outcome = Returned(value: Value) | Threw(error: Thrown)

  type Resolver = Request -> Outcome

  /** The settled promise after some resolvers, with the positions of the
      resolvers that were invoked, in order of invocation. */
  datatype Chain = Pending(prev: Value, invoked: seq<nat>) | Rejected(error: Thrown, invoked: seq<nat>)

  /** The `reduce`: each step calls its resolver only when the previous
      result is exactly `skip` (strict equality) and the chain has not
      rejected; otherwise it passes the previous state on. */
  function Reduce(funcs: seq<Resolver>, request: Request): (c: Chain)
    ensures |c.invoked| <= |funcs|
    ensures c.invoked == Upto(|c.invoked|)
    ensures c.Pending? && c.prev == Skip ==> |c.invoked| == |funcs|
    decreases |funcs|
  {
    if funcs == [] then Pending(Skip, [])
    else
      var n := |funcs| - 1;
      var before := Reduce(funcs[..n], request);
      match before
      case Rejected(_, _) => before
      case Pending(prev, invoked) =>
        if prev != Skip then before
        else match funcs[n](request)
          case Returned(v) => Pending(v, invoked + [n])
          case Threw(e) => Rejected(e, invoked + [n])
  }

  /** An outcome that ends the chain: a throw, or any value but `skip`
      (`null`, `false` and `0` included). */
  predicate Decisive(o: Outcome) {
    o.Threw? || o.value != Skip
  }

  /** The chain state that outcome `o` of the resolver at position `k` leaves
      when the resolvers before it all skipped. */
  function Settled(o: Outcome, k: nat): Chain {
    match o
    case Returned(v) => Pending(v, Upto(k + 1))
    case Threw(e) => Rejected(e, Upto(k + 1))
  }

  /** The positions 0, 1, ..., n - 1. */
  function Upto(n: nat): (s: seq<nat>)
    ensures |s| == n
    ensures forall i :: 0 <= i < n ==> s[i] == i
  {
    if n == 0 then [] else Upto(n - 1) + [n - 1]
  }

  /** When every resolver skips, each one is invoked in list order and the
      result is `skip`; in particular an empty list yields `skip`. */
  lemma {:induction false} AllSkipInvokesAll(funcs: seq<Resolver>, request: Request)
    requires forall j :: 0 <= j < |funcs| ==> !Decisive(funcs[j](request))
    ensures Reduce(funcs, request) == Pending(Skip, Upto(|funcs|))
    decreases |funcs|
  {
    if funcs != [] {
      var n := |funcs| - 1;
      AllSkipInvokesAll(funcs[..n], request);
      assert !Decisive(funcs[n](request));
    }
  }

  /** The first decisive resolver settles the chain: the resolvers up to and
      including it are invoked in order, none after it, and its value or its
      error is the result. */
  lemma {:induction false} FirstDecisiveSettles(funcs: seq<Resolver>, request: Request, k: nat)
    requires k < |funcs| && Decisive(funcs[k](request))
    requires forall j :: 0 <= j < k ==> !Decisive(funcs[j](request))
    ensures Reduce(funcs, request) == Settled(funcs[k](request), k)
    decreases |funcs|
  {
    var n := |funcs| - 1;
    if k == n {
      AllSkipInvokesAll(funcs[..n], request);
    } else {
      assert funcs[..n][k] == funcs[k];
      FirstDecisiveSettles(funcs[..n], request, k);
    }
  }

  /** The first resolver is always invoked when there is one. */
  lemma FirstIsInvoked(funcs: seq<Resolver>, request: Request)
    requires funcs != []
    ensures Reduce(funcs, request).invoked != [] && Reduce(funcs, request).invoked[0] == 0
  {
    if Decisive(funcs[0](request)) {
      FirstDecisiveSettles(funcs, request, 0);
    } else {
      var k := FirstDecisiveFrom(funcs, request, 1);
      if k < |funcs| {
        FirstDecisiveSettles(funcs, request, k);
      } else {
        AllSkipInvokesAll(funcs, request);
      }
    }
  }

  /** The position of the first decisive resolver at or after `from`, when
      the ones before `from` all skipped; `|funcs|` when there is none. */
  function FirstDecisiveFrom(funcs: seq<Resolver>, request: Request, from: nat): (k: nat)
    requires from <= |funcs|
    requires forall j :: 0 <= j < from ==> !Decisive(funcs[j](request))
    ensures from <= k <= |funcs|
    ensures forall j :: 0 <= j < k ==> !Decisive(funcs[j](request))
    ensures k < |funcs| ==> Decisive(funcs[k](request))
    decreases |funcs| - from
  {
    if from == |funcs| || Decisive(funcs[from](request)) then from
    else FirstDecisiveFrom(funcs, request, from + 1)
  }

  /** The `catch` block: a whitelisted code is localised into `context.lang`
      (English by default) and keeps its code; anything else becomes an
      INTERNAL_SERVER_ERROR carrying the raw message. */
  function TranslateError(error: Thrown, context: Context, translate: Translator): (r: GraphqlError)
    ensures error.code.Some? && error.code.value in GraphqlErrorCodes ==>
      && r.code == error.code.value
      && r.message == translate(error.message.GetOr(DefaultPhrase), context.lang.GetOr("en"))
    ensures !(error.code.Some? && error.code.value in GraphqlErrorCodes) ==>
      && r.code == Name(INTERNAL_SERVER_ERROR)
      && r.message == error.message.GetOr("")
  {
    var lang := context.lang.GetOr("en");
    if error.code.Some? && error.code.value in GraphqlErrorCodes then
      GenerateGraphqlError(ErrorRequest(None, Some(I18nConfig(error.message, Some(lang))), error.code.value), translate)
    else
      GenerateGraphqlError(ErrorRequest(error.message, None, Name(INTERNAL_SERVER_ERROR)), translate)
  }

  /** The combined resolver: the settled value, or the translated error it
      rethrows. */
  function CombineResolvers(funcs: seq<Resolver>, request: Request, translate: Translator): (r: Result<Value, GraphqlError>)
    ensures r.Err? <==> Reduce(funcs, request).Rejected?
    ensures r.Ok? ==> r.value == Reduce(funcs, request).prev
    ensures r.Err? ==> r.error == TranslateError(Reduce(funcs, request).error, request.context, translate)
  {
    match Reduce(funcs, request)
    case Pending(v, _) => Ok(v)
    case Rejected(e, _) => Err(TranslateError(e, request.context, translate))
  }

  /** The combined result is that of the first decisive resolver, or `skip`
      when every resolver skips. */
  lemma CombinedIsFirstDecisive(funcs: seq<Resolver>, request: Request, translate: Translator)
    ensures var k := FirstDecisiveFrom(funcs, request, 0);
      CombineResolvers(funcs, request, translate) ==
        if k == |funcs| then Ok(Skip)
        else match funcs[k](request)
          case Returned(v) => Ok(v)
          case Threw(e) => Err(TranslateError(e, request.context, translate))
  {
    var k := FirstDecisiveFrom(funcs, request, 0);
    if k == |funcs| {
      AllSkipInvokesAll(funcs, request);
    } else {
      FirstDecisiveSettles(funcs, request, k);
    }
  }

  /** INTERNAL_SERVER_ERROR is not on the whitelist, so a thrown internal
      error is not localised either. */
  lemma InternalErrorKeepsRawMessage(message: Option<string>, context: Context, translate: Translator)
    ensures TranslateError(Thrown(Some(Name(INTERNAL_SERVER_ERROR)), message), context, translate) ==
      GraphqlError(message.GetOr(""), "INTERNAL_SERVER_ERROR")
  {
    WhitelistIsAllButInternal(INTERNAL_SERVER_ERROR);
  }

  /** `null`, `false` and `0` are not `skip`: a chain that meets one stops
      there and returns it. */
  lemma FalsyValuesShortCircuit(funcs: seq<Resolver>, request: Request, v: Value)
    requires |funcs| >= 1 && v in {Null, Bool(false), Num(0)}
    requires funcs[0](request) == Returned(v)
    ensures Reduce(funcs, request) == Pending(v, [0])
  {
    FirstDecisiveSettles(funcs, request, 0);
  }

  /** A skipping guard followed by a resolver that throws FORBIDDEN: both run,
      and the caller sees FORBIDDEN localised in the request's language. */
  lemma GuardThenForbidden(funcs: seq<Resolver>, request: Request, translate: Translator, message: string)
    requires |funcs| == 3 && request.context.lang == Some("vi")
    requires funcs[0](request) == Returned(Skip)
    requires funcs[1](request) == Threw(Thrown(Some("FORBIDDEN"), Some(message)))
    ensures Reduce(funcs, request).invoked == [0, 1]
    ensures CombineResolvers(funcs, request, translate) == Err(GraphqlError(translate(message, "vi"), "FORBIDDEN"))
  {
    FirstDecisiveSettles(funcs, request, 1);
    assert Upto(2) == [0, 1];
    assert "FORBIDDEN" in GraphqlErrorCodes by {
      assert GraphqlErrorCodes[2] == "FORBIDDEN";
    }
  }
}
