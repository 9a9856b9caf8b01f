/** `baseTypeResolver` (src/base/base_type_resolver.ts): the GraphQL field
    resolvers that turn a record's `creator` / `updater` id into a `User`
    reference. */
module BaseTypeResolver {
  import opened Outcomes
  import opened JsValue
  import opened BooleanCast

  /** The audit columns of a record (src/base/base_entity.ts); nullable
      columns hold `Null` or `Undefined` when unset. */
  datatype BaseEntity = BaseEntity(
    id: Value,
    status: Value,
    removed: Value,
    creator: Value,
    updater: Value,
    remover: Value,
    created_at: Value,
    updated_at: Value,
    removed_at: Value)

  /** `{ __typename: 'User', id }`. */
  function UserReference(id: Value): Value {
    Obj([("__typename", Str("User")), ("id", id)])
  }

  /** The reference to the user named by a column, or `null` when the column
      is not castable to true. */
  function ActorReference(column: Value): (r: Value)
    ensures r == Null || r == UserReference(column)
    ensures r != Null <==> CastBoolean(column)
  {
    if CastBoolean(column) then UserReference(column) else Null
  }

  /** `baseTypeResolver.creator`. */
  function Creator(parent: BaseEntity): (r: Value)
    ensures r != Null <==> CastBoolean(parent.creator)
    ensures r != Null ==> r.Obj? && Get(r.fields, "__typename") == Some(Str("User")) && Get(r.fields, "id") == Some(parent.creator)
  {
    ActorReference(parent.creator)
  }

  /** `baseTypeResolver.updater`. */
  function Updater(parent: BaseEntity): (r: Value)
    ensures r != Null <==> CastBoolean(parent.updater)
    ensures r != Null ==> r.Obj? && Get(r.fields, "__typename") == Some(Str("User")) && Get(r.fields, "id") == Some(parent.updater)
  {
    ActorReference(parent.updater)
  }

  /** An unset id (`null`, `undefined` or the empty string) gives `null`. */
  lemma UnsetActorGivesNull(parent: BaseEntity)
    requires parent.creator in {Null, Undefined, Str("")}
    requires parent.updater in {Null, Undefined, Str("")}
    ensures Creator(parent) == Null && Updater(parent) == Null
  {
  }

  /** Each resolver reads only its own column. */
  lemma ResolversIndependent(parent: BaseEntity, other: Value)
    ensures Creator(parent.(updater := other)) == Creator(parent)
    ensures Updater(parent.(creator := other)) == Updater(parent)
    ensures Creator(parent.(removed := other, remover := other, status := other)) == Creator(parent)
  {
  }
}
