/** The service errors. Each sentinel of the Go services is one constructor. */
module Errors {

  datatype Err =
    // todo service sentinels
    | TodoNotFound
    | Forbidden
    | InvalidTodoId
    | CategoryRequired
    | NoWritePermission
    // category service sentinels
    | CategoryNotFound
    | CategoryForbidden
    | CategoryNameExists
    | UserNotFound
    | CannotShareWithSelf
    | ShareAlreadyExists
    | ShareNotFound
    /** A repository failure wrapped with the step that met it ("failed to fetch category", ...). */
    | Internal(context: string)

  /** The business errors of the category operations; anything else they return is a wrapped repository error. */
  const CategoryErrors: set<Err> :=
    {CategoryNotFound, CategoryForbidden, CategoryNameExists, UserNotFound, CannotShareWithSelf, ShareAlreadyExists, ShareNotFound}
}
