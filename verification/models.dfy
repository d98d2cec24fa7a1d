/**
 * The records of the todo service: users, categories, shares, todos, the
 * closed permission enumeration, the derived access levels, and the flat row
 * and nested group shapes of the grouped view.
 */
module Models {
  import opened Wrappers

  /** The two permissions a share can store. */
  datatype Permission = Read | Write

  /** The stored spelling of a permission. */
  function PermissionText(p: Permission): string
  {
    match p
    case Read => "read"
    case Write => "write"
  }

  /** `Permission.IsValid`: a string is a valid stored permission exactly when it spells one of the enumeration's values. */
  predicate IsValid(p: string)
    ensures IsValid(p) <==> exists q: Permission :: PermissionText(q) == p
  {
    assert PermissionText(Read) == "read" && PermissionText(Write) == "write";
    p == "read" || p == "write"
  }

  /** Reads a permission from its stored spelling; only the two valid spellings are accepted. */
  function ParsePermission(s: string): (r: Option<Permission>)
    ensures r.Some? <==> IsValid(s)
    ensures r.Some? ==> PermissionText(r.value) == s
  {
    if s == "read" then Some(Read)
    else if s == "write" then Some(Write)
    else None
  }

  /** Parsing inverts spelling. */
  lemma ParsePermissionRoundTrip(p: Permission)
    ensures ParsePermission(PermissionText(p)) == Some(p)
  {
  }

  /**
   * The access level a user has on a category. It is derived, never stored:
   * `OwnerAccess` for the category's owner, the share's permission otherwise,
   * `NoAccess` when there is no share.
   */
  datatype Level = NoAccess | ReadAccess | WriteAccess | OwnerAccess

  /** The spelling the service uses for a level ("none", "read", "write", "owner"). */
  function LevelText(l: Level): string
  {
    match l
    case NoAccess => "none"
    case ReadAccess => "read"
    case WriteAccess => "write"
    case OwnerAccess => "owner"
  }

  /** The level a stored permission grants. */
  function LevelOf(p: Permission): (l: Level)
    ensures LevelText(l) == PermissionText(p)
  {
    match p
    case Read => ReadAccess
    case Write => WriteAccess
  }

  /** Dominance: owner above write above read above none. */
  function Rank(l: Level): nat
  {
    match l
    case NoAccess => 0
    case ReadAccess => 1
    case WriteAccess => 2
    case OwnerAccess => 3
  }

  /** "owner", "none" and "" only name derived levels: a level is storable exactly when it is read or write. */
  lemma DerivedLevelsNotStorable(l: Level)
    ensures IsValid(LevelText(l)) <==> (l == ReadAccess || l == WriteAccess)
    ensures !IsValid("")
  {
  }

  /** A user of the directory. */
  datatype User = User(id: nat, email: string, name: string)

  /** A category: a named grouping of todos owned by one user. */
  datatype Category = Category(id: nat, name: string, ownerId: nat)

  /** A grant of a category to a non-owner user. */
  datatype Share = Share(id: nat, categoryId: nat, userId: nat, permission: Permission)

  /**
   * A todo. `userId` is the user the todo belongs to, `createdBy` its creator;
   * `deleted` is the soft-delete mark.
   */
  datatype Todo = Todo(
    id: nat,
    title: string,
    description: string,
    categoryId: nat,
    completed: bool,
    userId: nat,
    createdBy: nat,
    deleted: bool)

  /**
   * One row of the grouped query: one category with at most one todo.
   * `todoId == 0` means the category has no todos and the todo columns are empty.
   */
  datatype GroupedRow = GroupedRow(
    categoryId: nat,
    categoryName: string,
    categoryOwnerId: nat,
    categoryOwnerName: string,
    userPermission: string,
    todoId: nat,
    todoTitle: string,
    todoDescription: string,
    todoCompleted: bool,
    todoCreatedBy: nat,
    todoCreatorName: string,
    todoCreatedAt: Option<string>,
    todoUpdatedAt: Option<string>)

  /** A todo inside one group of the grouped view. */
  datatype TodoInCategory = TodoInCategory(
    id: nat,
    title: string,
    description: string,
    completed: bool,
    createdBy: nat,
    creatorName: string,
    createdAt: string,
    updatedAt: string)

  /** One group of the grouped view: a category and its todos. */
  datatype CategoryWithTodos = CategoryWithTodos(
    id: nat,
    name: string,
    ownerId: nat,
    ownerName: string,
    userPermission: string,
    todos: seq<TodoInCategory>)
}
