/**
 * The abstract persistence layer: the tables as maps, the integrity rules
 * assumed of the database, and the repository calls the services make, each reduced
 * to a map lookup or update. A repository call may fail for reasons other than
 * "no rows" (a broken connection, a deadline); which calls fail during one
 * service call is given by a `Faults` set.
 */
module Store {
  import opened Wrappers
  import opened Models
  import opened Errors

  /**
   * The tables. Users are keyed by their unique email, shares by the
   * (category id, user id) pair, assumed unique in the schema. Ids of every table
   * are drawn from the one counter `nextId`.
   */
  datatype Store = Store(
    users: map<string, User>,
    categories: map<nat, Category>,
    shares: map<(nat, nat), Share>,
    todos: map<nat, Todo>,
    nextId: nat)

  /** What a service call leaves behind: the tables after it, and its result or error. */
  datatype Reply<T> = Reply(store: Store, result: Result<T, Err>)

  /** The repository calls a service may make. */
  datatype RepoCall =
    | FetchCategory | FetchCategoryByName | InsertCategory | SaveCategory | RemoveCategory
    | FetchUserByEmail
    | FetchShare | FetchShareById | InsertShare | SaveSharePermission | RemoveShare | FetchPermission | ListShares
    | FetchTodo | InsertTodo | SaveTodo | SoftDeleteTodo

  /** The repository calls that fail with an error other than "no rows". */
  type Faults = set<RepoCall>

  /** The outcome of a single-row query: the row, `sql.ErrNoRows`, or another error. */
  datatype Lookup<T> = Found(value: T) | NoRows | DbError

  /**
   * An insert the table accepted: the tables with the new row, the row, and
   * whether the repository's read-back of the row by its id succeeded. When it
   * did not, the row stays stored and the repository still returns the error.
   */
  datatype Inserted<T> = Inserted(store: Store, row: T, readBack: bool)

  /**
   * No owner has two categories with the same name: the unique (owner_id,
   * name) index this model assumes the schema declares.
   */
  predicate UniqueNames(cats: map<nat, Category>)
  {
    forall i, j :: i in cats && j in cats && cats[i].ownerId == cats[j].ownerId && cats[i].name == cats[j].name ==> i == j
  }

  /** No two share rows carry the same id: the primary key of the share table. */
  predicate UniqueShareIds(shares: map<(nat, nat), Share>)
  {
    forall k1, k2 :: k1 in shares && k2 in shares && shares[k1].id == shares[k2].id ==> k1 == k2
  }

  /**
   * What the database is assumed to guarantee: keys match ids, ids come from
   * the counter, share ids are distinct, foreign keys resolve, names are
   * unique per owner.
   */
  predicate WellFormed(s: Store)
  {
    && s.nextId >= 1
    && (forall e :: e in s.users ==> s.users[e].email == e)
    && (forall id :: id in s.categories ==> s.categories[id].id == id && 0 < id < s.nextId)
    && (forall k :: k in s.shares ==>
          s.shares[k].categoryId == k.0 && s.shares[k].userId == k.1 && k.0 in s.categories && 0 < s.shares[k].id < s.nextId)
    && (forall id :: id in s.todos ==>
          s.todos[id].id == id && 0 < id < s.nextId && s.todos[id].categoryId in s.categories)
    && UniqueNames(s.categories)
    && UniqueShareIds(s.shares)
  }

  /** What the sharing service maintains on top: no category is shared with its own owner. */
  predicate NoSelfShare(s: Store)
  {
    forall k :: k in s.shares && k.0 in s.categories ==> k.1 != s.categories[k.0].ownerId
  }

  /** The full store invariant. */
  predicate Valid(s: Store)
  {
    WellFormed(s) && NoSelfShare(s)
  }

  /**
   * Ids come from the counter only: it never goes back, and every category or
   * todo that appears was numbered after everything `s` held.
   */
  predicate Grows(s: Store, s': Store)
  {
    && s.nextId <= s'.nextId
    && (forall id :: id in s'.categories && id !in s.categories ==> id >= s.nextId)
    && (forall id :: id in s'.todos && id !in s.todos ==> id >= s.nextId)
  }

  /** The access level of `user` on an existing category, read straight from the tables. */
  function EffectiveLevel(s: Store, user: nat, cat: nat): Level
    requires cat in s.categories
  {
    if s.categories[cat].ownerId == user then OwnerAccess
    else if (cat, user) in s.shares then LevelOf(s.shares[(cat, user)].permission)
    else NoAccess
  }

  /** `owner` already has a category called `name`. */
  predicate HasName(s: Store, owner: nat, name: string)
  {
    exists id :: id in s.categories && s.categories[id].ownerId == owner && s.categories[id].name == name
  }

  /** A todo that reads can see: present and not soft-deleted. */
  predicate Visible(s: Store, id: nat)
  {
    id in s.todos && !s.todos[id].deleted
  }

  // ---- category repository ----

  /** GetCategoryByID. */
  function CategoryById(s: Store, f: Faults, id: nat): (r: Lookup<Category>)
    ensures FetchCategory in f ==> r == DbError
    ensures FetchCategory !in f ==> (r.Found? <==> id in s.categories) && (r.Found? ==> r.value == s.categories[id])
  {
    if FetchCategory in f then DbError
    else if id in s.categories then Found(s.categories[id])
    else NoRows
  }

  /** GetCategoryByNameAndOwner: the owner's one category with that name. */
  function CategoryByNameAndOwner(s: Store, f: Faults, owner: nat, name: string): (r: Lookup<Category>)
    requires WellFormed(s)
    ensures FetchCategoryByName in f ==> r == DbError
    ensures FetchCategoryByName !in f ==> (r.Found? <==> HasName(s, owner, name)) && !r.DbError?
    ensures r.Found? ==>
      && r.value.id in s.categories && s.categories[r.value.id] == r.value
      && r.value.ownerId == owner && r.value.name == name
  {
    if FetchCategoryByName in f then DbError
    else if HasName(s, owner, name) then
      var id :| id in s.categories && s.categories[id].ownerId == owner && s.categories[id].name == name;
      Found(s.categories[id])
    else NoRows
  }

  /**
   * CreateCategory: inserts a row with a fresh id, which the unique (owner_id,
   * name) index rejects for a duplicate, then reads it back with GetCategoryByID.
   */
  function AddCategory(s: Store, f: Faults, name: string, owner: nat): (r: Option<Inserted<Category>>)
    requires WellFormed(s)
    ensures r.Some? <==> InsertCategory !in f && !HasName(s, owner, name)
    ensures r.Some? ==>
      var (s', c) := (r.value.store, r.value.row);
      && c.name == name && c.ownerId == owner && c.id !in s.categories
      && s'.categories == s.categories[c.id := c]
      && s'.users == s.users && s'.shares == s.shares && s'.todos == s.todos
      && WellFormed(s')
    ensures r.Some? ==> Grows(s, r.value.store) && r.value.row.id == s.nextId
    ensures r.Some? ==> (r.value.readBack <==> FetchCategory !in f)
  {
    if InsertCategory in f || HasName(s, owner, name) then None
    else
      var c := Category(s.nextId, name, owner);
      var s' := s.(categories := s.categories[c.id := c], nextId := s.nextId + 1);
      Some(Inserted(s', c, CategoryById(s', f, c.id).Found?))
  }

  /** UpdateCategory: renames a category in place; the unique index rejects a name another of the owner's categories holds. */
  function RenameCategory(s: Store, f: Faults, id: nat, name: string): (r: Option<Store>)
    requires WellFormed(s) && id in s.categories
    ensures r.Some? <==>
      && SaveCategory !in f
      && !(exists j :: j in s.categories && j != id && s.categories[j].ownerId == s.categories[id].ownerId && s.categories[j].name == name)
    ensures r.Some? ==>
      && r.value.categories == s.categories[id := s.categories[id].(name := name)]
      && r.value.users == s.users && r.value.shares == s.shares && r.value.todos == s.todos
      && r.value.nextId == s.nextId
      && WellFormed(r.value)
    ensures r.Some? ==> Grows(s, r.value)
  {
    var owner := s.categories[id].ownerId;
    if SaveCategory in f
       || exists j :: j in s.categories && j != id && s.categories[j].ownerId == owner && s.categories[j].name == name
    then None
    else Some(s.(categories := s.categories[id := s.categories[id].(name := name)]))
  }

  /** DeleteCategory: removes the category; the foreign keys cascade to its shares and todos. */
  function DropCategory(s: Store, f: Faults, id: nat): (r: Option<Store>)
    requires WellFormed(s)
    ensures r.Some? <==> RemoveCategory !in f
    ensures r.Some? ==>
      && r.value.categories == s.categories - {id}
      && r.value.users == s.users
      && (forall k :: k in r.value.shares <==> k in s.shares && k.0 != id)
      && (forall k :: k in r.value.shares ==> r.value.shares[k] == s.shares[k])
      && (forall t :: t in r.value.todos <==> t in s.todos && s.todos[t].categoryId != id)
      && (forall t :: t in r.value.todos ==> r.value.todos[t] == s.todos[t])
      && WellFormed(r.value)
    ensures r.Some? ==> Grows(s, r.value)
  {
    if RemoveCategory in f then None
    else
      Some(s.(
        categories := s.categories - {id},
        shares := map k | k in s.shares && k.0 != id :: s.shares[k],
        todos := map t | t in s.todos && s.todos[t].categoryId != id :: s.todos[t]))
  }

  // ---- user repository ----

  /** GetUserByEmail. */
  function UserByEmail(s: Store, f: Faults, email: string): (r: Lookup<User>)
    ensures FetchUserByEmail in f ==> r == DbError
    ensures FetchUserByEmail !in f ==> (r.Found? <==> email in s.users) && (r.Found? ==> r.value == s.users[email])
  {
    if FetchUserByEmail in f then DbError
    else if email in s.users then Found(s.users[email])
    else NoRows
  }

  // ---- share repository ----

  /** GetCategoryShareByCategoryAndUser. */
  function ShareByPair(s: Store, f: Faults, cat: nat, user: nat): (r: Lookup<Share>)
    ensures FetchShare in f ==> r == DbError
    ensures FetchShare !in f ==> (r.Found? <==> (cat, user) in s.shares) && (r.Found? ==> r.value == s.shares[(cat, user)])
  {
    if FetchShare in f then DbError
    else if (cat, user) in s.shares then Found(s.shares[(cat, user)])
    else NoRows
  }

  /** GetCategoryShareByID. */
  function ShareById(s: Store, f: Faults, id: nat): (r: Lookup<Share>)
    requires UniqueShareIds(s.shares)
    ensures FetchShareById in f ==> r == DbError
    ensures FetchShareById !in f ==>
      (r.Found? <==> exists k :: k in s.shares && s.shares[k].id == id) && (r.Found? ==> r.value in s.shares.Values && r.value.id == id)
  {
    if FetchShareById in f then DbError
    else if exists k :: k in s.shares && s.shares[k].id == id then
      var k :| k in s.shares && s.shares[k].id == id;
      Found(s.shares[k])
    else NoRows
  }

  /**
   * CreateCategoryShare: a fresh row, which the unique (category_id, user_id)
   * index and the category foreign key reject otherwise, then read back with
   * GetCategoryShareByID.
   */
  function AddShare(s: Store, f: Faults, cat: nat, user: nat, p: Permission): (r: Option<Inserted<Share>>)
    requires WellFormed(s)
    ensures r.Some? <==> InsertShare !in f && (cat, user) !in s.shares && cat in s.categories
    ensures r.Some? ==>
      var (s', sh) := (r.value.store, r.value.row);
      && sh.categoryId == cat && sh.userId == user && sh.permission == p
      && s'.shares == s.shares[(cat, user) := sh]
      && s'.users == s.users && s'.categories == s.categories && s'.todos == s.todos
      && WellFormed(s')
    ensures r.Some? ==> Grows(s, r.value.store) && r.value.row.id == s.nextId
    ensures r.Some? ==> (r.value.readBack <==> FetchShareById !in f)
  {
    if InsertShare in f || (cat, user) in s.shares || cat !in s.categories then None
    else
      var sh := Share(s.nextId, cat, user, p);
      var s' := s.(shares := s.shares[(cat, user) := sh], nextId := s.nextId + 1);
      Some(Inserted(s', sh, ShareById(s', f, sh.id).Found?))
  }

  /** UpdateCategorySharePermission: rewrites the permission column of one row, keeping its id and pair. */
  function SetSharePermission(s: Store, f: Faults, cat: nat, user: nat, p: Permission): (r: Option<Store>)
    requires WellFormed(s)
    ensures r.Some? <==> SaveSharePermission !in f
    ensures r.Some? && (cat, user) in s.shares ==>
      r.value.shares == s.shares[(cat, user) := s.shares[(cat, user)].(permission := p)]
    ensures r.Some? && (cat, user) !in s.shares ==> r.value.shares == s.shares
    ensures r.Some? ==>
      && r.value.users == s.users && r.value.categories == s.categories && r.value.todos == s.todos
      && WellFormed(r.value)
    ensures r.Some? ==> Grows(s, r.value)
  {
    if SaveSharePermission in f then None
    else if (cat, user) in s.shares then
      Some(s.(shares := s.shares[(cat, user) := s.shares[(cat, user)].(permission := p)]))
    else Some(s)
  }

  /** DeleteCategoryShareByUserAndCategory. */
  function DropShare(s: Store, f: Faults, cat: nat, user: nat): (r: Option<Store>)
    requires WellFormed(s)
    ensures r.Some? <==> RemoveShare !in f
    ensures r.Some? ==>
      && r.value.shares == s.shares - {(cat, user)}
      && r.value.users == s.users && r.value.categories == s.categories && r.value.todos == s.todos
      && WellFormed(r.value)
    ensures r.Some? ==> Grows(s, r.value)
  {
    if RemoveShare in f then None
    else Some(s.(shares := s.shares - {(cat, user)}))
  }

  /**
   * GetUserPermissionForCategory as a query over one category row: "owner" for
   * its owner, the share's permission for a shared user, "none" otherwise, and
   * no row at all for a missing category.
   */
  function PermissionQuery(s: Store, f: Faults, user: nat, cat: nat): (r: Lookup<Level>)
    ensures FetchPermission in f ==> r == DbError
    ensures FetchPermission !in f ==>
      (cat in s.categories ==> r == Found(EffectiveLevel(s, user, cat))) && (cat !in s.categories ==> r == NoRows)
  {
    if FetchPermission in f then DbError
    else if cat !in s.categories then NoRows
    else Found(EffectiveLevel(s, user, cat))
  }

  /** GetSharesForCategory: every share row of the category. */
  function SharesOf(s: Store, f: Faults, cat: nat): (r: Option<set<Share>>)
    requires WellFormed(s)
    ensures r.Some? <==> ListShares !in f
    ensures r.Some? ==> forall sh :: sh in r.value <==> (sh.categoryId == cat && (cat, sh.userId) in s.shares && s.shares[(cat, sh.userId)] == sh)
  {
    if ListShares in f then None
    else Some(set k | k in s.shares && k.0 == cat :: s.shares[k])
  }

  // ---- todo repository ----

  /** GetTodoByID: soft-deleted rows are not returned. */
  function TodoById(s: Store, f: Faults, id: nat): (r: Lookup<Todo>)
    ensures FetchTodo in f ==> r == DbError
    ensures FetchTodo !in f ==> (r.Found? <==> Visible(s, id)) && (r.Found? ==> r.value == s.todos[id])
  {
    if FetchTodo in f then DbError
    else if Visible(s, id) then Found(s.todos[id])
    else NoRows
  }

  /**
   * CreateTodo: inserts a row with a fresh id, which the category foreign key
   * must resolve, then reads it back with GetTodoByID.
   */
  function AddTodo(s: Store, f: Faults, t: Todo): (r: Option<Inserted<Todo>>)
    requires WellFormed(s)
    ensures r.Some? <==> InsertTodo !in f && t.categoryId in s.categories
    ensures r.Some? ==>
      var (s', t') := (r.value.store, r.value.row);
      && t' == t.(id := t'.id, deleted := false) && t'.id !in s.todos
      && s'.todos == s.todos[t'.id := t']
      && s'.users == s.users && s'.categories == s.categories && s'.shares == s.shares
      && WellFormed(s')
    ensures r.Some? ==> Grows(s, r.value.store) && r.value.row.id == s.nextId
    ensures r.Some? ==> (r.value.readBack <==> FetchTodo !in f)
  {
    if InsertTodo in f || t.categoryId !in s.categories then None
    else
      var t' := t.(id := s.nextId, deleted := false);
      var s' := s.(todos := s.todos[t'.id := t'], nextId := s.nextId + 1);
      Some(Inserted(s', t', TodoById(s', f, t'.id).Found?))
  }

  /** UpdateTodo: overwrites the stored row with the same id. */
  function SaveTodoRow(s: Store, f: Faults, t: Todo): (r: Option<Store>)
    requires WellFormed(s) && t.id in s.todos
    ensures r.Some? <==> SaveTodo !in f && t.categoryId in s.categories
    ensures r.Some? ==>
      && r.value.todos == s.todos[t.id := t]
      && r.value.users == s.users && r.value.categories == s.categories && r.value.shares == s.shares
      && WellFormed(r.value)
    ensures r.Some? ==> Grows(s, r.value)
  {
    if SaveTodo in f || t.categoryId !in s.categories then None
    else Some(s.(todos := s.todos[t.id := t]))
  }

  /** SoftDeleteTodo: marks the row deleted and keeps it. */
  function MarkDeleted(s: Store, f: Faults, id: nat): (r: Option<Store>)
    requires WellFormed(s)
    ensures r.Some? <==> SoftDeleteTodo !in f
    ensures r.Some? && id in s.todos ==> r.value.todos == s.todos[id := s.todos[id].(deleted := true)]
    ensures r.Some? && id !in s.todos ==> r.value.todos == s.todos
    ensures r.Some? ==>
      && r.value.users == s.users && r.value.categories == s.categories && r.value.shares == s.shares
      && WellFormed(r.value)
    ensures r.Some? ==> Grows(s, r.value)
  {
    if SoftDeleteTodo in f then None
    else if id in s.todos then Some(s.(todos := s.todos[id := s.todos[id].(deleted := true)]))
    else Some(s)
  }
}
