/**
 * The todo lifecycle of the todo service: creation into a category given by
 * id or by name, and reading, updating and soft-deleting one todo, each gated
 * by the permission check.
 */
module TodoService {
  import opened Wrappers
  import opened Models
  import opened Errors
  import opened Store
  import opened Access

  /** CreateTodoRequest: `categoryId` is the optional id, `category` the optional name. */
  datatype CreateTodoRequest = CreateTodoRequest(
    title: string,
    description: string,
    category: string,
    categoryId: Option<nat>,
    userId: nat)

  /** UpdateTodoRequest: every field but the ids is optional. */
  datatype UpdateTodoRequest = UpdateTodoRequest(
    id: nat,
    userId: nat,
    title: Option<string>,
    description: Option<string>,
    categoryId: Option<nat>,
    completed: Option<bool>)

  /** The business errors of the todo operations; anything else they return is a wrapped repository error. */
  const TodoErrors: set<Err> := {TodoNotFound, Forbidden, CategoryNotFound, CategoryRequired, NoWritePermission}

  /** The request names its category by a positive id; an id of 0 counts as absent. */
  predicate ById(req: CreateTodoRequest)
  {
    req.categoryId.Some? && req.categoryId.value > 0
  }

  /** The update moves the todo to another category. */
  predicate Moves(req: UpdateTodoRequest, t: Todo)
  {
    req.categoryId.Some? && req.categoryId.value != t.categoryId
  }

  /** The categories of `s` are all still in `s'`, unchanged. */
  predicate CategoriesKept(s: Store, s': Store)
  {
    forall id :: id in s.categories ==> id in s'.categories && s'.categories[id] == s.categories[id]
  }

  /** The todos of `s` are all still in `s'`, unchanged. */
  predicate TodosKept(s: Store, s': Store)
  {
    forall id :: id in s.todos ==> id in s'.todos && s'.todos[id] == s.todos[id]
  }

  /**
   * getOrCreateCategory: reuses the requester's category with that name when
   * the lookup succeeds; on any lookup error it inserts a new category with
   * that name owned by the requester. An insert whose read-back fails keeps
   * the new category and still reports the error.
   */
  function GetOrCreateCategory(s: Store, f: Faults, user: nat, name: string): (r: Reply<Category>)
    requires WellFormed(s)
    ensures Grows(s, r.store)
    ensures WellFormed(r.store) && CategoriesKept(s, r.store)
    ensures r.store.shares == s.shares && r.store.todos == s.todos && r.store.users == s.users
    ensures r.result.Ok? ==>
      && r.result.value.name == name && r.result.value.ownerId == user
      && r.result.value.id in r.store.categories && r.store.categories[r.result.value.id] == r.result.value
    ensures FetchCategoryByName !in f && HasName(s, user, name) ==>
      r.store == s && r.result.Ok? && r.result.value.id in s.categories
    ensures FetchCategoryByName in f || !HasName(s, user, name) ==>
      var created := InsertCategory !in f && !HasName(s, user, name);
      && (created ==>
            && s.nextId !in s.categories
            && r.store.categories == s.categories[s.nextId := Category(s.nextId, name, user)])
      && (!created ==> r.store == s)
      && (r.result.Ok? <==> created && FetchCategory !in f)
      && (r.result.Ok? ==> r.result.value.id == s.nextId)
      && (r.result.Fail? ==> r.result.error == Internal("failed to create category"))
    ensures InsertCategory !in f && FetchCategoryByName !in f && FetchCategory !in f ==> r.result.Ok?
  {
    match CategoryByNameAndOwner(s, f, user, name)
    case Found(c) => Reply(s, Ok(c))
    case _ =>
      match AddCategory(s, f, name, user)
      case None => Reply(s, Fail(Internal("failed to create category")))
      case Some(ins) =>
        if ins.readBack then Reply(ins.store, Ok(ins.row))
        else Reply(ins.store, Fail(Internal("failed to create category")))
  }

  /**
   * CreateTodo: a positive category id takes precedence over the name and
   * needs write permission on that category; otherwise the name goes through
   * get-or-create, and an empty name is `CategoryRequired`. The new todo
   * belongs to and is created by the requester.
   */
  function CreateTodo(s: Store, f: Faults, req: CreateTodoRequest): (r: Reply<Todo>)
    requires WellFormed(s)
    ensures Grows(s, r.store)
    ensures WellFormed(r.store) && CategoriesKept(s, r.store) && TodosKept(s, r.store)
    ensures r.store.shares == s.shares && r.store.users == s.users
    ensures r.result.Fail? && r.store.todos != s.todos ==>
      FetchTodo in f && r.result.error == Internal("failed to create todo")
    ensures FetchTodo !in f && r.result.Fail? ==> r.store.todos == s.todos
    ensures r.result.Ok? ==>
      var t := r.result.value;
      && t.userId == req.userId && t.createdBy == req.userId
      && t.title == req.title && t.description == req.description
      && !t.completed && !t.deleted
      && t.id !in s.todos && r.store.todos == s.todos[t.id := t]
      && t.categoryId in r.store.categories
    // by id
    ensures ById(req) && r.result.Ok? ==>
      && r.result.value.categoryId == req.categoryId.value
      && req.categoryId.value in s.categories
      && Grants(EffectiveLevel(s, req.userId, req.categoryId.value), true)
    ensures ById(req) ==> r.store.categories == s.categories
    ensures ById(req) && f == {} ==>
      (r.result.Ok? <==> req.categoryId.value in s.categories && Grants(EffectiveLevel(s, req.userId, req.categoryId.value), true))
    // by name
    ensures !ById(req) && req.category == [] ==> r == Reply(s, Fail(CategoryRequired))
    ensures !ById(req) && r.result.Ok? ==>
      && r.store.categories[r.result.value.categoryId].name == req.category
      && r.store.categories[r.result.value.categoryId].ownerId == req.userId
    ensures !ById(req) && req.category != [] && f == {} ==> r.result.Ok?
    ensures r.result.Fail? ==> r.result.error.Internal? || r.result.error in TodoErrors
    ensures f == {} && r.result.Fail? ==> !r.result.error.Internal?
  {
    if ById(req) then
      var cat := req.categoryId.value;
      match CheckCategoryPermission(s, f, req.userId, cat, true)
      case Fail(e) => Reply(s, Fail(e))
      case Ok(_) =>
        match CategoryById(s, f, cat)
        case DbError => Reply(s, Fail(Internal("failed to fetch category")))
        case NoRows => Reply(s, Fail(CategoryNotFound))
        case Found(c) => InsertNewTodo(s, f, req, c)
    else if req.category == [] then
      Reply(s, Fail(CategoryRequired))
    else
      var got := GetOrCreateCategory(s, f, req.userId, req.category);
      match got.result
      case Fail(e) => Reply(got.store, Fail(e))
      case Ok(c) => InsertNewTodo(got.store, f, req, c)
  }

  /**
   * The final insert of CreateTodo into category `c`. An insert error leaves
   * the tables as they were; a failed read-back leaves the new todo stored and
   * still reports the error.
   */
  function InsertNewTodo(s: Store, f: Faults, req: CreateTodoRequest, c: Category): (r: Reply<Todo>)
    requires WellFormed(s) && c.id in s.categories
    ensures Grows(s, r.store)
    ensures WellFormed(r.store)
    ensures r.store.categories == s.categories && r.store.shares == s.shares && r.store.users == s.users
    ensures TodosKept(s, r.store)
    ensures InsertTodo in f ==> r.store == s
    ensures InsertTodo !in f ==>
      && s.nextId !in s.todos
      && r.store.todos == s.todos[s.nextId := Todo(s.nextId, req.title, req.description, c.id, false, req.userId, req.userId, false)]
    ensures r.result.Ok? ==>
      var t := r.result.value;
      && t == Todo(t.id, req.title, req.description, c.id, false, req.userId, req.userId, false)
      && t.id !in s.todos && r.store.todos == s.todos[t.id := t]
    ensures r.result.Ok? <==> InsertTodo !in f && FetchTodo !in f
    ensures r.result.Fail? ==> r.result.error == Internal("failed to create todo")
  {
    var t := Todo(0, req.title, req.description, c.id, false, req.userId, req.userId, false);
    match AddTodo(s, f, t)
    case None => Reply(s, Fail(Internal("failed to create todo")))
    case Some(ins) =>
      if ins.readBack then Reply(ins.store, Ok(ins.row))
      else Reply(ins.store, Fail(Internal("failed to create todo")))
  }

  /**
   * GetTodoByID: any lookup failure is `TodoNotFound`, checked before the
   * read permission; a user without a share gets `Forbidden`.
   */
  function GetTodoById(s: Store, f: Faults, user: nat, id: nat): (r: Result<Todo, Err>)
    requires WellFormed(s)
    ensures FetchTodo in f || !Visible(s, id) ==> r == Fail(TodoNotFound)
    ensures r.Ok? ==>
      && Visible(s, id) && r.value == s.todos[id]
      && Grants(EffectiveLevel(s, user, r.value.categoryId), false)
    ensures f == {} ==>
      (r.Ok? <==> Visible(s, id) && Grants(EffectiveLevel(s, user, s.todos[id].categoryId), false))
    ensures f == {} && Visible(s, id) && EffectiveLevel(s, user, s.todos[id].categoryId) == NoAccess ==>
      r == Fail(Forbidden)
    ensures r.Fail? ==> r.error.Internal? || r.error in TodoErrors
    ensures f == {} && r.Fail? ==> !r.error.Internal?
  {
    match TodoById(s, f, id)
    case Found(t) =>
      (match CheckCategoryPermission(s, f, user, t.categoryId, false)
       case Fail(e) => Fail(e)
       case Ok(_) => Ok(t))
    case _ => Fail(TodoNotFound)
  }

  /** The partial update of the fields: a title only when present and non-empty, description and completed when present. */
  function ApplyFields(t: Todo, req: UpdateTodoRequest): (u: Todo)
    ensures u.id == t.id && u.createdBy == t.createdBy && u.categoryId == t.categoryId
    ensures u.userId == t.userId && u.deleted == t.deleted
    ensures u.title == (if req.title.Some? && req.title.value != [] then req.title.value else t.title)
    ensures u.description == (if req.description.Some? then req.description.value else t.description)
    ensures u.completed == (if req.completed.Some? then req.completed.value else t.completed)
  {
    var t1 := if req.title.Some? && req.title.value != [] then t.(title := req.title.value) else t;
    var t2 := if req.description.Some? then t1.(description := req.description.value) else t1;
    if req.completed.Some? then t2.(completed := req.completed.value) else t2
  }

  /**
   * UpdateTodo: write permission on the current category; a move to another
   * category needs write permission there as well and hands the todo to the
   * new category's owner. Every failure leaves the store as it was.
   */
  function UpdateTodo(s: Store, f: Faults, req: UpdateTodoRequest): (r: Reply<Todo>)
    requires WellFormed(s)
    ensures Grows(s, r.store)
    ensures WellFormed(r.store)
    ensures r.result.Fail? ==> r.store == s
    ensures FetchTodo in f || !Visible(s, req.id) ==> r == Reply(s, Fail(TodoNotFound))
    ensures r.result.Ok? ==> SaveTodo !in f
    ensures r.result.Ok? ==>
      var prev := s.todos[req.id];
      var t := r.result.value;
      && Visible(s, req.id)
      && Grants(EffectiveLevel(s, req.userId, prev.categoryId), true)
      && t.id == req.id && t.createdBy == prev.createdBy && !t.deleted
      && r.store.todos == s.todos[req.id := t]
      && r.store.categories == s.categories && r.store.shares == s.shares && r.store.users == s.users
      && t.title == (if req.title.Some? && req.title.value != [] then req.title.value else prev.title)
      && t.description == (if req.description.Some? then req.description.value else prev.description)
      && t.completed == (if req.completed.Some? then req.completed.value else prev.completed)
    ensures r.result.Ok? && Moves(req, s.todos[req.id]) ==>
      var t := r.result.value;
      && t.categoryId == req.categoryId.value && t.categoryId in s.categories
      && t.userId == s.categories[t.categoryId].ownerId
      && Grants(EffectiveLevel(s, req.userId, t.categoryId), true)
    ensures r.result.Ok? && !Moves(req, s.todos[req.id]) ==>
      r.result.value.categoryId == s.todos[req.id].categoryId && r.result.value.userId == s.todos[req.id].userId
    ensures f == {} ==>
      (r.result.Ok? <==>
        && Visible(s, req.id)
        && Grants(EffectiveLevel(s, req.userId, s.todos[req.id].categoryId), true)
        && (Moves(req, s.todos[req.id]) ==>
              req.categoryId.value in s.categories && Grants(EffectiveLevel(s, req.userId, req.categoryId.value), true)))
    ensures r.result.Fail? ==> r.result.error.Internal? || r.result.error in TodoErrors
    ensures f == {} && r.result.Fail? ==> !r.result.error.Internal?
  {
    match TodoById(s, f, req.id)
    case Found(t) =>
      (match CheckCategoryPermission(s, f, req.userId, t.categoryId, true)
       case Fail(e) => Reply(s, Fail(e))
       case Ok(_) =>
         if Moves(req, t) then
           var target := req.categoryId.value;
           match CheckCategoryPermission(s, f, req.userId, target, true)
           case Fail(e) => Reply(s, Fail(e))
           case Ok(_) =>
             match CategoryById(s, f, target)
             case Found(c) => SaveUpdated(s, f, ApplyFields(t.(categoryId := target, userId := c.ownerId), req))
             case _ => Reply(s, Fail(CategoryNotFound))
         else
           SaveUpdated(s, f, ApplyFields(t, req)))
    case _ => Reply(s, Fail(TodoNotFound))
  }

  /** The final save of UpdateTodo; a save error leaves the store as it was. */
  function SaveUpdated(s: Store, f: Faults, t: Todo): (r: Reply<Todo>)
    requires WellFormed(s) && t.id in s.todos && t.categoryId in s.categories
    ensures Grows(s, r.store)
    ensures WellFormed(r.store)
    ensures r.result.Fail? ==> r.store == s && r.result.error == Internal("failed to update todo")
    ensures r.result.Ok? <==> SaveTodo !in f
    ensures r.result.Ok? ==>
      && r.result.value == t && r.store.todos == s.todos[t.id := t]
      && r.store.categories == s.categories && r.store.shares == s.shares && r.store.users == s.users
  {
    match SaveTodoRow(s, f, t)
    case None => Reply(s, Fail(Internal("failed to update todo")))
    case Some(s') => Reply(s', Ok(t))
  }

  /**
   * The final save as the repository writes it: the update's parameters carry
   * title, description, category and completed but no owner, so the stored row
   * keeps its old owner; the todo handed back is the row read back afterwards.
   * (The read-back uses the lookup that already succeeded in this call, and
   * faults are fixed per call, so it does not fail here.)
   */
  function SaveUpdatedAsWritten(s: Store, f: Faults, t: Todo): (r: Reply<Todo>)
    requires WellFormed(s) && t.id in s.todos && t.categoryId in s.categories
    ensures r.result.Fail? ==> r.store == s && r.result.error == Internal("failed to update todo")
    ensures r.result.Ok? <==> SaveTodo !in f
    ensures r.result.Ok? ==>
      && t.id in r.store.todos && r.result.value == r.store.todos[t.id]
      && r.result.value == t.(userId := s.todos[t.id].userId)
  {
    var kept := t.(userId := s.todos[t.id].userId);
    match SaveTodoRow(s, f, kept)
    case None => Reply(s, Fail(Internal("failed to update todo")))
    case Some(s') => Reply(s', Ok(s'.todos[t.id]))
  }

  /**
   * A move into a category someone else owns: the service hands the todo to
   * the target's owner, but the save as written neither stores nor returns
   * that owner, so the todo stays with its previous owner.
   */
  lemma AsWrittenMoveKeepsOwner(s: Store, f: Faults, req: UpdateTodoRequest)
    requires WellFormed(s)
    requires UpdateTodo(s, f, req).result.Ok?
    requires req.categoryId.Some? && req.id in s.todos && req.categoryId.value in s.categories
    requires req.categoryId.value != s.todos[req.id].categoryId
    requires s.categories[req.categoryId.value].ownerId != s.todos[req.id].userId
    ensures var u := UpdateTodo(s, f, req).result.value;
            && u.userId == s.categories[req.categoryId.value].ownerId
            && u.id in s.todos && u.categoryId in s.categories
            && SaveUpdatedAsWritten(s, f, u).result.Ok?
            && SaveUpdatedAsWritten(s, f, u).result.value.userId == s.todos[req.id].userId
            && SaveUpdatedAsWritten(s, f, u).result.value.userId != u.userId
  {
  }

  /** Categories 1 and 2 owned by users 1 and 2, a write share of 2 with user 1, and user 1's todo 4 in category 1. */
  function MoveExampleStore(): Store
  {
    Store(
      map[],
      map[1 := Category(1, "mine", 1), 2 := Category(2, "theirs", 2)],
      map[(2, 1) := Share(3, 2, 1, Write)],
      map[4 := Todo(4, "t", "", 1, false, 1, 1, false)],
      5)
  }

  lemma MoveExampleWellFormed()
    ensures WellFormed(MoveExampleStore())
  {
    var s := MoveExampleStore();
    assert s.categories.Keys == {1, 2} && s.shares.Keys == {(2, 1)} && s.todos.Keys == {4};
    assert UniqueNames(s.categories);
    assert UniqueShareIds(s.shares);
  }

  /**
   * The smallest such move: user 1 holds a write share of user 2's category 2
   * and moves their todo 4 out of their own category 1 into it.
   */
  lemma AsWrittenMoveExample()
    ensures
      var s := MoveExampleStore();
      var req := UpdateTodoRequest(4, 1, None, None, Some(2), None);
      && WellFormed(s)
      && UpdateTodo(s, {}, req).result == Ok(Todo(4, "t", "", 2, false, 2, 1, false))
      && SaveUpdatedAsWritten(s, {}, UpdateTodo(s, {}, req).result.value).result == Ok(Todo(4, "t", "", 2, false, 1, 1, false))
  {
    MoveExampleWellFormed();
  }

  /** DeleteTodo: write permission on the todo's category, then the soft-delete mark. */
  function DeleteTodo(s: Store, f: Faults, user: nat, id: nat): (r: Reply<()>)
    requires WellFormed(s)
    ensures Grows(s, r.store)
    ensures WellFormed(r.store)
    ensures r.result.Fail? ==> r.store == s
    ensures FetchTodo in f || !Visible(s, id) ==> r == Reply(s, Fail(TodoNotFound))
    ensures r.result.Ok? ==>
      && Visible(s, id)
      && Grants(EffectiveLevel(s, user, s.todos[id].categoryId), true)
      && r.store.todos == s.todos[id := s.todos[id].(deleted := true)]
      && r.store.categories == s.categories && r.store.shares == s.shares && r.store.users == s.users
    ensures f == {} ==>
      (r.result.Ok? <==> Visible(s, id) && Grants(EffectiveLevel(s, user, s.todos[id].categoryId), true))
    ensures r.result.Fail? ==> r.result.error.Internal? || r.result.error in TodoErrors
    ensures f == {} && r.result.Fail? ==> !r.result.error.Internal?
  {
    match TodoById(s, f, id)
    case Found(t) =>
      (match CheckCategoryPermission(s, f, user, t.categoryId, true)
       case Fail(e) => Reply(s, Fail(e))
       case Ok(_) =>
         match MarkDeleted(s, f, id)
         case None => Reply(s, Fail(Internal("failed to delete todo")))
         case Some(s') => Reply(s', Ok(())))
    case _ => Reply(s, Fail(TodoNotFound))
  }
}
