/**
 * The request-side checks of the todo handler: JSON binding limits, the
 * trimming validators of the create and update bodies, and the mapping of
 * service errors to HTTP statuses.
 */
module TodoHandler {
  import opened Wrappers
  import opened Text
  import opened Errors
  import HttpStatus
  import TodoService

  /** The create body: `categoryId` is the optional id. */
  datatype CreateTodoInput = CreateTodoInput(
    title: string,
    description: string,
    category: string,
    categoryId: Option<nat>)

  /** The update body: every field is optional. */
  datatype UpdateTodoInput = UpdateTodoInput(
    title: Option<string>,
    description: Option<string>,
    categoryId: Option<nat>,
    completed: Option<bool>)

  const MaxTitle: nat := 255
  const MaxDescription: nat := 1000

  const BindingFailed := "Validation failed"
  const TitleBlank := "title cannot be empty or whitespace only"
  const CategoryMissing := "either category or category_id is required"
  const NothingToUpdate := "at least one field must be provided for update"

  /** The create body names its category by a positive id; an id of 0 counts as absent. */
  predicate HasCategoryId(c: CreateTodoInput)
  {
    c.categoryId.Some? && c.categoryId.value > 0
  }

  /** The binding tags of the create body: a required title of 1 to 255 characters, a description of at most 1000. */
  predicate CreateBinds(c: CreateTodoInput)
  {
    1 <= |c.title| <= MaxTitle && |c.description| <= MaxDescription
  }

  /**
   * CreateTodoInput.Validate: trims title, description and category; rejects
   * a title that trims to nothing, then a body with neither a positive
   * category id nor a category name left after trimming.
   */
  function ValidateCreate(c: CreateTodoInput): (r: Result<CreateTodoInput, string>)
    ensures r.Ok? <==> !AllSpace(c.title) && (HasCategoryId(c) || !AllSpace(c.category))
    ensures AllSpace(c.title) ==> r == Fail(TitleBlank)
    ensures !AllSpace(c.title) && !HasCategoryId(c) && AllSpace(c.category) ==> r == Fail(CategoryMissing)
    ensures r.Ok? ==>
      && r.value.title == TrimSpace(c.title) && r.value.title != [] && Trimmed(r.value.title)
      && r.value.description == TrimSpace(c.description) && Trimmed(r.value.description)
      && r.value.category == TrimSpace(c.category) && Trimmed(r.value.category)
      && r.value.categoryId == c.categoryId
      && (HasCategoryId(r.value) || r.value.category != [])
  {
    TrimSpaceEmptyIff(c.title);
    TrimSpaceEmptyIff(c.category);
    var title := TrimSpace(c.title);
    if title == [] then Fail(TitleBlank)
    else
      var v := CreateTodoInput(title, TrimSpace(c.description), TrimSpace(c.category), c.categoryId);
      if !HasCategoryId(v) && v.category == [] then Fail(CategoryMissing)
      else Ok(v)
  }

  /** The create body as the handler passes it on: binding first, then Validate; both failures are a 400. */
  function AcceptCreate(c: CreateTodoInput): (r: Result<CreateTodoInput, string>)
    ensures !CreateBinds(c) ==> r == Fail(BindingFailed)
    ensures CreateBinds(c) ==> r == ValidateCreate(c)
    ensures r.Ok? ==>
      && 1 <= |r.value.title| <= MaxTitle && |r.value.description| <= MaxDescription
      && (HasCategoryId(r.value) || r.value.category != [])
  {
    if !CreateBinds(c) then Fail(BindingFailed)
    else ValidateCreate(c)
  }

  /** The service request the handler builds from a validated create body and the authenticated user. */
  function CreateRequest(v: CreateTodoInput, user: nat): (req: TodoService.CreateTodoRequest)
    ensures TodoService.ById(req) <==> HasCategoryId(v)
    ensures req.userId == user && req.title == v.title && req.category == v.category
  {
    TodoService.CreateTodoRequest(v.title, v.description, v.category, v.categoryId, user)
  }

  /** UpdateTodoInput.IsEmpty: no field was sent. */
  predicate IsEmpty(u: UpdateTodoInput)
  {
    u.title.None? && u.description.None? && u.categoryId.None? && u.completed.None?
  }

  /** Trims an optional string, keeping its presence. */
  function TrimOption(o: Option<string>): (r: Option<string>)
    ensures r.Some? <==> o.Some?
    ensures r.Some? ==> r.value == TrimSpace(o.value) && Trimmed(r.value)
  {
    if o.Some? then Some(TrimSpace(o.value)) else None
  }

  /** The binding tags of the update body: a title, when sent, of 1 to 255 characters; a description, when sent, of at most 1000. */
  predicate UpdateBinds(u: UpdateTodoInput)
  {
    && (u.title.Some? ==> 1 <= |u.title.value| <= MaxTitle)
    && (u.description.Some? ==> |u.description.value| <= MaxDescription)
  }

  /**
   * UpdateTodoInput.Validate: rejects an empty update, then a sent title
   * that trims to nothing; otherwise the sent title and description are
   * replaced by their trimmed forms (the description may become empty).
   */
  function ValidateUpdate(u: UpdateTodoInput): (r: Result<UpdateTodoInput, string>)
    ensures r.Ok? <==> !IsEmpty(u) && (u.title.Some? ==> !AllSpace(u.title.value))
    ensures IsEmpty(u) ==> r == Fail(NothingToUpdate)
    ensures !IsEmpty(u) && u.title.Some? && AllSpace(u.title.value) ==> r == Fail(TitleBlank)
    ensures r.Ok? ==>
      && r.value.title == TrimOption(u.title) && r.value.description == TrimOption(u.description)
      && r.value.categoryId == u.categoryId && r.value.completed == u.completed
      && (r.value.title.Some? ==> r.value.title.value != [])
      && !IsEmpty(r.value)
  {
    if IsEmpty(u) then Fail(NothingToUpdate)
    else if u.title.Some? && TrimSpace(u.title.value) == [] then
      TrimSpaceEmptyIff(u.title.value);
      Fail(TitleBlank)
    else if u.title.Some? then
      TrimSpaceEmptyIff(u.title.value);
      Ok(u.(title := TrimOption(u.title), description := TrimOption(u.description)))
    else
      Ok(u.(description := TrimOption(u.description)))
  }

  /** The update body as the handler passes it on: binding first, then Validate. */
  function AcceptUpdate(u: UpdateTodoInput): (r: Result<UpdateTodoInput, string>)
    ensures !UpdateBinds(u) ==> r == Fail(BindingFailed)
    ensures UpdateBinds(u) ==> r == ValidateUpdate(u)
    ensures r.Ok? ==>
      && !IsEmpty(r.value)
      && (r.value.title.Some? ==> 1 <= |r.value.title.value| <= MaxTitle)
      && (r.value.description.Some? ==> |r.value.description.value| <= MaxDescription)
  {
    if !UpdateBinds(u) then Fail(BindingFailed)
    else ValidateUpdate(u)
  }

  /** The service request the handler builds from a validated update body, the path id and the authenticated user. */
  function UpdateRequest(v: UpdateTodoInput, id: nat, user: nat): (req: TodoService.UpdateTodoRequest)
    ensures req.id == id && req.userId == user
    ensures req.title == v.title && req.description == v.description
    ensures req.categoryId == v.categoryId && req.completed == v.completed
  {
    TodoService.UpdateTodoRequest(id, user, v.title, v.description, v.categoryId, v.completed)
  }

  /**
   * handleTodoError: no response for a nil error; a timed-out request
   * answers 408 whatever the error; then not-found kinds 404, permission
   * kinds 403, a missing category 400, and everything else 500.
   */
  function HandleTodoError(timedOut: bool, err: Option<Err>): (code: Option<nat>)
    ensures code.None? <==> err.None?
    ensures err.Some? && timedOut ==> code == Some(HttpStatus.RequestTimeout)
    ensures err.Some? && !timedOut ==>
      && (code.value == HttpStatus.NotFound <==> err.value in {TodoNotFound, CategoryNotFound})
      && (code.value == HttpStatus.Forbidden <==> err.value in {Forbidden, NoWritePermission})
      && (code.value == HttpStatus.BadRequest <==> err.value == CategoryRequired)
      && (code.value == HttpStatus.InternalServerError <==> err.value !in TodoService.TodoErrors)
      && (HttpStatus.ClientError(code.value) <==> err.value in TodoService.TodoErrors)
  {
    if err.None? then None
    else if timedOut then Some(HttpStatus.RequestTimeout)
    else
      match err.value
      case TodoNotFound => Some(HttpStatus.NotFound)
      case Forbidden => Some(HttpStatus.Forbidden)
      case CategoryNotFound => Some(HttpStatus.NotFound)
      case CategoryRequired => Some(HttpStatus.BadRequest)
      case NoWritePermission => Some(HttpStatus.Forbidden)
      case _ => Some(HttpStatus.InternalServerError)
  }
}
