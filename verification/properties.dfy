/**
 * Properties that relate several operations: the sharing state machine seen
 * through later permission checks, the handlers' validation seen through the
 * services, the status a healthy database can produce, and the store
 * invariants kept along any sequence of operations.
 */
module Properties {
  import opened Wrappers
  import opened Models
  import opened Errors
  import opened Store
  import opened Access
  import opened TodoService
  import opened CategoryService
  import TodoHandler
  import CategoryHandler
  import HttpStatus
  import Text

  // ---- sharing, seen through later calls ----

  /** A share is created once per pair: repeating the call, with any permission, is `ShareAlreadyExists` and changes nothing. */
  lemma ShareIsOnce(s: Store, cat: nat, caller: nat, email: string, p: Permission, q: Permission)
    requires Valid(s)
    requires ShareCategory(s, {}, cat, caller, email, p).result.Ok?
    ensures var s1 := ShareCategory(s, {}, cat, caller, email, p).store;
      ShareCategory(s1, {}, cat, caller, email, q) == Reply(s1, Fail(ShareAlreadyExists))
  {
  }

  /** Revoking a share twice: the second call finds no share. */
  lemma UnshareIsOnce(s: Store, cat: nat, caller: nat, target: nat)
    requires Valid(s)
    requires UnshareCategory(s, {}, cat, caller, target).result.Ok?
    ensures var s1 := UnshareCategory(s, {}, cat, caller, target).store;
      UnshareCategory(s1, {}, cat, caller, target) == Reply(s1, Fail(ShareNotFound))
  {
  }

  /** A new share gives its user exactly the shared level, and write access exactly when the share says write. */
  lemma ShareGrantsItsLevel(s: Store, cat: nat, caller: nat, email: string, p: Permission)
    requires Valid(s)
    requires ShareCategory(s, {}, cat, caller, email, p).result.Ok?
    ensures var r := ShareCategory(s, {}, cat, caller, email, p);
      var u := r.result.value.userId;
      && GetUserPermissionForCategory(r.store, {}, u, cat) == Ok(LevelOf(p))
      && CheckCategoryPermission(r.store, {}, u, cat, false) == Ok(())
      && (CheckCategoryPermission(r.store, {}, u, cat, true).Ok? <==> p == Write)
  {
    var r := ShareCategory(s, {}, cat, caller, email, p);
    var u := r.result.value.userId;
    assert u != r.store.categories[cat].ownerId;
    assert EffectiveLevel(r.store, u, cat) == LevelOf(p);
  }

  /** The owner's listing after a share is the listing before it plus the new share. */
  lemma ShareIsListed(s: Store, cat: nat, caller: nat, email: string, p: Permission)
    requires Valid(s)
    requires ShareCategory(s, {}, cat, caller, email, p).result.Ok?
    ensures var r := ShareCategory(s, {}, cat, caller, email, p);
      && GetSharesForCategory(s, {}, cat, caller).Ok?
      && GetSharesForCategory(r.store, {}, cat, caller) == Ok(GetSharesForCategory(s, {}, cat, caller).value + {r.result.value})
  {
    var r := ShareCategory(s, {}, cat, caller, email, p);
    var sh := r.result.value;
    ListingGains(s, r.store, cat, caller, sh);
  }

  /** Adding one share row of a category to the tables adds exactly that row to the owner's listing. */
  lemma ListingGains(s: Store, s1: Store, cat: nat, owner: nat, sh: Share)
    requires WellFormed(s) && WellFormed(s1)
    requires cat in s.categories && s.categories[cat].ownerId == owner && s1.categories == s.categories
    requires sh.categoryId == cat && (cat, sh.userId) !in s.shares && s1.shares == s.shares[(cat, sh.userId) := sh]
    ensures GetSharesForCategory(s, {}, cat, owner).Ok? && GetSharesForCategory(s1, {}, cat, owner).Ok?
    ensures GetSharesForCategory(s1, {}, cat, owner).value == GetSharesForCategory(s, {}, cat, owner).value + {sh}
  {
    var before := GetSharesForCategory(s, {}, cat, owner).value;
    var after := GetSharesForCategory(s1, {}, cat, owner).value;
    forall x | x in after ensures x in before + {sh} {
      if x != sh {
        assert (cat, x.userId) in s.shares;
      }
    }
    forall x | x in before + {sh} ensures x in after {
      if x != sh {
        assert (cat, x.userId) in s1.shares && s1.shares[(cat, x.userId)] == x;
      }
    }
  }

  /** The owner's listing after revoking a share is the listing before it without that share. */
  lemma UnshareIsUnlisted(s: Store, cat: nat, caller: nat, target: nat)
    requires Valid(s)
    requires UnshareCategory(s, {}, cat, caller, target).result.Ok?
    ensures var s1 := UnshareCategory(s, {}, cat, caller, target).store;
      && (cat, target) in s.shares
      && GetSharesForCategory(s, {}, cat, caller).Ok?
      && GetSharesForCategory(s1, {}, cat, caller) == Ok(GetSharesForCategory(s, {}, cat, caller).value - {s.shares[(cat, target)]})
  {
    var s1 := UnshareCategory(s, {}, cat, caller, target).store;
    var before := GetSharesForCategory(s, {}, cat, caller).value;
    var after := GetSharesForCategory(s1, {}, cat, caller).value;
    assert after == before - {s.shares[(cat, target)]} by {
      forall sh | sh in before - {s.shares[(cat, target)]} ensures sh in after {
        assert (cat, sh.userId) in s1.shares;
      }
    }
  }

  /**
   * Downgrading a share to read takes write access away: the user's next
   * update of any todo of the category is `NoWritePermission`, and the
   * todo is left as it was.
   */
  lemma DowngradeBlocksUpdate(s: Store, cat: nat, owner: nat, target: nat, req: UpdateTodoRequest)
    requires Valid(s)
    requires UpdateSharePermission(s, {}, cat, owner, target, Read).result.Ok?
    requires req.userId == target
    requires var s1 := UpdateSharePermission(s, {}, cat, owner, target, Read).store;
      Visible(s1, req.id) && s1.todos[req.id].categoryId == cat
    ensures var s1 := UpdateSharePermission(s, {}, cat, owner, target, Read).store;
      UpdateTodo(s1, {}, req) == Reply(s1, Fail(NoWritePermission))
  {
    var s1 := UpdateSharePermission(s, {}, cat, owner, target, Read).store;
    assert (cat, target) in s.shares;
    assert target != s.categories[cat].ownerId;
    assert EffectiveLevel(s1, target, cat) == ReadAccess;
  }

  /**
   * Revoking a share takes read access away: the former user reading any
   * todo of the category is `Forbidden` (not `TodoNotFound`), which relies on
   * the owner never holding a share of their own category.
   */
  lemma UnshareRevokesRead(s: Store, cat: nat, owner: nat, target: nat, id: nat)
    requires Valid(s)
    requires UnshareCategory(s, {}, cat, owner, target).result.Ok?
    requires var s1 := UnshareCategory(s, {}, cat, owner, target).store;
      Visible(s1, id) && s1.todos[id].categoryId == cat
    ensures var s1 := UnshareCategory(s, {}, cat, owner, target).store;
      GetTodoById(s1, {}, target, id) == Fail(Forbidden)
  {
    var s1 := UnshareCategory(s, {}, cat, owner, target).store;
    assert (cat, target) in s.shares;
    assert target != s1.categories[cat].ownerId;
    assert EffectiveLevel(s1, target, cat) == NoAccess;
  }

  /** A soft-deleted todo is gone for everyone: every later read is `TodoNotFound`, whatever the permissions. */
  lemma DeletedTodoNotFound(s: Store, user: nat, id: nat, f: Faults, reader: nat)
    requires Valid(s)
    requires DeleteTodo(s, {}, user, id).result.Ok?
    ensures GetTodoById(DeleteTodo(s, {}, user, id).store, f, reader, id) == Fail(TodoNotFound)
  {
  }

  /**
   * A user with a write share who creates a todo in the shared category by
   * id becomes the todo's owner as well as its creator; the category's owner
   * does not own it.
   */
  lemma SharedCreateKeepsRequesterAsOwner(s: Store, req: CreateTodoRequest)
    requires Valid(s)
    requires ById(req) && req.categoryId.value in s.categories
    requires var cat := req.categoryId.value;
      (cat, req.userId) in s.shares && s.shares[(cat, req.userId)].permission == Write
    ensures var r := CreateTodo(s, {}, req);
      && r.result.Ok?
      && r.result.value.userId == req.userId
      && r.result.value.userId != s.categories[req.categoryId.value].ownerId
  {
    var cat := req.categoryId.value;
    assert req.userId != s.categories[cat].ownerId;
    assert EffectiveLevel(s, req.userId, cat) == WriteAccess;
  }

  /**
   * A create whose insert succeeds but whose read-back fails: the requester
   * gets an internal error, yet the todo is stored under the next id.
   */
  lemma CreateTodoReadBackKeepsTodo(s: Store, req: CreateTodoRequest)
    requires WellFormed(s) && ById(req)
    requires req.categoryId.value in s.categories && s.categories[req.categoryId.value].ownerId == req.userId
    ensures var r := CreateTodo(s, {FetchTodo}, req);
      && r.result == Fail(Internal("failed to create todo"))
      && s.nextId !in s.todos
      && r.store.todos == s.todos[s.nextId := Todo(s.nextId, req.title, req.description, req.categoryId.value, false, req.userId, req.userId, false)]
  {
  }

  // ---- the handlers in front of the services ----

  /** A create body the handler accepts never reaches the service's `CategoryRequired` branch, whatever the store does. */
  lemma AcceptedCreateHasCategory(s: Store, f: Faults, c: TodoHandler.CreateTodoInput, user: nat)
    requires WellFormed(s)
    requires TodoHandler.AcceptCreate(c).Ok?
    ensures CreateTodo(s, f, TodoHandler.CreateRequest(TodoHandler.AcceptCreate(c).value, user)).result
         != Fail(CategoryRequired)
  {
    var req := TodoHandler.CreateRequest(TodoHandler.AcceptCreate(c).value, user);
    if ById(req) {
      var cat := req.categoryId.value;
      var chk := CheckCategoryPermission(s, f, req.userId, cat, true);
      if chk.Ok? {
        match CategoryById(s, f, cat)
        case Found(cc) => assert InsertNewTodo(s, f, req, cc).result != Fail(CategoryRequired);
        case NoRows =>
        case DbError =>
      }
    } else {
      var got := GetOrCreateCategory(s, f, req.userId, req.category);
      if got.result.Ok? {
        assert InsertNewTodo(got.store, f, req, got.result.value).result != Fail(CategoryRequired);
      }
    }
  }

  /**
   * A title the handler accepts is never blank, so the service's rule that
   * an empty title leaves the old one is never reached through the handler:
   * a successful update stores the trimmed title sent.
   */
  lemma AcceptedUpdateTitleApplies(s: Store, f: Faults, u: TodoHandler.UpdateTodoInput, id: nat, user: nat)
    requires WellFormed(s)
    requires TodoHandler.AcceptUpdate(u).Ok? && u.title.Some?
    requires UpdateTodo(s, f, TodoHandler.UpdateRequest(TodoHandler.AcceptUpdate(u).value, id, user)).result.Ok?
    ensures UpdateTodo(s, f, TodoHandler.UpdateRequest(TodoHandler.AcceptUpdate(u).value, id, user)).result.value.title
         == Text.TrimSpace(u.title.value)
  {
  }

  // ---- what a healthy database lets a client see ----

  /**
   * With no repository errors, every failing todo call is one the handler
   * answers with a 4xx status: a 500 only ever comes from the database.
   */
  lemma TodoFailuresAreClientErrors(s: Store, req: CreateTodoRequest, upd: UpdateTodoRequest, user: nat, id: nat)
    requires WellFormed(s)
    ensures var e := CreateTodo(s, {}, req).result;
      e.Fail? ==> HttpStatus.ClientError(TodoHandler.HandleTodoError(false, Some(e.error)).value)
    ensures var e := GetTodoById(s, {}, user, id);
      e.Fail? ==> HttpStatus.ClientError(TodoHandler.HandleTodoError(false, Some(e.error)).value)
    ensures var e := UpdateTodo(s, {}, upd).result;
      e.Fail? ==> HttpStatus.ClientError(TodoHandler.HandleTodoError(false, Some(e.error)).value)
    ensures var e := DeleteTodo(s, {}, user, id).result;
      e.Fail? ==> HttpStatus.ClientError(TodoHandler.HandleTodoError(false, Some(e.error)).value)
  {
  }

  /** With no repository errors, every failing category call is one the handler answers with a 4xx status. */
  lemma CategoryFailuresAreClientErrors(s: Store, cat: nat, user: nat, name: string)
    requires WellFormed(s)
    ensures var e := CreateCategory(s, {}, user, name).result;
      e.Fail? ==> HttpStatus.ClientError(CategoryHandler.HandleCategoryError(false, Some(e.error)).value)
    ensures var e := GetCategoryById(s, {}, cat, user);
      e.Fail? ==> HttpStatus.ClientError(CategoryHandler.HandleCategoryError(false, Some(e.error)).value)
    ensures var e := UpdateCategory(s, {}, cat, user, name).result;
      e.Fail? ==> HttpStatus.ClientError(CategoryHandler.HandleCategoryError(false, Some(e.error)).value)
    ensures var e := DeleteCategory(s, {}, cat, user).result;
      e.Fail? ==> HttpStatus.ClientError(CategoryHandler.HandleCategoryError(false, Some(e.error)).value)
  {
    var e1 := CreateCategory(s, {}, user, name).result;
    if e1.Fail? { CategoryErrorIsClientError(e1.error); }
    var e2 := GetCategoryById(s, {}, cat, user);
    if e2.Fail? { CategoryErrorIsClientError(e2.error); }
    var e3 := UpdateCategory(s, {}, cat, user, name).result;
    if e3.Fail? { CategoryErrorIsClientError(e3.error); }
    var e4 := DeleteCategory(s, {}, cat, user).result;
    if e4.Fail? { CategoryErrorIsClientError(e4.error); }
  }

  /** With no repository errors, every failing sharing call is one the handler answers with a 4xx status. */
  lemma ShareFailuresAreClientErrors(s: Store, cat: nat, user: nat, email: string, target: nat, p: Permission)
    requires WellFormed(s)
    ensures var e := ShareCategory(s, {}, cat, user, email, p).result;
      e.Fail? ==> HttpStatus.ClientError(CategoryHandler.HandleCategoryError(false, Some(e.error)).value)
    ensures var e := UnshareCategory(s, {}, cat, user, target).result;
      e.Fail? ==> HttpStatus.ClientError(CategoryHandler.HandleCategoryError(false, Some(e.error)).value)
    ensures var e := UpdateSharePermission(s, {}, cat, user, target, p).result;
      e.Fail? ==> HttpStatus.ClientError(CategoryHandler.HandleCategoryError(false, Some(e.error)).value)
    ensures var e := GetSharesForCategory(s, {}, cat, user);
      e.Fail? ==> HttpStatus.ClientError(CategoryHandler.HandleCategoryError(false, Some(e.error)).value)
  {
    var e5 := ShareCategory(s, {}, cat, user, email, p).result;
    if e5.Fail? { CategoryErrorIsClientError(e5.error); }
    var e6 := UnshareCategory(s, {}, cat, user, target).result;
    if e6.Fail? { CategoryErrorIsClientError(e6.error); }
    var e7 := UpdateSharePermission(s, {}, cat, user, target, p).result;
    if e7.Fail? { CategoryErrorIsClientError(e7.error); }
    var e8 := GetSharesForCategory(s, {}, cat, user);
    if e8.Fail? { CategoryErrorIsClientError(e8.error); }
  }

  /** A business error of the category service is answered with a 4xx status. */
  lemma CategoryErrorIsClientError(e: Err)
    requires e in CategoryErrors
    ensures HttpStatus.ClientError(CategoryHandler.HandleCategoryError(false, Some(e)).value)
  {
  }

  // ---- invariants along any sequence of calls ----

  /** One service call that may change the tables. */
  datatype Op =
    | DoCreateTodo(req: CreateTodoRequest)
    | DoUpdateTodo(upd: UpdateTodoRequest)
    | DoDeleteTodo(user: nat, id: nat)
    | DoCreateCategory(user: nat, name: string)
    | DoUpdateCategory(cat: nat, user: nat, name: string)
    | DoDeleteCategory(cat: nat, user: nat)
    | DoShare(cat: nat, user: nat, email: string, p: Permission)
    | DoUnshare(cat: nat, user: nat, target: nat)
    | DoSetPermission(cat: nat, user: nat, target: nat, p: Permission)

  /** The tables after one call, whether it succeeded or not. */
  function Step(s: Store, f: Faults, op: Op): (s': Store)
    requires WellFormed(s)
    ensures WellFormed(s') && Grows(s, s')
  {
    match op
    case DoCreateTodo(req) => CreateTodo(s, f, req).store
    case DoUpdateTodo(upd) => UpdateTodo(s, f, upd).store
    case DoDeleteTodo(user, id) => DeleteTodo(s, f, user, id).store
    case DoCreateCategory(user, name) => CreateCategory(s, f, user, name).store
    case DoUpdateCategory(cat, user, name) => UpdateCategory(s, f, cat, user, name).store
    case DoDeleteCategory(cat, user) => DeleteCategory(s, f, cat, user).store
    case DoShare(cat, user, email, p) => ShareCategory(s, f, cat, user, email, p).store
    case DoUnshare(cat, user, target) => UnshareCategory(s, f, cat, user, target).store
    case DoSetPermission(cat, user, target, p) => UpdateSharePermission(s, f, cat, user, target, p).store
  }

  /** The tables after a sequence of calls, each with its own failing repository calls. */
  function Run(s: Store, steps: seq<(Faults, Op)>): (s': Store)
    requires WellFormed(s)
    ensures WellFormed(s')
    decreases |steps|
  {
    if |steps| == 0 then s else Run(Step(s, steps[0].0, steps[0].1), steps[1..])
  }

  /** Every todo that survives keeps its creator. */
  predicate CreatorsKept(s: Store, s': Store)
  {
    forall id :: id in s.todos && id in s'.todos ==> s'.todos[id].createdBy == s.todos[id].createdBy
  }

  /** No share of `s'` lands on its category's owner when the shares and their categories' owners come from `s`. */
  lemma NoSelfShareFrom(s: Store, s': Store)
    requires Valid(s)
    requires forall k :: k in s'.shares ==> k in s.shares
    requires forall c :: c in s'.categories && c in s.categories ==> s'.categories[c].ownerId == s.categories[c].ownerId
    ensures NoSelfShare(s')
  {
  }

  /** The calls of the todo service. */
  predicate TodoOp(op: Op)
  {
    op.DoCreateTodo? || op.DoUpdateTodo? || op.DoDeleteTodo?
  }

  /** Every call keeps the owner from holding a share of their own category. */
  lemma StepKeepsNoSelfShare(s: Store, f: Faults, op: Op)
    requires Valid(s)
    ensures Valid(Step(s, f, op))
  {
    if TodoOp(op) {
      TodoStepKeepsNoSelfShare(s, f, op);
    } else if !op.DoShare? {
      CategoryStepKeepsNoSelfShare(s, f, op);
    }
  }

  /** The todo calls leave shares and category owners as they were. */
  lemma TodoStepKeepsNoSelfShare(s: Store, f: Faults, op: Op)
    requires Valid(s) && TodoOp(op)
    ensures Valid(Step(s, f, op))
  {
    NoSelfShareFrom(s, Step(s, f, op));
  }

  /** The category calls other than sharing only remove shares and never change an owner. */
  lemma CategoryStepKeepsNoSelfShare(s: Store, f: Faults, op: Op)
    requires Valid(s) && !TodoOp(op) && !op.DoShare?
    ensures Valid(Step(s, f, op))
  {
  }

  /** No call changes the creator of a todo it keeps. */
  lemma StepKeepsCreators(s: Store, f: Faults, op: Op)
    requires WellFormed(s)
    ensures CreatorsKept(s, Step(s, f, op))
  {
    if TodoOp(op) {
      TodoStepKeepsCreators(s, f, op);
    } else {
      CategoryStepKeepsCreators(s, f, op);
    }
  }

  /** The todo calls: create adds a fresh id, update keeps the creator, delete only sets the flag. */
  lemma TodoStepKeepsCreators(s: Store, f: Faults, op: Op)
    requires WellFormed(s) && TodoOp(op)
    ensures CreatorsKept(s, Step(s, f, op))
  {
    match op
    case DoCreateTodo(req) => CreateKeepsCreators(s, f, req);
    case DoUpdateTodo(upd) => UpdateKeepsCreators(s, f, upd);
    case DoDeleteTodo(user, id) => DeleteKeepsCreators(s, f, user, id);
  }

  /** A created todo takes an id no todo had, so every earlier todo is left as it was. */
  lemma CreateKeepsCreators(s: Store, f: Faults, req: CreateTodoRequest)
    requires WellFormed(s)
    ensures CreatorsKept(s, CreateTodo(s, f, req).store)
  {
  }

  /** An update keeps the creator of the todo it rewrites and touches no other todo. */
  lemma UpdateKeepsCreators(s: Store, f: Faults, upd: UpdateTodoRequest)
    requires WellFormed(s)
    ensures CreatorsKept(s, UpdateTodo(s, f, upd).store)
  {
  }

  /** A delete only sets the flag of one todo. */
  lemma DeleteKeepsCreators(s: Store, f: Faults, user: nat, id: nat)
    requires WellFormed(s)
    ensures CreatorsKept(s, DeleteTodo(s, f, user, id).store)
  {
  }

  /** The category calls leave every todo they keep as it was. */
  lemma CategoryStepKeepsCreators(s: Store, f: Faults, op: Op)
    requires WellFormed(s) && !TodoOp(op)
    ensures CreatorsKept(s, Step(s, f, op))
  {
  }

  /**
   * Along any sequence of calls, successful or not, the store stays valid,
   * ids only grow, and no surviving todo ever changes its creator (an id
   * once removed is never handed out again).
   */
  lemma {:induction false} RunKeepsInvariants(s: Store, steps: seq<(Faults, Op)>)
    requires Valid(s)
    ensures Valid(Run(s, steps)) && Grows(s, Run(s, steps)) && CreatorsKept(s, Run(s, steps))
    decreases |steps|
  {
    if |steps| > 0 {
      var s1 := Step(s, steps[0].0, steps[0].1);
      StepKeepsNoSelfShare(s, steps[0].0, steps[0].1);
      StepKeepsCreators(s, steps[0].0, steps[0].1);
      RunKeepsInvariants(s1, steps[1..]);
      var s2 := Run(s1, steps[1..]);
      assert s2 == Run(s, steps);
      forall id | id in s.todos && id in s2.todos
        ensures s2.todos[id].createdBy == s.todos[id].createdBy
      {
        if id !in s1.todos {
          assert false;
        }
      }
    }
  }
}
