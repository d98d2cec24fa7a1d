/**
 * The category service: owner-only creation, renaming and deletion of
 * categories, and the sharing state machine (share, unshare, change
 * permission, list shares), each checking its failures in a fixed order
 * before any write.
 */
module CategoryService {
  import opened Wrappers
  import opened Models
  import opened Errors
  import opened Store

  /**
   * CreateCategory: `CategoryNameExists` when the owner already has the
   * name; lookup errors other than "no rows" are propagated; otherwise one
   * new category with that name and owner, which stays stored even when the
   * insert's read-back fails and the call reports an error.
   */
  function CreateCategory(s: Store, f: Faults, owner: nat, name: string): (r: Reply<Category>)
    requires WellFormed(s)
    ensures Grows(s, r.store)
    ensures WellFormed(r.store)
    ensures NoSelfShare(s) ==> NoSelfShare(r.store)
    ensures r.result.Fail? && r.store != s ==>
      && FetchCategory in f && r.result.error == Internal("failed to create category")
      && s.nextId !in s.categories
      && r.store.categories == s.categories[s.nextId := Category(s.nextId, name, owner)]
      && r.store.shares == s.shares && r.store.todos == s.todos && r.store.users == s.users
    ensures FetchCategoryByName !in f && InsertCategory !in f && !HasName(s, owner, name) ==>
      && r.store.categories == s.categories[s.nextId := Category(s.nextId, name, owner)]
      && (r.result.Ok? <==> FetchCategory !in f)
    ensures FetchCategoryByName !in f && HasName(s, owner, name) ==> r == Reply(s, Fail(CategoryNameExists))
    ensures FetchCategoryByName in f ==> r == Reply(s, Fail(Internal("failed to check existing category")))
    ensures r.result.Ok? ==>
      var c := r.result.value;
      && c.name == name && c.ownerId == owner && c.id !in s.categories
      && r.store.categories == s.categories[c.id := c]
      && r.store.shares == s.shares && r.store.todos == s.todos && r.store.users == s.users
    ensures f == {} ==> (r.result.Ok? <==> !HasName(s, owner, name))
    ensures r.result.Fail? ==> r.result.error.Internal? || r.result.error in CategoryErrors
    ensures f == {} && r.result.Fail? ==> !r.result.error.Internal?
  {
    match CategoryByNameAndOwner(s, f, owner, name)
    case Found(_) => Reply(s, Fail(CategoryNameExists))
    case DbError => Reply(s, Fail(Internal("failed to check existing category")))
    case NoRows =>
      match AddCategory(s, f, name, owner)
      case None => Reply(s, Fail(Internal("failed to create category")))
      case Some(ins) =>
        if ins.readBack then Reply(ins.store, Ok(ins.row))
        else Reply(ins.store, Fail(Internal("failed to create category")))
  }

  /**
   * GetCategoryByID: the owner always gets the category; anyone else needs a
   * share. An error of the permission lookup is ignored and reads as "no
   * share".
   */
  function GetCategoryById(s: Store, f: Faults, cat: nat, user: nat): (r: Result<Category, Err>)
    ensures FetchCategory in f ==> r == Fail(Internal("failed to fetch category"))
    ensures FetchCategory !in f && cat !in s.categories ==> r == Fail(CategoryNotFound)
    ensures FetchCategory !in f && cat in s.categories && s.categories[cat].ownerId == user ==> r == Ok(s.categories[cat])
    ensures r.Ok? ==> cat in s.categories && r.value == s.categories[cat] && EffectiveLevel(s, user, cat) != NoAccess
    ensures FetchCategory !in f && FetchPermission !in f && cat in s.categories ==>
      (r.Ok? <==> EffectiveLevel(s, user, cat) != NoAccess) && (r.Fail? ==> r.error == CategoryForbidden)
    ensures FetchCategory !in f && FetchPermission in f && cat in s.categories && s.categories[cat].ownerId != user ==>
      r == Fail(CategoryForbidden)
    ensures r.Fail? ==> r.error.Internal? || r.error in CategoryErrors
    ensures f == {} && r.Fail? ==> !r.error.Internal?
  {
    match CategoryById(s, f, cat)
    case DbError => Fail(Internal("failed to fetch category"))
    case NoRows => Fail(CategoryNotFound)
    case Found(c) =>
      if c.ownerId != user then
        var p := PermissionQuery(s, f, user, cat);
        // the error is discarded: a failed lookup leaves the permission empty
        var level := if p.Found? then p.value else NoAccess;
        if level == NoAccess then Fail(CategoryForbidden) else Ok(c)
      else Ok(c)
  }

  /** The category fetch and owner check that open every owner-only operation. */
  function OwnedCategory(s: Store, f: Faults, cat: nat, user: nat): (r: Result<Category, Err>)
    ensures FetchCategory in f ==> r == Fail(Internal("failed to fetch category"))
    ensures FetchCategory !in f ==>
      && (cat !in s.categories ==> r == Fail(CategoryNotFound))
      && (cat in s.categories && s.categories[cat].ownerId != user ==> r == Fail(CategoryForbidden))
    ensures r.Ok? <==> FetchCategory !in f && cat in s.categories && s.categories[cat].ownerId == user
    ensures r.Ok? ==> r.value == s.categories[cat]
  {
    match CategoryById(s, f, cat)
    case DbError => Fail(Internal("failed to fetch category"))
    case NoRows => Fail(CategoryNotFound)
    case Found(c) => if c.ownerId != user then Fail(CategoryForbidden) else Ok(c)
  }

  /**
   * UpdateCategory: owner only; a new name that differs from the current one
   * must not be taken by another of the owner's categories.
   */
  function UpdateCategory(s: Store, f: Faults, cat: nat, user: nat, name: string): (r: Reply<Category>)
    requires WellFormed(s)
    ensures Grows(s, r.store)
    ensures WellFormed(r.store)
    ensures NoSelfShare(s) ==> NoSelfShare(r.store)
    ensures r.result.Fail? ==> r.store == s
    ensures FetchCategory !in f && cat !in s.categories ==> r.result == Fail(CategoryNotFound)
    ensures FetchCategory !in f && cat in s.categories && s.categories[cat].ownerId != user ==>
      r.result == Fail(CategoryForbidden)
    ensures r.result.Ok? ==>
      && cat in s.categories && s.categories[cat].ownerId == user
      && r.result.value == s.categories[cat].(name := name)
      && r.store.categories == s.categories[cat := r.result.value]
      && r.store.shares == s.shares && r.store.todos == s.todos && r.store.users == s.users
    ensures (FetchCategory !in f && SaveCategory !in f && cat in s.categories && s.categories[cat].ownerId == user
             && s.categories[cat].name == name) ==> r.result.Ok?
    ensures f == {} ==>
      (r.result.Ok? <==>
        cat in s.categories && s.categories[cat].ownerId == user
        && (name == s.categories[cat].name || !HasName(s, user, name)))
    ensures (f == {} && cat in s.categories && s.categories[cat].ownerId == user
             && name != s.categories[cat].name && HasName(s, user, name)) ==> r.result == Fail(CategoryNameExists)
    ensures r.result.Fail? ==> r.result.error.Internal? || r.result.error in CategoryErrors
    ensures f == {} && r.result.Fail? ==> !r.result.error.Internal?
  {
    match OwnedCategory(s, f, cat, user)
    case Fail(e) => Reply(s, Fail(e))
    case Ok(c) =>
      var conflict: Result<(), Err> :=
        if name == c.name then Ok(())
        else match CategoryByNameAndOwner(s, f, user, name)
          case Found(_) => Fail(CategoryNameExists)
          case DbError => Fail(Internal("failed to check existing category"))
          case NoRows => Ok(());
      match conflict
      case Fail(e) => Reply(s, Fail(e))
      case Ok(_) =>
        match RenameCategory(s, f, cat, name)
        case None => Reply(s, Fail(Internal("failed to update category")))
        case Some(s') => Reply(s', Ok(c.(name := name)))
  }

  /** DeleteCategory: owner only; the category goes, and with it its shares and todos. */
  function DeleteCategory(s: Store, f: Faults, cat: nat, user: nat): (r: Reply<()>)
    requires WellFormed(s)
    ensures Grows(s, r.store)
    ensures WellFormed(r.store)
    ensures NoSelfShare(s) ==> NoSelfShare(r.store)
    ensures r.result.Fail? ==> r.store == s
    ensures FetchCategory !in f && cat !in s.categories ==> r.result == Fail(CategoryNotFound)
    ensures FetchCategory !in f && cat in s.categories && s.categories[cat].ownerId != user ==>
      r.result == Fail(CategoryForbidden)
    ensures r.result.Ok? ==>
      && cat in s.categories && s.categories[cat].ownerId == user
      && r.store.categories == s.categories - {cat}
      && (forall k :: k in r.store.shares <==> k in s.shares && k.0 != cat)
      && (forall t :: t in r.store.todos <==> t in s.todos && s.todos[t].categoryId != cat)
      && (forall k :: k in r.store.shares ==> r.store.shares[k] == s.shares[k])
      && (forall t :: t in r.store.todos ==> r.store.todos[t] == s.todos[t])
      && r.store.users == s.users
    ensures f == {} ==> (r.result.Ok? <==> cat in s.categories && s.categories[cat].ownerId == user)
    ensures r.result.Fail? ==> r.result.error.Internal? || r.result.error in CategoryErrors
    ensures f == {} && r.result.Fail? ==> !r.result.error.Internal?
  {
    match OwnedCategory(s, f, cat, user)
    case Fail(e) => Reply(s, Fail(e))
    case Ok(_) =>
      match DropCategory(s, f, cat)
      case None => Reply(s, Fail(Internal("failed to delete category")))
      case Some(s') => Reply(s', Ok(()))
  }

  /**
   * ShareCategory: checks, in this order, that the category exists, that the
   * caller owns it, that the email names a user, that the user is not the
   * caller, and that no share for the pair exists; then creates the share.
   */
  function ShareCategory(s: Store, f: Faults, cat: nat, caller: nat, email: string, p: Permission): (r: Reply<Share>)
    requires WellFormed(s)
    ensures Grows(s, r.store)
    ensures WellFormed(r.store)
    ensures r.result.Fail? && r.store != s ==>
      && FetchShareById in f && r.result.error == Internal("failed to create share")
      && cat in s.categories && s.categories[cat].ownerId == caller
      && email in s.users && s.users[email].id != caller && (cat, s.users[email].id) !in s.shares
      && r.store.shares == s.shares[(cat, s.users[email].id) := Share(s.nextId, cat, s.users[email].id, p)]
      && r.store.categories == s.categories && r.store.todos == s.todos && r.store.users == s.users
    ensures r.result.Ok? ==>
      var sh := r.result.value;
      && cat in s.categories && s.categories[cat].ownerId == caller
      && email in s.users && sh.userId == s.users[email].id
      && sh.categoryId == cat && sh.permission == p
      && sh.userId != s.categories[cat].ownerId
      && (cat, sh.userId) !in s.shares
      && r.store.shares == s.shares[(cat, sh.userId) := sh]
      && r.store.categories == s.categories && r.store.todos == s.todos && r.store.users == s.users
    ensures NoSelfShare(s) ==> NoSelfShare(r.store)
    // the order of the failure checks
    ensures FetchCategory !in f ==>
      && (cat !in s.categories ==> r.result == Fail(CategoryNotFound))
      && (cat in s.categories && s.categories[cat].ownerId != caller ==> r.result == Fail(CategoryForbidden))
    ensures FetchCategory !in f && FetchUserByEmail !in f && cat in s.categories && s.categories[cat].ownerId == caller ==>
      && (email !in s.users ==> r.result == Fail(UserNotFound))
      && (email in s.users && s.users[email].id == caller ==> r.result == Fail(CannotShareWithSelf))
    ensures (FetchCategory !in f && FetchUserByEmail !in f && FetchShare !in f
             && cat in s.categories && s.categories[cat].ownerId == caller
             && email in s.users && s.users[email].id != caller && (cat, s.users[email].id) in s.shares) ==>
      r == Reply(s, Fail(ShareAlreadyExists))
    ensures (FetchCategory !in f && FetchUserByEmail !in f && FetchShare !in f && InsertShare !in f
             && cat in s.categories && s.categories[cat].ownerId == caller
             && email in s.users && s.users[email].id != caller && (cat, s.users[email].id) !in s.shares) ==>
      && r.store.shares == s.shares[(cat, s.users[email].id) := Share(s.nextId, cat, s.users[email].id, p)]
      && (r.result.Ok? <==> FetchShareById !in f)
    ensures f == {} ==>
      (r.result.Ok? <==>
        && cat in s.categories && s.categories[cat].ownerId == caller
        && email in s.users && s.users[email].id != caller && (cat, s.users[email].id) !in s.shares)
    ensures r.result.Fail? ==> r.result.error.Internal? || r.result.error in CategoryErrors
    ensures f == {} && r.result.Fail? ==> !r.result.error.Internal?
  {
    match OwnedCategory(s, f, cat, caller)
    case Fail(e) => Reply(s, Fail(e))
    case Ok(_) =>
      match UserByEmail(s, f, email)
      case NoRows => Reply(s, Fail(UserNotFound))
      case DbError => Reply(s, Fail(Internal("failed to find user")))
      case Found(u) =>
        if u.id == caller then Reply(s, Fail(CannotShareWithSelf))
        else
          match ShareByPair(s, f, cat, u.id)
          case Found(_) => Reply(s, Fail(ShareAlreadyExists))
          case DbError => Reply(s, Fail(Internal("failed to check existing share")))
          case NoRows =>
            match AddShare(s, f, cat, u.id, p)
            case None => Reply(s, Fail(Internal("failed to create share")))
            case Some(ins) =>
              if ins.readBack then Reply(ins.store, Ok(ins.row))
              else Reply(ins.store, Fail(Internal("failed to create share")))
  }

  /** UnshareCategory: owner only; `ShareNotFound` for an absent pair, otherwise the pair's share is removed. */
  function UnshareCategory(s: Store, f: Faults, cat: nat, caller: nat, target: nat): (r: Reply<()>)
    requires WellFormed(s)
    ensures Grows(s, r.store)
    ensures WellFormed(r.store)
    ensures NoSelfShare(s) ==> NoSelfShare(r.store)
    ensures r.result.Fail? ==> r.store == s
    ensures FetchCategory !in f ==>
      && (cat !in s.categories ==> r.result == Fail(CategoryNotFound))
      && (cat in s.categories && s.categories[cat].ownerId != caller ==> r.result == Fail(CategoryForbidden))
    ensures (FetchCategory !in f && FetchShare !in f && cat in s.categories && s.categories[cat].ownerId == caller
             && (cat, target) !in s.shares) ==> r.result == Fail(ShareNotFound)
    ensures r.result.Ok? ==>
      && cat in s.categories && s.categories[cat].ownerId == caller
      && (cat, target) in s.shares
      && r.store.shares == s.shares - {(cat, target)}
      && r.store.categories == s.categories && r.store.todos == s.todos && r.store.users == s.users
    ensures f == {} ==>
      (r.result.Ok? <==> cat in s.categories && s.categories[cat].ownerId == caller && (cat, target) in s.shares)
    ensures r.result.Fail? ==> r.result.error.Internal? || r.result.error in CategoryErrors
    ensures f == {} && r.result.Fail? ==> !r.result.error.Internal?
  {
    match OwnedCategory(s, f, cat, caller)
    case Fail(e) => Reply(s, Fail(e))
    case Ok(_) =>
      match ShareByPair(s, f, cat, target)
      case NoRows => Reply(s, Fail(ShareNotFound))
      case DbError => Reply(s, Fail(Internal("failed to fetch share")))
      case Found(_) =>
        match DropShare(s, f, cat, target)
        case None => Reply(s, Fail(Internal("failed to delete share")))
        case Some(s') => Reply(s', Ok(()))
  }

  /** UpdateSharePermission: owner only; only the permission of the pair's share changes, never its id, category or user. */
  function UpdateSharePermission(s: Store, f: Faults, cat: nat, caller: nat, target: nat, p: Permission): (r: Reply<()>)
    requires WellFormed(s)
    ensures Grows(s, r.store)
    ensures WellFormed(r.store)
    ensures NoSelfShare(s) ==> NoSelfShare(r.store)
    ensures r.result.Fail? ==> r.store == s
    ensures FetchCategory !in f ==>
      && (cat !in s.categories ==> r.result == Fail(CategoryNotFound))
      && (cat in s.categories && s.categories[cat].ownerId != caller ==> r.result == Fail(CategoryForbidden))
    ensures (FetchCategory !in f && FetchShare !in f && cat in s.categories && s.categories[cat].ownerId == caller
             && (cat, target) !in s.shares) ==> r.result == Fail(ShareNotFound)
    ensures r.result.Ok? ==>
      && cat in s.categories && s.categories[cat].ownerId == caller
      && (cat, target) in s.shares
      && (var sh := s.shares[(cat, target)];
          r.store.shares == s.shares[(cat, target) := Share(sh.id, sh.categoryId, sh.userId, p)])
      && r.store.categories == s.categories && r.store.todos == s.todos && r.store.users == s.users
    ensures f == {} ==>
      (r.result.Ok? <==> cat in s.categories && s.categories[cat].ownerId == caller && (cat, target) in s.shares)
    ensures r.result.Fail? ==> r.result.error.Internal? || r.result.error in CategoryErrors
    ensures f == {} && r.result.Fail? ==> !r.result.error.Internal?
  {
    match OwnedCategory(s, f, cat, caller)
    case Fail(e) => Reply(s, Fail(e))
    case Ok(_) =>
      match ShareByPair(s, f, cat, target)
      case NoRows => Reply(s, Fail(ShareNotFound))
      case DbError => Reply(s, Fail(Internal("failed to fetch share")))
      case Found(_) =>
        match SetSharePermission(s, f, cat, target, p)
        case None => Reply(s, Fail(Internal("failed to update share permission")))
        case Some(s') => Reply(s', Ok(()))
  }

  /** GetSharesForCategory: owner only; exactly the shares of that category. */
  function GetSharesForCategory(s: Store, f: Faults, cat: nat, user: nat): (r: Result<set<Share>, Err>)
    requires WellFormed(s)
    ensures FetchCategory !in f ==>
      && (cat !in s.categories ==> r == Fail(CategoryNotFound))
      && (cat in s.categories && s.categories[cat].ownerId != user ==> r == Fail(CategoryForbidden))
    ensures r.Ok? ==>
      && cat in s.categories && s.categories[cat].ownerId == user
      && (forall k :: k in s.shares && k.0 == cat ==> s.shares[k] in r.value)
      && (forall sh :: sh in r.value ==> sh.categoryId == cat && (cat, sh.userId) in s.shares && s.shares[(cat, sh.userId)] == sh)
    ensures f == {} ==> (r.Ok? <==> cat in s.categories && s.categories[cat].ownerId == user)
    ensures r.Fail? ==> r.error.Internal? || r.error in CategoryErrors
    ensures f == {} && r.Fail? ==> !r.error.Internal?
  {
    match OwnedCategory(s, f, cat, user)
    case Fail(e) => Fail(e)
    case Ok(_) =>
      match SharesOf(s, f, cat)
      case None => Fail(Internal("failed to fetch shares"))
      case Some(shares) => Ok(shares)
  }

  /**
   * GetUserPermissionForCategory: the user's level, where "no rows" becomes
   * `NoAccess`; the owner, and only the owner, gets `OwnerAccess` whatever
   * share rows exist.
   */
  function GetUserPermissionForCategory(s: Store, f: Faults, user: nat, cat: nat): (r: Result<Level, Err>)
    ensures FetchPermission in f ==> r == Fail(Internal("failed to fetch permission"))
    ensures FetchPermission !in f ==> r.Ok?
    ensures r.Ok? && cat !in s.categories ==> r.value == NoAccess
    ensures r.Ok? && cat in s.categories ==>
      && (r.value == OwnerAccess <==> s.categories[cat].ownerId == user)
      && (r.value == NoAccess <==> s.categories[cat].ownerId != user && (cat, user) !in s.shares)
      && (s.categories[cat].ownerId != user && (cat, user) in s.shares ==>
            r.value == LevelOf(s.shares[(cat, user)].permission))
  {
    match PermissionQuery(s, f, user, cat)
    case Found(l) => Ok(l)
    case NoRows => Ok(NoAccess)
    case DbError => Fail(Internal("failed to fetch permission"))
  }
}
