/**
 * The permission check every todo operation runs before touching a todo
 * (`checkCategoryPermission` of the todo service).
 */
module Access {
  import opened Wrappers
  import opened Models
  import opened Errors
  import opened Store

  /**
   * The decision table on a resolved level: the owner always passes; any
   * other user needs a share, and a write share when writing.
   */
  predicate Grants(l: Level, requireWrite: bool)
  {
    l == OwnerAccess || (l != NoAccess && (!requireWrite || l == WriteAccess))
  }

  /** A higher level grants whatever a lower one grants. */
  lemma GrantsMonotone(l: Level, l': Level, requireWrite: bool)
    requires Grants(l, requireWrite) && Rank(l) <= Rank(l')
    ensures Grants(l', requireWrite)
  {
  }

  /**
   * Looks the category up, lets its owner through without consulting shares,
   * and otherwise reads the user's permission: no share (an empty or "none"
   * permission) is `Forbidden`, a non-write permission on a write is
   * `NoWritePermission`. Repository errors are wrapped.
   */
  function CheckCategoryPermission(s: Store, f: Faults, user: nat, cat: nat, requireWrite: bool): (r: Result<(), Err>)
    ensures r.Ok? ==> cat in s.categories && Grants(EffectiveLevel(s, user, cat), requireWrite)
    ensures r.Fail? ==>
      || r.error == CategoryNotFound || r.error == Forbidden || r.error == NoWritePermission
      || r.error == Internal("failed to fetch category") || r.error == Internal("failed to check permission")
    ensures FetchCategory !in f && cat !in s.categories ==> r == Fail(CategoryNotFound)
    ensures FetchCategory !in f && cat in s.categories && s.categories[cat].ownerId == user ==> r == Ok(())
    ensures FetchCategory !in f && FetchPermission !in f && cat in s.categories ==>
      && (r.Ok? <==> Grants(EffectiveLevel(s, user, cat), requireWrite))
      && (EffectiveLevel(s, user, cat) == NoAccess ==> r == Fail(Forbidden))
      && (EffectiveLevel(s, user, cat) == ReadAccess && requireWrite ==> r == Fail(NoWritePermission))
  {
    match CategoryById(s, f, cat)
    case DbError => Fail(Internal("failed to fetch category"))
    case NoRows => Fail(CategoryNotFound)
    case Found(c) =>
      if c.ownerId == user then Ok(())
      else
        var p := PermissionQuery(s, f, user, cat);
        if p.DbError? then Fail(Internal("failed to check permission"))
        else
          // sql.ErrNoRows leaves the permission string empty, which counts as "none"
          var level := if p.Found? then p.value else NoAccess;
          if level == NoAccess then Fail(Forbidden)
          else if requireWrite && level != WriteAccess then Fail(NoWritePermission)
          else Ok(())
  }

  /** A write check passing implies the read check passes too. */
  lemma WriteImpliesRead(s: Store, f: Faults, user: nat, cat: nat)
    requires CheckCategoryPermission(s, f, user, cat, true).Ok?
    ensures CheckCategoryPermission(s, f, user, cat, false).Ok?
  {
  }
}
