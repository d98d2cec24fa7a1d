/**
 * The request-side checks of the category handler: the category name
 * validator shared by create and rename, the read/write restriction on share
 * bodies, and the mapping of service errors to HTTP statuses.
 */
module CategoryHandler {
  import opened Wrappers
  import opened Text
  import opened Models
  import opened Errors
  import HttpStatus

  const MaxName: nat := 255

  const BindingFailed := "Validation failed"
  const NameBlank := "name cannot be empty or whitespace only"

  /**
   * CreateCategoryInput.Validate and UpdateCategoryInput.Validate (the two
   * are identical): the name trimmed, rejected when nothing is left.
   */
  function ValidateName(name: string): (r: Result<string, string>)
    ensures r.Ok? <==> !AllSpace(name)
    ensures r.Fail? ==> r.error == NameBlank
    ensures r.Ok? ==> r.value == TrimSpace(name) && r.value != [] && Trimmed(r.value)
  {
    TrimSpaceEmptyIff(name);
    var n := TrimSpace(name);
    if n == [] then Fail(NameBlank) else Ok(n)
  }

  /** A name with no spaces at its ends is accepted as it is, so validating a validated name changes nothing. */
  lemma ValidateNameKeepsTrimmed(name: string)
    requires Trimmed(name) && name != []
    ensures ValidateName(name) == Ok(name)
    ensures ValidateName(ValidateName(name).value) == ValidateName(name)
  {
    AcceptsTrimmed(name);
  }

  /** A trimmed non-empty name passes the validator unchanged. */
  lemma AcceptsTrimmed(name: string)
    requires Trimmed(name) && name != []
    ensures ValidateName(name) == Ok(name)
  {
    TrimSpaceOfTrimmed(name);
    assert !IsSpace(name[0]);
  }

  /** The name field as the handler passes it on: 1 to 255 characters, then Validate; both failures are a 400. */
  function AcceptName(name: string): (r: Result<string, string>)
    ensures !(1 <= |name| <= MaxName) ==> r == Fail(BindingFailed)
    ensures 1 <= |name| <= MaxName ==> r == ValidateName(name)
    ensures r.Ok? ==> 1 <= |r.value| <= MaxName && Trimmed(r.value)
  {
    if !(1 <= |name| <= MaxName) then Fail(BindingFailed)
    else ValidateName(name)
  }

  /**
   * The permission field of the share and permission-update bodies: only
   * "read" and "write" bind; "owner", "none" and anything else is a 400.
   */
  function BindPermission(text: string): (r: Result<Permission, string>)
    ensures r.Ok? <==> IsValid(text)
    ensures r.Ok? ==> PermissionText(r.value) == text
    ensures r.Fail? ==> r.error == BindingFailed
  {
    match ParsePermission(text)
    case Some(p) => Ok(p)
    case None => Fail(BindingFailed)
  }

  /** The derived levels never bind as a share permission. */
  lemma DerivedLevelsRejected()
    ensures BindPermission("owner").Fail? && BindPermission("none").Fail? && BindPermission("").Fail?
    ensures forall p: Permission :: BindPermission(PermissionText(p)) == Ok(p)
  {
    forall p: Permission
      ensures BindPermission(PermissionText(p)) == Ok(p)
    {
      ParsePermissionRoundTrip(p);
    }
  }

  /** The share body: a required email and a read/write permission. */
  function BindShare(email: string, permission: string): (r: Result<(string, Permission), string>)
    ensures r.Ok? <==> email != [] && IsValid(permission)
    ensures r.Ok? ==> r.value.0 == email && PermissionText(r.value.1) == permission
  {
    if email == [] then Fail(BindingFailed)
    else
      match BindPermission(permission)
      case Ok(p) => Ok((email, p))
      case Fail(e) => Fail(e)
  }

  /**
   * handleCategoryError: no response for a nil error; a timed-out request
   * answers 408 whatever the error; then not-found kinds 404, forbidden 403,
   * duplicates 409, a self-share 400, and everything else 500.
   */
  function HandleCategoryError(timedOut: bool, err: Option<Err>): (code: Option<nat>)
    ensures code.None? <==> err.None?
    ensures err.Some? && timedOut ==> code == Some(HttpStatus.RequestTimeout)
    ensures err.Some? && !timedOut ==>
      && (code.value == HttpStatus.NotFound <==> err.value in {CategoryNotFound, UserNotFound, ShareNotFound})
      && (code.value == HttpStatus.Forbidden <==> err.value == CategoryForbidden)
      && (code.value == HttpStatus.Conflict <==> err.value in {CategoryNameExists, ShareAlreadyExists})
      && (code.value == HttpStatus.BadRequest <==> err.value == CannotShareWithSelf)
      && (code.value == HttpStatus.InternalServerError <==> err.value !in CategoryErrors)
      && (HttpStatus.ClientError(code.value) <==> err.value in CategoryErrors)
  {
    if err.None? then None
    else if timedOut then Some(HttpStatus.RequestTimeout)
    else
      match err.value
      case CategoryNotFound => Some(HttpStatus.NotFound)
      case CategoryForbidden => Some(HttpStatus.Forbidden)
      case CategoryNameExists => Some(HttpStatus.Conflict)
      case UserNotFound => Some(HttpStatus.NotFound)
      case CannotShareWithSelf => Some(HttpStatus.BadRequest)
      case ShareAlreadyExists => Some(HttpStatus.Conflict)
      case ShareNotFound => Some(HttpStatus.NotFound)
      case _ => Some(HttpStatus.InternalServerError)
  }
}
