/** Error kinds and failure-carrying results shared by the access-list engine
    and the bot-instance service. Go's `trace` wrappers keep the kind of the
    error they wrap, so wrapping is the identity here. */
module Outcomes {

  datatype Option<+T> = None | Some(value: T)

  /** Why an assignment check refused an entry. */
  datatype Denial = RequirementsNotMet | MembershipExpired

  /** The error kinds the core produces or propagates. `UserLocked` is the
      `userLockedError` of hierarchy.go: it wraps an access-denied error, so it
      is matched by both `IsAccessDenied` and `IsUserLocked`. */
  datatype Error =
    | AccessDenied(reason: Denial)
    | UserLocked(user: string)
    | NotFound
    | CompareFailed
    | BadParameter(field: string)
    | Other(code: nat)

  datatype Result<+T> = Ok(value: T) | Err(error: Error)

  /** `errors.As(err, &userLockedError{})`: only the locked variant matches. */
  predicate IsUserLocked(err: Option<Error>) {
    err.Some? && err.value.UserLocked?
  }

  /** `trace.IsAccessDenied`: the locked variant unwraps to access denied. */
  predicate IsAccessDenied(err: Option<Error>) {
    err.Some? && (err.value.AccessDenied? || err.value.UserLocked?)
  }

  /** A locked error is a distinguishable variant of access denied: every
      locked error is access denied, and no ordinary denial is locked. */
  lemma LockedIsDistinguishedDenial(err: Option<Error>)
    ensures IsUserLocked(err) ==> IsAccessDenied(err)
    ensures err.Some? && err.value.AccessDenied? ==> IsAccessDenied(err) && !IsUserLocked(err)
  {
  }
}
