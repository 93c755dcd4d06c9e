/** Failure values of the service layer.  Each Java exception the services
    throw becomes a constructor of `Error`; a call either returns a value or
    fails with one of them. */
module Results {

  datatype Option<+T> = None | Some(value: T)

  /** The table an id was looked up in, as named in the not-found messages. */
  datatype Entity = UserEntity | PropertyEntity | TenantEntity

  datatype Error =
    /** ResourceNotFoundException: no row of `entity` has `id`. */
    | NotFound(entity: Entity, id: nat)
    /** ResourceAlreadyExistsException: a user with `email` is registered. */
    | AlreadyExists(email: string)
    /** The authentication manager rejected the email/password pair. */
    | AuthenticationFailed
    /** Bean Validation rejected the entity on save; the messages that failed. */
    | ValidationFailed(violations: set<string>)
    /** The RuntimeException "User not found" that login throws. */
    | UserNotFound

  datatype Result<+T> = Success(value: T) | Failure(error: Error)
}
