/**
 * The error a controller answers with: an HTTP status and a message.  An
 * exception without a status of its own (a schema validation failure, a
 * TypeError) is answered with 500.
 */
module Api {
  datatype ApiError = ApiError(status: int, message: string)

  const InternalError: int := 500

  /** The refusal every group-scoped handler gives a caller outside the group. */
  const NotGroupMember: ApiError := ApiError(403, "You are not a member of this group")
}
