/** The failure kinds the server functions surface to their callers. */
module Errors {

  datatype Error =
    | NotFound            // notFound(): no project with that key, or the user is not a member
    | Unauthorized        // the caller's membership role is not "admin"
    | UserNotFound        // no user has the given email address
    | AlreadyMember       // the target user already has a membership row in the project
    | CannotRemoveSelf    // an admin tried to remove their own membership
    | ConstraintViolation // the database refused a write (primary key, unique index, foreign key)
}
