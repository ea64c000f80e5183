/** The member lifecycle states of the database schema (prisma/schema.prisma). */
module Membership {

  datatype Status =
    | DRAFT | PAYMENT_COLLECTED | AWAITING_PAYMENT | SUBMITTED | VERIFIED | APPROVED
    | ACTIVE | REJECTED | SUSPENDED | EXPIRED | RENEWED | DECEASED

  /** Staff may correct a member in any other state. */
  predicate Editable(status: Status) { status != REJECTED && status != DECEASED && status != VERIFIED }

  /** Members in these states can neither refer others nor sign in. */
  predicate Blocked(status: Status) { status == SUSPENDED || status == DECEASED || status == REJECTED }
}
