/**
  The user table that both the credential authorizer (`prisma.user.findFirst`) and the
  signup handler (`prisma.user.findUnique`, `prisma.user.create`) work on: rows keyed by
  their email, each with an integer id.
 */
module Users {

  datatype User = User(id: nat, email: string, name: string, number: string)

  /** Each row sits under its own email. */
  predicate KeyedByEmail(users: map<string, User>) {
    forall e :: e in users ==> users[e].email == e
  }

  /** No two rows share an email. */
  predicate UniqueEmails(users: map<string, User>) {
    forall a, b :: a in users && b in users && a != b ==> users[a].email != users[b].email
  }

  /** No two rows share an id. */
  predicate UniqueIds(users: map<string, User>) {
    forall a, b :: a in users && b in users && a != b ==> users[a].id != users[b].id
  }

  /** Every id already handed out lies below the next one the table will assign. */
  predicate IdsBelow(users: map<string, User>, nextId: nat) {
    forall e :: e in users ==> users[e].id < nextId
  }

  predicate WellFormed(users: map<string, User>, nextId: nat) {
    KeyedByEmail(users) && UniqueIds(users) && IdsBelow(users, nextId)
  }

  /** A table keyed by email holds at most one user per email. */
  lemma WellFormedEmailsUnique(users: map<string, User>, nextId: nat)
    requires WellFormed(users, nextId)
    ensures UniqueEmails(users)
  {
  }
}
