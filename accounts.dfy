/** Rows of the relational users table, as the handlers read them. The table itself is an
    external collaborator: each handler receives the row its query returned. */
module Accounts {

  /** The auth_provider column: a password account or a Google account. */
  datatype Provider = EmailProvider | GoogleProvider

  /** A users row; `verified` is the user_verified flag, whatever its stored spelling. */
  datatype User = User(userId: string, fullName: string, email: string, provider: Provider, verified: bool)
}
