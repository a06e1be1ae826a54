/** Backend account records: the User and UserSession rows the login and
    registration routes read and write, with the defaults the schema gives a
    new row. Times are milliseconds since the epoch. */
module Accounts {
  import opened Common

  /** The roles of the schema's role enumeration. */
  const UserRole: string := "user"
  const AdminRole: string := "admin"
  const SuperAdminRole: string := "superadmin"

  /** A User row, restricted to the columns the routes and middleware use.
      `passwordHash` is whatever the hashing hook stored; `loginAttempts`
      may be null in the database. */
  datatype User = User(
    id: string, email: string, username: string, passwordHash: string,
    firstName: Option<string>, lastName: Option<string>,
    role: string, isActive: bool, isEmailVerified: bool,
    emailVerificationToken: Option<string>,
    lastLogin: Option<int>, lastLoginIp: Option<string>,
    loginAttempts: Option<int>, lockoutUntil: Option<int>)

  /** A UserSession row. */
  datatype Session = Session(userId: string, sessionToken: string, ipAddress: string,
                             userAgent: string, expiresAt: int, isActive: bool)

  /** A row created from the given columns, every other column at its
      schema default (role "user", active, unverified, no attempts). */
  function NewUser(id: string, email: string, username: string, passwordHash: string,
                   firstName: Option<string>, lastName: Option<string>, verificationToken: string): User
  {
    User(id, email, username, passwordHash, firstName, lastName, UserRole, true, false,
         Some(verificationToken), None, None, Some(0), None)
  }

  /** A session row as created, active by default. */
  function NewSession(userId: string, token: string, ip: string, userAgent: string, expiresAt: int): Session {
    Session(userId, token, ip, userAgent, expiresAt, true)
  }
}
