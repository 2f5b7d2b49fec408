/** The user entity and its role, shared by the request records and the user service. */
module UserModel {

  /** UserRole: the closed set of roles a user can be registered with. */
  datatype Role = ADMIN | USER

  /**
   * A registered user as the user table stores it. `password` holds the
   * encoder's digest, never the raw password. The table's generated id is not
   * modelled: the store is keyed by username.
   */
  datatype User = User(username: string, password: string, role: Role)
}
