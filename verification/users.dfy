/** The users table. */
module Users {
  import opened Wrappers

  datatype Role = USER | ADMIN

  /**
   * A row of users. The e-mail column is NOT NULL, but an entity built in memory may
   * lack one, which the masking helpers of Board and Comment check for, hence Option.
   */
  datatype User = User(userNo: int, nickname: string, email: Option<string>, password: string,
                       userRole: Role, isActive: bool, createdAt: Timestamp, updatedAt: Timestamp)
}
