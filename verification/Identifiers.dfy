/** Projects, or groups, and users, as every agent names them. */
module Identifiers {
  datatype Identifier = Identifier(project: string, portal: string)

  /** A user, by username and project. */
  datatype User = User(username: string, project: Identifier)
}
