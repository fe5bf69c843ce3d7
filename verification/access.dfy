/** The authenticated caller of a request. */
module Access {
  import opened Snapshots

  datatype Role = Admin | PkiOperator | ServiceOwner | SecurityReviewer | Auditor

  datatype Actor = Actor(userId: Id, role: Role, team: string)
}
