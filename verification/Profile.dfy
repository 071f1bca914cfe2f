/** The profile row every component passes around (internal/db/sqlc/models.go). */
module ProfileRow {
  import opened Basics

  datatype Role = ADMIN | USER

  datatype Profile = Profile(
    id: int,
    createdAt: int,
    updatedAt: int,
    oidcSub: string,
    roles: seq<Role>,
    avatarUrl: Option<string>,
    displayName: Option<string>,
    bio: Option<string>)
}
