/** The record types shared by the dashboard, the add-bookmark form and the list.
    The row shape follows the columns the components read and write
    (`id`, `user_id`, `title`, `url`, `created_at`). */
module Records {

  datatype Option<+T> = None | Some(value: T) {
    /** TypeScript's `x || d`: the value if present, otherwise the default. */
    function GetOr(default: T): T {
      match this
      case Some(v) => v
      case None => default
    }
  }

  /** Row identifiers are opaque strings assigned by the backing store. */
  type Id = string

  datatype Bookmark = Bookmark(id: Id, userId: string, title: string, url: string, createdAt: string)

  datatype User = User(id: string)

  /** What awaiting `supabase.auth.getUser()` produces: the promise rejects,
      or it resolves with no user, or with the signed-in user. */
  datatype AuthReply = AuthThrew | NoSession | Session(user: User)
}
