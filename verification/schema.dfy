/**
 * The rows of the remote tables `user_profiles`, `articles`, `comments` and
 * `reactions`, and the user record handed over by Telegram at launch.
 *
 * Timestamps are opaque ordered values (`int`); identifiers the service
 * generates are natural numbers drawn from one counter.
 */
module Schema {
  import opened Common

  datatype Role = User | Editor | Admin

  /** `role ?? 'user'`: a profile whose role column is empty counts as a plain user. */
  function EffectiveRole(r: Option<Role>): Role
  {
    if r.Some? then r.value else User
  }

  datatype UserProfile = UserProfile(
    id: int,
    username: string,
    firstName: string,
    lastName: string,
    photoUrl: Option<string>,
    role: Option<Role>,
    createdAt: int)

  /** The role every role check in the views compares against. */
  function RoleOf(p: UserProfile): Role
  {
    EffectiveRole(p.role)
  }

  datatype Article = Article(
    id: nat,
    title: string,
    content: string,
    authorId: int,
    isPublished: bool,
    viewsCount: nat,
    createdAt: int,
    updatedAt: int,
    savedBy: Option<seq<int>>)  // a column the article list reads when it is present

  datatype Comment = Comment(
    id: nat,
    articleId: nat,
    authorId: int,
    content: string,
    createdAt: int)

  datatype Reaction = Reaction(
    id: nat,
    articleId: nat,
    userId: int,
    emoji: string)

  /** The user part of Telegram's launch data: every display field may be missing. */
  datatype TelegramUser = TelegramUser(
    id: int,
    username: Option<string>,
    firstName: Option<string>,
    lastName: Option<string>,
    photoUrl: Option<string>)
}
