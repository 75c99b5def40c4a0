/**
 What every create action shares: the pages it can invalidate or redirect to,
 the collaborator calls it makes (recorded in order), the exception an insert
 may throw, and the result it hands back.

 The framework's path helpers are modelled as the constructors of `Path`, so two
 paths are equal exactly when they were built from the same arguments.
 */
module Actions {
  import opened Forum
  import opened Validation

  /** `"/"`, `paths.showTopic(slug)` and `paths.showPost(slug, postId)`. */
  datatype Path = Root | TopicPage(slug: string) | PostPage(slug: string, postId: Id)

  /** A call into a collaborator, in the order the action makes it. */
  datatype Call =
    | ReadSession             // `auth()`
    | LookupTopic             // a `prisma.topic.findFirst`
    | InsertTopic             // `prisma.topic.create`
    | InsertPost              // `prisma.post.create`
    | InsertComment           // `prisma.comment.create`
    | Revalidate(path: Path)  // `revalidatePath(path)`

  /** What an insert throws: an `Error` (with its message) or any other value. */
  datatype Thrown = ErrorInstance(message: string) | NonError

  /** Whether the store accepts the insert. */
  datatype InsertFault = Accepts | Throws(thrown: Thrown)

  /** How the action ends: field errors, one `_form` error list, a redirect, or `success: true`. */
  datatype Outcome =
    | Rejected(fieldErrors: FieldErrors)
    | FormError(messages: seq<string>)
    | Redirected(to: Path)
    | Succeeded

  datatype ActionResult = ActionResult(store: Store, outcome: Outcome, calls: seq<Call>)

  /** The `_form` message a caught insert exception becomes: its message if it is an `Error`. */
  function CaughtMessage(thrown: Thrown, fallback: string): (m: string)
    ensures thrown.ErrorInstance? ==> m == thrown.message
    ensures thrown.NonError? ==> m == fallback
  {
    match thrown
    case ErrorInstance(message) => message
    case NonError => fallback
  }
}
