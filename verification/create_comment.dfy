/**
 The `createComment` server action: validate `content`, require a signed-in
 session, insert the comment on `postId` (replying to `parentId`, if given),
 then look up the post's topic to invalidate the post page and report success.

 The topic lookup runs after the insert. When it finds nothing the action
 reports a form error, yet the comment is already stored.
 */
module CreateComment {
  import opened Forum
  import opened Validation
  import opened Actions

  const SignInMessage := "You must sign in to do this."
  const FallbackMessage := "Something went wrong..."
  const NoTopicMessage := "Failed to revalidate topic"

  /** Comment content the schema accepts: at least three characters long. */
  predicate IsCommentContent(c: string)
  {
    Utf16Length(c) >= 3
  }

  /** Some topic of the store holds a post with id `postId`. */
  predicate PostHasTopic(s: Store, postId: Id)
  {
    exists t | t in s.topics :: TopicHasPost(s.posts, t.id, postId)
  }

  /** `createCommentSchema.safeParse(...)`, flattened to field errors on failure. */
  function ValidateComment(content: Option<string>): (r: Validated<string>)
    ensures r.Valid? <==> content.Some? && IsCommentContent(content.value)
    ensures r.Valid? ==> r.data == content.value
    ensures r.Invalid? ==> NonEmptyLists(r.errors) && r.errors.Keys == {Content}
  {
    var issues := StringIssues(content, 3);
    if issues == [] then Valid(content.value) else Invalid(map[Content := issues])
  }

  /** The action for the post `postId` (optionally replying to `parentId`), given the store,
      the session's user id (if signed in), the submitted content, the id the store would
      give the new row, and whether the insert throws. */
  function CreateComment(s: Store, postId: Id, parentId: Option<Id>, session: Option<UserId>,
                         content: Option<string>, newId: Id, fault: InsertFault): (r: ActionResult)
    // invalid content: a `content` field error only, nothing else happens
    ensures !(content.Some? && IsCommentContent(content.value)) ==>
      && r.outcome.Rejected? && r.store == s && r.calls == []
      && NonEmptyLists(r.outcome.fieldErrors) && r.outcome.fieldErrors.Keys == {Content}
    // signed out: the sign-in error, no comment
    ensures content.Some? && IsCommentContent(content.value) && session.None? ==>
      r == ActionResult(s, FormError([SignInMessage]), [ReadSession])
    // insert throws: one `_form` message, no comment, and the topic lookup never runs
    ensures content.Some? && IsCommentContent(content.value) && session.Some? && fault.Throws? ==>
      r == ActionResult(s, FormError([CaughtMessage(fault.thrown, FallbackMessage)]),
                        [ReadSession, InsertComment])
    // insert accepted: exactly one comment appended, carrying the given ids and the session user
    ensures content.Some? && IsCommentContent(content.value) && session.Some? && fault.Accepts? ==>
      && r.store.topics == s.topics && r.store.posts == s.posts
      && r.store.comments == s.comments + [Comment(newId, content.value, postId, parentId, session.value)]
      && |r.calls| >= 3 && r.calls[..3] == [ReadSession, InsertComment, LookupTopic]
    // ... and no topic holds the post: a form error, although the comment stays stored
    ensures content.Some? && IsCommentContent(content.value) && session.Some? && fault.Accepts?
            && !PostHasTopic(s, postId) ==>
      r.outcome == FormError([NoTopicMessage]) && r.calls == [ReadSession, InsertComment, LookupTopic]
    // ... and a topic holds the post: that topic's post page is invalidated and the action succeeds
    ensures content.Some? && IsCommentContent(content.value) && session.Some? && fault.Accepts?
            && PostHasTopic(s, postId) ==>
      && r.outcome == Succeeded
      && exists t | t in s.topics && TopicHasPost(s.posts, t.id, postId) ::
           r.calls == [ReadSession, InsertComment, LookupTopic, Revalidate(PostPage(t.slug, postId))]
    // the topic lookup runs exactly when a comment has been stored
    ensures r.store != s <==> LookupTopic in r.calls
  {
    match ValidateComment(content)
    case Invalid(errors) => ActionResult(s, Rejected(errors), [])
    case Valid(c) =>
      match session
      case None => ActionResult(s, FormError([SignInMessage]), [ReadSession])
      case Some(user) =>
        match fault
        case Throws(thrown) =>
          ActionResult(s, FormError([CaughtMessage(thrown, FallbackMessage)]), [ReadSession, InsertComment])
        case Accepts =>
          var s' := s.(comments := s.comments + [Comment(newId, c, postId, parentId, user)]);
          match FindTopicOfPost(s', postId)
          case None =>
            ActionResult(s', FormError([NoTopicMessage]), [ReadSession, InsertComment, LookupTopic])
          case Some(topic) =>
            ActionResult(s', Succeeded,
                         [ReadSession, InsertComment, LookupTopic, Revalidate(PostPage(topic.slug, postId))])
  }

  /** The partial-success error needs a post that no topic holds: in a well-formed store where
      the post exists, an accepted comment always ends in success. */
  lemma RevalidationFailureNeedsDanglingPost(s: Store, postId: Id, parentId: Option<Id>,
                                             session: Option<UserId>, content: Option<string>, newId: Id)
    requires WellFormed(s)
    requires HasPostId(s.posts, postId)
    requires content.Some? && IsCommentContent(content.value) && session.Some?
    ensures CreateComment(s, postId, parentId, session, content, newId, Accepts).outcome == Succeeded
  {
  }

  /** In a well-formed store, an accepted comment on an existing post invalidates the page of
      that post under its own topic's slug. */
  lemma CommentRevalidatesItsPostPage(s: Store, p: Post, t: Topic, parentId: Option<Id>,
                                      session: Option<UserId>, content: Option<string>, newId: Id)
    requires WellFormed(s)
    requires p in s.posts && t in s.topics && t.id == p.topicId
    requires content.Some? && IsCommentContent(content.value) && session.Some?
    ensures CreateComment(s, p.id, parentId, session, content, newId, Accepts).calls
         == [ReadSession, InsertComment, LookupTopic, Revalidate(PostPage(t.slug, p.id))]
  {
  }

  /** The reply's parent is not checked against the post: in a well-formed store, a reply to
      a comment of another post succeeds, the store stays well formed, and the stored reply's
      parent sits on a different post than the reply itself. */
  lemma ParentMayBelongToAnotherPost(s: Store, postId: Id, parent: Comment, session: Option<UserId>,
                                     content: Option<string>, newId: Id)
    requires WellFormed(s)
    requires HasPostId(s.posts, postId) && !HasCommentId(s.comments, newId)
    requires parent in s.comments && parent.postId != postId
    requires content.Some? && IsCommentContent(content.value) && session.Some?
    ensures
      var r := CreateComment(s, postId, Some(parent.id), session, content, newId, Accepts);
      && r.outcome == Succeeded
      && WellFormed(r.store)
      && var reply := r.store.comments[|s.comments|];
         reply.parentId == Some(parent.id) && reply.postId != parent.postId
  {
    RevalidationFailureNeedsDanglingPost(s, postId, Some(parent.id), session, content, newId);
    CreateCommentKeepsStoreWellFormed(s, postId, Some(parent.id), session, content, newId, Accepts);
  }

  /** Signed out, the outcome is the same whatever the insert would have done. */
  lemma SessionPrecedesInsert(s: Store, postId: Id, parentId: Option<Id>, content: Option<string>,
                              id1: Id, id2: Id, fault1: InsertFault, fault2: InsertFault)
    ensures CreateComment(s, postId, parentId, None, content, id1, fault1)
         == CreateComment(s, postId, parentId, None, content, id2, fault2)
  {
  }

  /** Appending a comment with a fresh id, an existing post and an existing parent keeps a
      store well formed. */
  lemma AppendCommentKeepsStoreWellFormed(s: Store, c: Comment)
    requires WellFormed(s)
    requires !HasCommentId(s.comments, c.id) && HasPostId(s.posts, c.postId)
    requires c.parentId.Some? ==> HasCommentId(s.comments, c.parentId.value)
    ensures WellFormed(s.(comments := s.comments + [c]))
  {
  }

  /** A comment insert the store accepts keeps it well formed. The foreign keys and the
      fresh id are what the database enforces; they are assumed of an accepted insert. */
  lemma CreateCommentKeepsStoreWellFormed(s: Store, postId: Id, parentId: Option<Id>,
                                          session: Option<UserId>, content: Option<string>,
                                          newId: Id, fault: InsertFault)
    requires WellFormed(s)
    requires fault.Accepts? ==> !HasCommentId(s.comments, newId) && HasPostId(s.posts, postId)
    requires fault.Accepts? && parentId.Some? ==> HasCommentId(s.comments, parentId.value)
    ensures WellFormed(CreateComment(s, postId, parentId, session, content, newId, fault).store)
  {
    if content.Some? && IsCommentContent(content.value) && session.Some? && fault.Accepts? {
      AppendCommentKeepsStoreWellFormed(s, Comment(newId, content.value, postId, parentId, session.value));
    }
  }
}
