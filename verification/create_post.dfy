/**
 The `createPost` server action: validate `title` and `content`, require a
 signed-in session, look the topic up by the URL's slug, insert the post under
 that topic, invalidate the topic page and redirect to the new post's page.
 */
module CreatePost {
  import opened Forum
  import opened Validation
  import opened Actions

  const SignInMessage := "You must be signed in to do this"
  const NoTopicMessage := "Cannot find topic"
  const FallbackMessage := "Failed to create post"

  /** A title the schema accepts: at least three characters long. */
  predicate IsPostTitle(t: string)
  {
    Utf16Length(t) >= 3
  }

  /** Post content the schema accepts: at least ten characters long. */
  predicate IsPostContent(c: string)
  {
    Utf16Length(c) >= 10
  }

  predicate PostFieldsValid(title: Option<string>, content: Option<string>)
  {
    title.Some? && IsPostTitle(title.value) && content.Some? && IsPostContent(content.value)
  }

  /** `createPostSchema.safeParse(...)`, flattened to field errors on failure. */
  function ValidatePost(title: Option<string>, content: Option<string>): (r: Validated<(string, string)>)
    ensures r.Valid? <==> PostFieldsValid(title, content)
    ensures r.Valid? ==> r.data == (title.value, content.value)
    ensures r.Invalid? ==> NonEmptyLists(r.errors) && r.errors.Keys <= {Title, Content}
    ensures r.Invalid? ==> (Title in r.errors <==> !(title.Some? && IsPostTitle(title.value)))
    ensures r.Invalid? ==> (Content in r.errors <==> !(content.Some? && IsPostContent(content.value)))
  {
    var titleIssues := StringIssues(title, 3);
    var contentIssues := StringIssues(content, 10);
    if titleIssues == [] && contentIssues == [] then
      Valid((title.value, content.value))
    else
      Invalid(AddIssues(AddIssues(map[], Title, titleIssues), Content, contentIssues))
  }

  /** The action for the topic page `slug`, given the store, the session's user id (if signed
      in), the two submitted fields, the id the store would give the new row, and whether the
      insert throws. */
  function CreatePost(s: Store, slug: string, session: Option<UserId>, title: Option<string>,
                      content: Option<string>, newId: Id, fault: InsertFault): (r: ActionResult)
    // invalid fields: field errors for exactly the failing fields, nothing else happens
    ensures !PostFieldsValid(title, content) ==>
      && r.outcome.Rejected? && r.store == s && r.calls == []
      && NonEmptyLists(r.outcome.fieldErrors)
      && (Title in r.outcome.fieldErrors <==> !(title.Some? && IsPostTitle(title.value)))
      && (Content in r.outcome.fieldErrors <==> !(content.Some? && IsPostContent(content.value)))
      && r.outcome.fieldErrors.Keys <= {Title, Content}
    // signed out: the sign-in error, the store is untouched
    ensures PostFieldsValid(title, content) && session.None? ==>
      r == ActionResult(s, FormError([SignInMessage]), [ReadSession])
    // no topic has the slug: the lookup ends the action before any insert
    ensures PostFieldsValid(title, content) && session.Some? && !HasSlug(s.topics, slug) ==>
      r == ActionResult(s, FormError([NoTopicMessage]), [ReadSession, LookupTopic])
    // insert throws: one `_form` message, no post, no invalidation, no redirect
    ensures PostFieldsValid(title, content) && session.Some? && HasSlug(s.topics, slug) && fault.Throws? ==>
      r == ActionResult(s, FormError([CaughtMessage(fault.thrown, FallbackMessage)]),
                        [ReadSession, LookupTopic, InsertPost])
    // success: one post by the session user under the first topic with that slug; nothing else changes
    ensures PostFieldsValid(title, content) && session.Some? && HasSlug(s.topics, slug) && fault.Accepts? ==>
      && r.store.topics == s.topics && r.store.comments == s.comments
      && |r.store.posts| == |s.posts| + 1 && r.store.posts[..|s.posts|] == s.posts
      && var p := r.store.posts[|s.posts|];
         && p.id == newId && p.title == title.value && p.content == content.value
         && p.userId == session.value
         && (exists t | t in s.topics :: t.slug == slug && t.id == p.topicId)
         && FindTopicBySlug(s.topics, slug).Some? && p.topicId == FindTopicBySlug(s.topics, slug).value.id
         && r.outcome == Redirected(PostPage(slug, newId))
         && r.calls == [ReadSession, LookupTopic, InsertPost, Revalidate(TopicPage(slug))]
    ensures r.store != s <==> r.outcome.Redirected?
  {
    match ValidatePost(title, content)
    case Invalid(errors) => ActionResult(s, Rejected(errors), [])
    case Valid((t, c)) =>
      match session
      case None => ActionResult(s, FormError([SignInMessage]), [ReadSession])
      case Some(user) =>
        match FindTopicBySlug(s.topics, slug)
        case None => ActionResult(s, FormError([NoTopicMessage]), [ReadSession, LookupTopic])
        case Some(topic) =>
          match fault
          case Throws(thrown) =>
            ActionResult(s, FormError([CaughtMessage(thrown, FallbackMessage)]),
                         [ReadSession, LookupTopic, InsertPost])
          case Accepts =>
            var post := Post(newId, t, c, user, topic.id);
            ActionResult(s.(posts := s.posts + [post]), Redirected(PostPage(slug, post.id)),
                         [ReadSession, LookupTopic, InsertPost, Revalidate(TopicPage(slug))])
  }

  /** The topic lookup precedes the insert: with no topic for the slug, whether the insert
      would throw is irrelevant. */
  lemma LookupPrecedesInsert(s: Store, slug: string, session: Option<UserId>,
                             title: Option<string>, content: Option<string>,
                             id1: Id, id2: Id, fault1: InsertFault, fault2: InsertFault)
    requires !HasSlug(s.topics, slug)
    ensures CreatePost(s, slug, session, title, content, id1, fault1)
         == CreatePost(s, slug, session, title, content, id2, fault2)
    ensures InsertPost !in CreatePost(s, slug, session, title, content, id1, fault1).calls
  {
  }

  /** In a store with unique slugs, the new post lands under the one topic carrying the slug. */
  lemma PostGoesUnderTheSlugsTopic(s: Store, slug: string, session: Option<UserId>,
                                   title: Option<string>, content: Option<string>,
                                   newId: Id, fault: InsertFault, topic: Topic)
    requires UniqueKeys(s)
    requires topic in s.topics && topic.slug == slug
    requires PostFieldsValid(title, content) && session.Some? && fault.Accepts?
    ensures CreatePost(s, slug, session, title, content, newId, fault).store.posts
         == s.posts + [Post(newId, title.value, content.value, session.value, topic.id)]
  {
  }

  /** A post insert the store accepts keeps it well formed. The post's topic always exists,
      because it was just found; only the fresh id is assumed of the store. */
  lemma CreatePostKeepsStoreWellFormed(s: Store, slug: string, session: Option<UserId>,
                                       title: Option<string>, content: Option<string>,
                                       newId: Id, fault: InsertFault)
    requires WellFormed(s)
    requires fault.Accepts? ==> !HasPostId(s.posts, newId)
    ensures WellFormed(CreatePost(s, slug, session, title, content, newId, fault).store)
  {
  }
}
