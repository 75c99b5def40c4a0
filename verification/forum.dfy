/**
 The forum's persisted data, as the create actions see it: topics, posts and
 comments held as rows of a store, plus the two `findFirst` lookups the actions
 issue and the referential integrity the database schema keeps.

 Rows are kept in insertion order; an insert appends. `findFirst` without an
 ordering is modelled as "the first matching row in store order".
 */
module Forum {

  datatype Option<+T> = None | Some(value: T)

  /** Row ids are database-generated strings; user ids come from the session. */
  type Id = string
  type UserId = string

  /** A topic: its `slug` is both its display name and its URL identifier. */
  datatype Topic = Topic(id: Id, slug: string, description: string)

  /** A post belongs to one topic and one author. */
  datatype Post = Post(id: Id, title: string, content: string, userId: UserId, topicId: Id)

  /** A comment belongs to one post and one author, and may reply to another comment. */
  datatype Comment = Comment(id: Id, content: string, postId: Id, parentId: Option<Id>, userId: UserId)

  datatype Store = Store(topics: seq<Topic>, posts: seq<Post>, comments: seq<Comment>)

  /** Position of the first element of `xs` that satisfies `p`, or `|xs|` when none does. */
  function FirstIndex<T>(xs: seq<T>, p: T -> bool): (k: nat)
    ensures k <= |xs|
    ensures k < |xs| ==> p(xs[k])
    ensures forall j | 0 <= j < k :: !p(xs[j])
  {
    if |xs| == 0 then 0
    else if p(xs[0]) then 0
    else 1 + FirstIndex(xs[1..], p)
  }

  /** The first element of `xs` that satisfies `p`, if any. */
  function FindFirst<T>(xs: seq<T>, p: T -> bool): (r: Option<T>)
    ensures r.None? <==> forall j | 0 <= j < |xs| :: !p(xs[j])
    ensures r.Some? ==> r.value in xs && p(r.value)
    ensures r.Some? ==> exists k | 0 <= k < |xs| :: xs[k] == r.value && forall j | 0 <= j < k :: !p(xs[j])
  {
    var k := FirstIndex(xs, p);
    if k < |xs| then Some(xs[k]) else None
  }

  /** `prisma.topic.findFirst({ where: { slug } })`. */
  function FindTopicBySlug(topics: seq<Topic>, slug: string): (r: Option<Topic>)
    ensures r.None? <==> !HasSlug(topics, slug)
    ensures r.Some? ==> r.value in topics && r.value.slug == slug
    ensures r.Some? ==> exists k | 0 <= k < |topics| ::
      topics[k] == r.value && forall j | 0 <= j < k :: topics[j].slug != slug
  {
    FindFirst(topics, (t: Topic) => t.slug == slug)
  }

  /** True when some post with id `postId` belongs to the topic with id `topicId`. */
  predicate TopicHasPost(posts: seq<Post>, topicId: Id, postId: Id)
  {
    exists p | p in posts :: p.id == postId && p.topicId == topicId
  }

  /** `prisma.topic.findFirst({ where: { posts: { some: { id: postId } } } })`. */
  function FindTopicOfPost(s: Store, postId: Id): (r: Option<Topic>)
    ensures r.None? <==> forall t | t in s.topics :: !TopicHasPost(s.posts, t.id, postId)
    ensures r.Some? ==> r.value in s.topics && TopicHasPost(s.posts, r.value.id, postId)
    ensures r.Some? ==> exists k | 0 <= k < |s.topics| ::
      s.topics[k] == r.value && forall j | 0 <= j < k :: !TopicHasPost(s.posts, s.topics[j].id, postId)
  {
    FindFirst(s.topics, (t: Topic) => TopicHasPost(s.posts, t.id, postId))
  }

  predicate HasTopicId(topics: seq<Topic>, id: Id)
  {
    exists t | t in topics :: t.id == id
  }

  predicate HasSlug(topics: seq<Topic>, slug: string)
  {
    exists t | t in topics :: t.slug == slug
  }

  predicate HasPostId(posts: seq<Post>, id: Id)
  {
    exists p | p in posts :: p.id == id
  }

  predicate HasCommentId(comments: seq<Comment>, id: Id)
  {
    exists c | c in comments :: c.id == id
  }

  /** The schema's uniqueness constraints: ids are primary keys and slugs are unique. */
  predicate UniqueKeys(s: Store)
  {
    && (forall i, j | 0 <= i < j < |s.topics| :: s.topics[i].id != s.topics[j].id)
    && (forall i, j | 0 <= i < j < |s.topics| :: s.topics[i].slug != s.topics[j].slug)
    && (forall i, j | 0 <= i < j < |s.posts| :: s.posts[i].id != s.posts[j].id)
    && (forall i, j | 0 <= i < j < |s.comments| :: s.comments[i].id != s.comments[j].id)
  }

  /** The schema's foreign keys: every post's topic, every comment's post and parent exist. */
  predicate ReferencesResolve(s: Store)
  {
    && (forall p | p in s.posts :: HasTopicId(s.topics, p.topicId))
    && (forall c | c in s.comments :: HasPostId(s.posts, c.postId))
    && (forall c | c in s.comments && c.parentId.Some? :: HasCommentId(s.comments, c.parentId.value))
  }

  /** A store the database could hold. */
  predicate WellFormed(s: Store)
  {
    UniqueKeys(s) && ReferencesResolve(s)
  }

  /** With unique slugs, the slug lookup finds exactly the topic carrying that slug. */
  lemma SlugLookupFindsTheTopic(s: Store, t: Topic)
    requires UniqueKeys(s)
    requires t in s.topics
    ensures FindTopicBySlug(s.topics, t.slug) == Some(t)
  {
  }

  /** In a well-formed store, the topic lookup for an existing post always finds that post's topic. */
  lemma PostLookupFindsItsTopic(s: Store, p: Post)
    requires WellFormed(s)
    requires p in s.posts
    ensures FindTopicOfPost(s, p.id).Some?
    ensures FindTopicOfPost(s, p.id).value.id == p.topicId
  {
  }
}
