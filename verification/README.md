# Forum create actions, modelled in Dafny

This project models the three server actions of a small discussion forum that create
content: `createTopic`, `createPost` and `createComment`. Each action runs a fixed pipeline.
It validates the submitted form fields, checks for a signed-in session, and inserts one row.
Where the action has one, it also looks up a topic. Then it invalidates a cached page and
either redirects or reports success. Any step can end the action early with a structured error.

Each action is a pure function. It takes:
- the current store (topics, posts, comments);
- the session's user id, if someone is signed in;
- the submitted fields as `Option<string>` (a missing form field reads as null);
- the id the database would give the new row;
- whether the insert is accepted or throws, and what it throws.

It returns an `ActionResult`: the new store, the outcome, and the ordered list of calls the
action made to its collaborators (session read, topic lookup, insert, page invalidation).
The outcome is one of: field errors, a `_form` error list, a redirect, or `success: true`.

Modules:
- `Forum` (`forum.dfy`): rows, the store, the two `findFirst` lookups, and the schema's keys and foreign keys (`WellFormed`).
- `Validation` (`validation.dfy`): the schema-library checks the actions use. These are a required string, a minimum length in UTF-16 code units (JavaScript's `length`), and the `^[a-z-]+$` pattern. Failures are flattened into a map from each failing field to a non-empty issue list.
- `Actions` (`actions.dfy`): paths, recorded calls, thrown values and outcomes, shared by the three actions.
- `CreateTopic`, `CreatePost`, `CreateComment`: one module per action file.

The model follows the code, including where it is looser than the data rules the schema suggests (a reply's parent on the same post, a signed-in author with an id, a string in every field):
- Fields may be absent (null), not only strings. An absent field gets a single type issue.
- A reply's `parentId` is never checked against its post. `CreateComment.ParentMayBelongToAnotherPost` shows that such a reply is accepted and leaves the store well formed.
- The sign-in messages differ between actions, as the code has them: "You must be signed in to do this." for topics, "You must be signed in to do this" (no period) for posts, and "You must sign in to do this." for comments.

## Model

| member | source | states |
|---|---|---|
| `Validation.StringIssues` | src/actions/create-post.ts:11-14 | `z.string().min(n)` gives no issue exactly when the field is present and at least n UTF-16 units long; otherwise it gives exactly one issue |
| `Validation.Utf16Length` | src/actions/create-topic.ts:20 | the length `.min(n)` compares is JavaScript's: never less than the character count and at most twice it |
| `Validation.Utf16LengthOfBmp` | src/actions/create-topic.ts:16 | for strings of Basic Multilingual Plane characters, such as any name the pattern admits, that length is the character count |
| `Validation.MinIssues` | src/actions/create-topic.ts:16 | `.min(n)` on a present string gives no issue exactly when it is at least n UTF-16 units long, and otherwise exactly `[TooSmall(n)]` |
| `Validation.MatchesSlugPattern` | src/actions/create-topic.ts:17 | `^[a-z-]+$` matches exactly the non-empty strings whose every character is a lower-case letter or a dash |
| `Validation.AddIssues` | src/actions/create-topic.ts:60-64 | flattening lists a field only when it has issues, keeps every listed field's issue list non-empty, and leaves the other fields as they were |
| `CreateTopic.NameIssues` | src/actions/create-topic.ts:14-19 | a name has no issue exactly when it is present, at least 3 long and made only of `a`-`z` and `-`; the issues carry "Must be lower case letters or dashes without spaces" exactly when the name is present and fails the pattern, and carry `TooSmall(3)` exactly when the name is present and under 3 UTF-16 units, so a short but well-formed name gets only the length issue; an absent name gets only the type issue |
| `CreateTopic.ValidateTopic` | src/actions/create-topic.ts:13-21 | the fields pass exactly when the name rule holds and the description is at least 10 long; on failure, exactly the failing fields are keyed, each with a non-empty list, and a keyed name carries the pattern message exactly when it fails the pattern |
| `CreateTopic.EmptyNameRejected` | src/actions/create-topic.ts:14-19 | the empty name never passes; it fails both the length check and the pattern check |
| `CreateTopic.CreateTopic` | src/actions/create-topic.ts:49-107 | invalid fields return only the validator's field errors, with no session read and no store change. Signed out returns exactly `_form: ["You must be signed in to do this."]`. A throwing insert returns one `_form` message (the Error's message or "Something went wrong"), with no topic and no redirect. Success appends exactly one topic (slug = name, the given description), invalidates "/" and redirects to that slug's page. The store changes exactly when the action redirects |
| `CreateTopic.ValidationPrecedesEverything` | src/actions/create-topic.ts:53-64 | with invalid fields the outcome is the same for every store, session, row id and insert behaviour |
| `CreateTopic.SessionPrecedesInsert` | src/actions/create-topic.ts:68-78 | signed out, the whole result is the same whether or not the insert would throw |
| `CreateTopic.CreateTopicKeepsStoreWellFormed` | src/actions/create-topic.ts:84-89 | a well-formed store stays well formed when an accepted insert has a fresh id and a fresh slug |
| `CreatePost.ValidatePost` | src/actions/create-post.ts:11-14 | the fields pass exactly when the title is at least 3 long and the content at least 10; on failure, exactly the failing fields are keyed |
| `CreatePost.CreatePost` | src/actions/create-post.ts:24-96 | invalid fields return only field errors. Signed out returns `_form: ["You must be signed in to do this"]`. If no topic has the slug, it returns `_form: ["Cannot find topic"]` after the lookup and before any insert. A throwing insert returns one message (the Error's or "Failed to create post"), with no invalidation and no redirect. Success appends exactly one post (submitted title and content, session user, id of the first topic in store order with that slug), changes nothing else, invalidates the topic page and redirects to the new post's page |
| `CreatePost.LookupPrecedesInsert` | src/actions/create-post.ts:51-63 | with no topic for the slug, no insert is attempted and the result does not depend on insert behaviour |
| `CreatePost.PostGoesUnderTheSlugsTopic` | src/actions/create-post.ts:51-76 | with unique slugs, the new post carries the id of the one topic with that slug |
| `CreatePost.CreatePostKeepsStoreWellFormed` | src/actions/create-post.ts:67-76 | the post's topic always exists because it was just found, so only a fresh post id is needed to keep the store well formed |
| `CreateComment.ValidateComment` | src/actions/create-comment.ts:14-16 | content passes exactly when present and at least 3 long; otherwise only `content` is keyed |
| `CreateComment.CreateComment` | src/actions/create-comment.ts:31-105 | invalid content returns only a `content` error, with no store change. Signed out returns `_form: ["You must sign in to do this."]` with no insert. A throwing insert returns one message (the Error's or "Something went wrong..."), with no comment and no topic lookup. An accepted insert appends exactly one comment (given postId, unchecked parentId, session user). If no topic holds the post, the result is `_form: ["Failed to revalidate topic"]` and the comment stays stored. Otherwise that topic's post page is invalidated and the result is success |
| `CreateComment.RevalidationFailureNeedsDanglingPost` | src/actions/create-comment.ts:88-98 | in a well-formed store where the post exists, an accepted comment always ends in success, so the partial-success error needs a post with no topic |
| `CreateComment.ParentMayBelongToAnotherPost` | src/actions/create-comment.ts:63-71 | a reply whose parent is a comment on a different post is accepted, keeps the store well formed, and is stored with that parent |
| `CreateComment.SessionPrecedesInsert` | src/actions/create-comment.ts:54-61 | signed out, the whole result is the same whether or not the insert would throw |
| `CreateComment.CreateCommentKeepsStoreWellFormed` | src/actions/create-comment.ts:63-71 | an accepted comment with a fresh id, an existing post and an existing parent keeps the store well formed |
| `CreateComment.CommentRevalidatesItsPostPage` | src/actions/create-comment.ts:88-104 | in a well-formed store, an accepted comment on an existing post invalidates that post's page under its own topic's slug |
| `CreateComment.AppendCommentKeepsStoreWellFormed` | src/actions/create-comment.ts:63-71 | appending a comment with a fresh id, an existing post and an existing parent keeps keys unique and foreign keys resolvable |
| `Actions.CaughtMessage` | src/actions/create-topic.ts:90-103 | a caught insert exception becomes its message when it is an `Error`, and the action's fallback text otherwise; the same rule serves create-post.ts:77-91 and create-comment.ts:72-86 |
| `Forum.FindFirst` | src/actions/create-post.ts:51-53 | finds nothing exactly when no row matches; otherwise returns a matching row with no match before it in store order |
| `Forum.FindTopicBySlug` | src/actions/create-post.ts:51-53 | finds nothing exactly when no topic has the slug; otherwise the first topic in store order with that slug |
| `Forum.FindTopicOfPost` | src/actions/create-comment.ts:88-90 | finds nothing exactly when no topic holds a post with that id; otherwise the first topic in store order that does |
| `Forum.SlugLookupFindsTheTopic` | src/actions/create-post.ts:51-53 | with unique slugs, the slug lookup returns exactly the topic carrying that slug |
| `Forum.PostLookupFindsItsTopic` | src/actions/create-comment.ts:88-90 | in a well-formed store, looking up the topic of an existing post finds that post's own topic |

## Left out

- The `formState` argument of each action is ignored by the code and is not modelled.
- A form field holding a file rather than text is not modelled. Fields are absent or strings.
- The schema library's default message texts are not modelled. They are the issue constructors `InvalidType` and `TooSmall(n)`. Only the custom pattern message is kept as text.
- The session is the signed-in user's id or nothing. A signed-in user without an id is not modelled. The code's `!` on `session.user.id` is a type-level assertion only, so such a user would reach the insert with an undefined `userId`; the insert would then throw, which the `fault` input already covers. `createTopic` never reads the id.
- Database constraints (unique slug, primary keys, foreign keys) are not derived. Whether an insert is accepted or throws is an input. The well-formedness lemmas assume that an accepted insert respects the constraints the database enforces.
- Database-generated ids are an input (`newId`). Timestamps and other columns the actions do not set are not modelled.
- Page invalidation and redirect are recorded as values. The path helpers are modelled as the constructors of `Path`; their URL strings live in `src/paths`, which is not part of this model.
- The per-request memoised comment query, the auth provider configuration, and the UI components and pages hold no logic of the actions.
- Reading the session and the topic lookups are assumed not to fail. In the code, `auth()` and `prisma.topic.findFirst` sit outside any try/catch, so a failure there makes the action throw instead of returning an error. In `createComment` a failing lookup would be a second partial success: the comment is already stored.
- `findFirst` has no ordering, so the database may return any matching row. The model fixes store order: the first matching row. `Forum.SlugLookupFindsTheTopic` and `Forum.PostLookupFindsItsTopic` show the choice makes no difference in a well-formed store, where at most one topic matches.
- Async execution and concurrent requests are not modelled. The store does not change between an action's insert and its topic lookup.
