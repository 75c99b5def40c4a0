/**
 The `createTopic` server action: validate `name` and `description`, require a
 signed-in session, insert the topic (its slug is the submitted name),
 invalidate the home page and redirect to the new topic's page.
 */
module CreateTopic {
  import opened Forum
  import opened Validation
  import opened Actions

  const PatternMessage := "Must be lower case letters or dashes without spaces"
  const SignInMessage := "You must be signed in to do this."
  const FallbackMessage := "Something went wrong"

  /** A name the schema accepts: at least three characters, each a lower-case letter or a dash. */
  predicate IsTopicName(n: string)
  {
    |n| >= 3 && forall i | 0 <= i < |n| :: IsSlugChar(n[i])
  }

  /** A description the schema accepts: at least ten characters long. */
  predicate IsTopicDescription(d: string)
  {
    Utf16Length(d) >= 10
  }

  predicate TopicFieldsValid(name: Option<string>, description: Option<string>)
  {
    name.Some? && IsTopicName(name.value) && description.Some? && IsTopicDescription(description.value)
  }

  /** Issues of the `name` rule: `z.string().min(3).regex(/^[a-z-]+$/, ...)`; both checks run. */
  function NameIssues(v: Option<string>): (issues: seq<Issue>)
    ensures issues == [] <==> v.Some? && IsTopicName(v.value)
    ensures PatternMismatch(PatternMessage) in issues <==> v.Some? && !MatchesSlugPattern(v.value)
    ensures v.None? ==> issues == [InvalidType]
    ensures v.Some? ==> (TooSmall(3) in issues <==> Utf16Length(v.value) < 3)
    ensures |issues| <= 2
  {
    match v
    case None => [InvalidType]
    case Some(x) =>
      assert MatchesSlugPattern(x) ==> Utf16Length(x) == |x| by {
        if MatchesSlugPattern(x) {
          Utf16LengthOfBmp(x);
        }
      }
      MinIssues(x, 3) + (if MatchesSlugPattern(x) then [] else [PatternMismatch(PatternMessage)])
  }

  /** `createTopicSchema.safeParse(...)`, flattened to field errors on failure. */
  function ValidateTopic(name: Option<string>, description: Option<string>): (r: Validated<(string, string)>)
    ensures r.Valid? <==> TopicFieldsValid(name, description)
    ensures r.Valid? ==> r.data == (name.value, description.value)
    ensures r.Invalid? ==> NonEmptyLists(r.errors) && r.errors.Keys <= {Name, Description}
    ensures r.Invalid? ==> (Name in r.errors <==> !(name.Some? && IsTopicName(name.value)))
    ensures r.Invalid? ==>
      (Description in r.errors <==> !(description.Some? && IsTopicDescription(description.value)))
    ensures r.Invalid? && Name in r.errors ==>
      (PatternMismatch(PatternMessage) in r.errors[Name] <==> name.Some? && !MatchesSlugPattern(name.value))
  {
    var nameIssues := NameIssues(name);
    var descriptionIssues := StringIssues(description, 10);
    if nameIssues == [] && descriptionIssues == [] then
      Valid((name.value, description.value))
    else
      Invalid(AddIssues(AddIssues(map[], Name, nameIssues), Description, descriptionIssues))
  }

  /** The action, given the store, the session's user id (if signed in), the two submitted
      fields, the id the store would give the new row, and whether the insert throws. */
  function CreateTopic(s: Store, session: Option<UserId>, name: Option<string>,
                       description: Option<string>, newId: Id, fault: InsertFault): (r: ActionResult)
    // invalid fields: field errors for exactly the failing fields, nothing else happens
    ensures !TopicFieldsValid(name, description) ==>
      && r.outcome.Rejected? && r.store == s && r.calls == []
      && NonEmptyLists(r.outcome.fieldErrors)
      && (Name in r.outcome.fieldErrors <==> !(name.Some? && IsTopicName(name.value)))
      && (Description in r.outcome.fieldErrors <==>
            !(description.Some? && IsTopicDescription(description.value)))
      && r.outcome.fieldErrors.Keys <= {Name, Description}
      && r.outcome == Rejected(ValidateTopic(name, description).errors)
    // signed out: the sign-in error, the store is untouched
    ensures TopicFieldsValid(name, description) && session.None? ==>
      r == ActionResult(s, FormError([SignInMessage]), [ReadSession])
    // insert throws: one `_form` message, no topic, no invalidation, no redirect
    ensures TopicFieldsValid(name, description) && session.Some? && fault.Throws? ==>
      r == ActionResult(s, FormError([CaughtMessage(fault.thrown, FallbackMessage)]),
                        [ReadSession, InsertTopic])
    // success: one topic appended, "/" invalidated, redirect to the topic's page
    ensures TopicFieldsValid(name, description) && session.Some? && fault.Accepts? ==>
      && r.store == s.(topics := s.topics + [Topic(newId, name.value, description.value)])
      && r.outcome == Redirected(TopicPage(name.value))
      && r.calls == [ReadSession, InsertTopic, Revalidate(Root)]
    ensures r.store != s <==> r.outcome.Redirected?
  {
    match ValidateTopic(name, description)
    case Invalid(errors) => ActionResult(s, Rejected(errors), [])
    case Valid((n, d)) =>
      if session.None? then
        ActionResult(s, FormError([SignInMessage]), [ReadSession])
      else
        match fault
        case Throws(thrown) =>
          ActionResult(s, FormError([CaughtMessage(thrown, FallbackMessage)]), [ReadSession, InsertTopic])
        case Accepts =>
          var topic := Topic(newId, n, d);
          ActionResult(s.(topics := s.topics + [topic]), Redirected(TopicPage(topic.slug)),
                       [ReadSession, InsertTopic, Revalidate(Root)])
  }

  /** The empty name fails both the length rule and the pattern rule. */
  lemma EmptyNameRejected(description: Option<string>)
    ensures ValidateTopic(Some(""), description).Invalid?
    ensures ValidateTopic(Some(""), description).errors[Name] == [TooSmall(3), PatternMismatch(PatternMessage)]
  {
  }

  /** Validation runs first: with invalid fields the outcome depends on nothing but the fields. */
  lemma ValidationPrecedesEverything(s1: Store, s2: Store, session1: Option<UserId>, session2: Option<UserId>,
                                     name: Option<string>, description: Option<string>,
                                     id1: Id, id2: Id, fault1: InsertFault, fault2: InsertFault)
    requires !TopicFieldsValid(name, description)
    ensures CreateTopic(s1, session1, name, description, id1, fault1).outcome
         == CreateTopic(s2, session2, name, description, id2, fault2).outcome
  {
  }

  /** The session check precedes the insert: signed out, whether the insert would throw is irrelevant. */
  lemma SessionPrecedesInsert(s: Store, name: Option<string>, description: Option<string>,
                              id1: Id, id2: Id, fault1: InsertFault, fault2: InsertFault)
    ensures CreateTopic(s, None, name, description, id1, fault1)
         == CreateTopic(s, None, name, description, id2, fault2)
  {
  }

  /** A topic insert that the store accepts keeps it well formed. The schema's uniqueness
      constraints are not derived here, so an accepted insert is assumed to respect them. */
  lemma CreateTopicKeepsStoreWellFormed(s: Store, session: Option<UserId>, name: Option<string>,
                                        description: Option<string>, newId: Id, fault: InsertFault)
    requires WellFormed(s)
    requires fault.Accepts? ==> !HasTopicId(s.topics, newId)
    requires fault.Accepts? && name.Some? ==> !HasSlug(s.topics, name.value)
    ensures WellFormed(CreateTopic(s, session, name, description, newId, fault).store)
  {
  }
}
