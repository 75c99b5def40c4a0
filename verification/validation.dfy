/**
 The part of the schema-validation library the create actions rely on: a
 required string field with a minimum length and, for topic names, a pattern.
 Each failing check contributes one issue to its field's list; the flattened
 result maps every failing field, and only those, to a non-empty issue list.

 Lengths are JavaScript string lengths, which count UTF-16 code units, so a
 character outside the Basic Multilingual Plane counts twice.
 */
module Validation {
  import opened Forum

  /** The form fields the three actions read. */
  datatype Field = Name | Description | Title | Content

  /** One validation issue as it appears in a field's message list. */
  datatype Issue =
    | InvalidType               // the field was missing from the form (`formData.get` gave null)
    | TooSmall(minimum: nat)    // the string is shorter than `.min(minimum)`
    | PatternMismatch(message: string)  // the string failed `.regex(...)`; carries the custom message

  /** The flattened field errors: failing field to its issues. */
  type FieldErrors = map<Field, seq<Issue>>

  /** Outcome of running a schema over the submitted fields. */
  datatype Validated<T> = Valid(data: T) | Invalid(errors: FieldErrors)

  /** Every listed field has at least one issue. */
  predicate NonEmptyLists(e: FieldErrors)
  {
    forall f | f in e :: |e[f]| > 0
  }

  /** Length of `s` as JavaScript reports it: UTF-16 code units. */
  function Utf16Length(s: string): (n: nat)
    ensures |s| <= n <= 2 * |s|
  {
    if |s| == 0 then 0
    else (if s[0] as int > 0xFFFF then 2 else 1) + Utf16Length(s[1..])
  }

  /** A string of Basic Multilingual Plane characters has as many code units as characters. */
  lemma {:induction false} Utf16LengthOfBmp(s: string)
    requires forall i | 0 <= i < |s| :: s[i] as int <= 0xFFFF
    ensures Utf16Length(s) == |s|
  {
    if |s| > 0 {
      Utf16LengthOfBmp(s[1..]);
    }
  }

  /** Issues of `.min(minimum)` on a present string. */
  function MinIssues(x: string, minimum: nat): (issues: seq<Issue>)
    ensures issues == [] <==> Utf16Length(x) >= minimum
    ensures issues != [] ==> issues == [TooSmall(minimum)]
  {
    if Utf16Length(x) < minimum then [TooSmall(minimum)] else []
  }

  /** Issues of `z.string().min(minimum)` on a submitted value. */
  function StringIssues(v: Option<string>, minimum: nat): (issues: seq<Issue>)
    ensures issues == [] <==> v.Some? && Utf16Length(v.value) >= minimum
    ensures |issues| <= 1
  {
    match v
    case None => [InvalidType]
    case Some(x) => MinIssues(x, minimum)
  }

  /** The characters `[a-z-]` admits. */
  predicate IsSlugChar(c: char)
  {
    'a' <= c <= 'z' || c == '-'
  }

  /** Every character of `s` is in `[a-z-]`, checked one character at a time. */
  function AllSlugChars(s: string): (b: bool)
    ensures b <==> forall i | 0 <= i < |s| :: IsSlugChar(s[i])
  {
    if |s| == 0 then true
    else IsSlugChar(s[0]) && AllSlugChars(s[1..])
  }

  /** Whether `s` matches `^[a-z-]+$`: one or more characters, all in `[a-z-]`. */
  function MatchesSlugPattern(s: string): (b: bool)
    ensures b <==> |s| > 0 && forall i | 0 <= i < |s| :: IsSlugChar(s[i])
  {
    |s| > 0 && AllSlugChars(s)
  }

  /** The field-error map extended with `f`'s issues, when there are any. */
  function AddIssues(e: FieldErrors, f: Field, issues: seq<Issue>): (e': FieldErrors)
    requires NonEmptyLists(e)
    ensures NonEmptyLists(e')
    ensures f in e' <==> f in e || issues != []
    ensures issues != [] ==> e'[f] == issues
    ensures forall g | g in e && g != f :: g in e' && e'[g] == e[g]
  {
    if issues == [] then e else e[f := issues]
  }
}
