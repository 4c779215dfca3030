/**
 * The entities the command engine reads: a configured command rule, the
 * triggering event, the fetched issue, the operations it dispatches, and
 * the platform capabilities it delegates to.
 */
module CommandModel {
  import opened Wrappers

  /** `command.type`. */
  datatype RuleKind = LabelRule | CommentRule

  /**
   * One entry of the command configuration. Every optional field of the
   * configuration object is an `Option`.
   */
  datatype Command = Command(
    kind: RuleKind,
    name: string,
    regex: Option<string>,
    requireLabel: Option<string>,
    disallowLabel: Option<string>,
    allowUsers: Option<seq<string>>,
    action: Option<string>,
    reason: Option<string>,
    comment: Option<string>,
    addLabel: Option<string>,
    removeLabel: Option<string>,
    assign: Option<seq<string>>)

  /** The triggering action: the label `applied` was applied, or a comment was posted by `user`. */
  datatype Event = LabelEvent(applied: string) | CommentEvent(comment: string, user: string)

  /** The issue snapshot fetched once per run. */
  datatype Issue = Issue(labels: seq<string>, author: string, open: bool)

  /** One call into the issue tracker that the engine dispatches. */
  datatype Op =
    | AddLabel(name: string)
    | RemoveLabel(name: string)
    | AddAssignee(name: string)
    | RemoveAssignee(name: string)
    | CloseIssue(reason: string)
    | PostComment(body: string)

  /**
   * The collaborators the engine only calls: the write-access oracle,
   * `new RegExp(pattern).test(text)` for a user-supplied pattern, and the
   * comment template hydration.
   */
  datatype Platform = Platform(
    hasWriteAccess: string -> bool,
    regexTest: (string, string) -> bool,
    hydrate: (string, Issue) -> string)

  /** JavaScript truthiness of an optional string field: present and non-empty. */
  predicate Truthy(o: Option<string>)
  {
    o.Some? && o.value != ""
  }

  /** `list?.includes(x)`: false when the list is absent. */
  predicate Includes(list: Option<seq<string>>, x: string)
  {
    list.Some? && x in list.value
  }
}
