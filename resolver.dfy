/**
 * `Commands.perform`: the operations one command dispatches for the
 * event, built in the order the source pushes them.
 */
module Resolver {
  import opened Wrappers
  import opened CommandModel
  import opened Matcher
  import opened ArgParser

  /** `name[0] === '@' ? name.slice(1) : name`: drops one leading `@`. */
  function StripAt(n: string): (r: string)
    ensures n == r || n == "@" + r
    ensures (|n| > 0 && n[0] == '@') <==> n == "@" + r
  {
    if |n| > 0 && n[0] == '@' then n[1..] else n
  }

  /** The label operation an argument of `/label` stands for. */
  function LabelArgOp(a: Arg): Op
  {
    if a.task == Add then AddLabel(a.name) else RemoveLabel(a.name)
  }

  /** The assignee operation an argument of `/assign` stands for. */
  function AssigneeArgOp(a: Arg): Op
  {
    if a.task == Add then AddAssignee(StripAt(a.name)) else RemoveAssignee(StripAt(a.name))
  }

  /** `args.map(...)` for `/label`: only label operations, one per argument. */
  function LabelArgOps(args: seq<Arg>): (r: seq<Op>)
    ensures |r| == |args|
    ensures forall op :: op in r ==> op.AddLabel? || op.RemoveLabel?
  {
    seq(|args|, i requires 0 <= i < |args| => LabelArgOp(args[i]))
  }

  /** `args.map(...)` for `/assign`: only assignee operations, one per argument. */
  function AssigneeArgOps(args: seq<Arg>): (r: seq<Op>)
    ensures |r| == |args|
    ensures forall op :: op in r ==> op.AddAssignee? || op.RemoveAssignee?
  {
    seq(|args|, i requires 0 <= i < |args| => AssigneeArgOp(args[i]))
  }

  /** `command.assign.map(addAssignee)`: adds exactly the listed users. */
  function AssignOps(users: seq<string>): (r: seq<Op>)
    ensures |r| == |users|
    ensures forall op :: op in r ==> op.AddAssignee? && op.name in users
    ensures forall u :: u in users ==> AddAssignee(u) in r
  {
    var r := seq(|users|, i requires 0 <= i < |users| => AddAssignee(users[i]));
    assert forall i :: 0 <= i < |users| ==> r[i] == AddAssignee(users[i]);
    r
  }

  /** `command.action === 'close'`. */
  predicate Closes(c: Command)
  {
    c.action == Some("close")
  }

  /** `command.reason ?? 'completed'`. */
  function CloseReason(c: Command): string
  {
    if c.reason.Some? then c.reason.value else "completed"
  }

  /** `command.comment && (command.action !== 'close' || issue.open)`. */
  predicate Comments(c: Command, issue: Issue)
  {
    Truthy(c.comment) && (!Closes(c) || issue.open)
  }

  /** The arguments are read from the comment: a comment event and a command named `label` or `assign`. */
  predicate ParsesArgs(c: Command, e: Event)
  {
    e.CommentEvent? && (c.name == "label" || c.name == "assign")
  }

  /** `if (command.action === 'close') tasks.push(closeIssue(...))`. */
  function PushClose(tasks: seq<Op>, c: Command): seq<Op>
  {
    if Closes(c) then tasks + [CloseIssue(CloseReason(c))] else tasks
  }

  /** `if (command.comment && ...) tasks.push(postComment(hydrate(...)))`. */
  function PushComment(tasks: seq<Op>, p: Platform, c: Command, issue: Issue): seq<Op>
  {
    if Comments(c, issue) then tasks + [PostComment(p.hydrate(c.comment.value, issue))] else tasks
  }

  /** `if (command.addLabel) tasks.push(addLabel(...))`. */
  function PushAddLabel(tasks: seq<Op>, c: Command): seq<Op>
  {
    if Truthy(c.addLabel) then tasks + [AddLabel(c.addLabel.value)] else tasks
  }

  /** `if (command.assign) tasks.push(...command.assign.map(addAssignee))`. */
  function PushAssign(tasks: seq<Op>, c: Command): seq<Op>
  {
    if c.assign.Some? then tasks + AssignOps(c.assign.value) else tasks
  }

  /** `if (command.removeLabel) tasks.push(removeLabel(...))`. */
  function PushRemoveLabel(tasks: seq<Op>, c: Command): seq<Op>
  {
    if Truthy(c.removeLabel) then tasks + [RemoveLabel(c.removeLabel.value)] else tasks
  }

  /**
   * `tasks` followed by the operations a matched command dispatches from its
   * own fields, pushed in the source's order: close, comment, addLabel,
   * assign, removeLabel.
   */
  function PushFieldOps(tasks: seq<Op>, p: Platform, c: Command, issue: Issue): seq<Op>
  {
    PushRemoveLabel(PushAssign(PushAddLabel(PushComment(PushClose(tasks, c), p, c, issue), c), c), c)
  }

  /** The field operations alone. */
  function FieldOps(p: Platform, c: Command, issue: Issue): seq<Op>
  {
    PushFieldOps([], p, c, issue)
  }

  /** The field operations are appended after whatever was pushed before them. */
  lemma PushFieldOpsAppends(tasks: seq<Op>, p: Platform, c: Command, issue: Issue)
    ensures PushFieldOps(tasks, p, c, issue) == tasks + FieldOps(p, c, issue)
  {
    var t1 := PushClose([], c);
    var t2 := PushComment(t1, p, c, issue);
    var t3 := PushAddLabel(t2, c);
    var t4 := PushAssign(t3, c);
    assert PushClose(tasks, c) == tasks + t1;
    assert PushComment(tasks + t1, p, c, issue) == tasks + t2 by {
      if Comments(c, issue) { AppendAssoc(tasks, t1, [PostComment(p.hydrate(c.comment.value, issue))]); }
    }
    assert PushAddLabel(tasks + t2, c) == tasks + t3 by {
      if Truthy(c.addLabel) { AppendAssoc(tasks, t2, [AddLabel(c.addLabel.value)]); }
    }
    assert PushAssign(tasks + t3, c) == tasks + t4 by {
      if c.assign.Some? { AppendAssoc(tasks, t3, AssignOps(c.assign.value)); }
    }
    assert PushRemoveLabel(tasks + t4, c) == tasks + PushRemoveLabel(t4, c) by {
      if Truthy(c.removeLabel) { AppendAssoc(tasks, t4, [RemoveLabel(c.removeLabel.value)]); }
    }
  }

  /** Regrouping a concatenation of three sequences. */
  lemma AppendAssoc<T>(a: seq<T>, b: seq<T>, x: seq<T>)
    ensures a + b + x == a + (b + x)
  {
  }

  /** The field operations, kind by kind. */
  lemma FieldOpsContents(p: Platform, c: Command, issue: Issue, x: string)
    ensures var ops := FieldOps(p, c, issue);
      && (CloseIssue(x) in ops <==> Closes(c) && x == CloseReason(c))
      && (PostComment(x) in ops <==> Comments(c, issue) && x == p.hydrate(c.comment.value, issue))
      && (AddLabel(x) in ops <==> Truthy(c.addLabel) && x == c.addLabel.value)
      && (RemoveLabel(x) in ops <==> Truthy(c.removeLabel) && x == c.removeLabel.value)
      && (AddAssignee(x) in ops <==> Includes(c.assign, x))
      && RemoveAssignee(x) !in ops
  {
    CloseInFieldOps(p, c, issue, x);
    CommentInFieldOps(p, c, issue, x);
    AddLabelInFieldOps(p, c, issue, x);
    RemoveLabelInFieldOps(p, c, issue, x);
    AssigneeInFieldOps(p, c, issue, x);
    NoRemoveAssigneeInFieldOps(p, c, issue, x);
  }

  /** The close operation among the field operations. */
  lemma CloseInFieldOps(p: Platform, c: Command, issue: Issue, x: string)
    ensures CloseIssue(x) in FieldOps(p, c, issue) <==> Closes(c) && x == CloseReason(c)
  {
  }

  /** The comment operation among the field operations. */
  lemma CommentInFieldOps(p: Platform, c: Command, issue: Issue, x: string)
    ensures PostComment(x) in FieldOps(p, c, issue) <==> Comments(c, issue) && x == p.hydrate(c.comment.value, issue)
  {
  }

  /** The added label among the field operations. */
  lemma AddLabelInFieldOps(p: Platform, c: Command, issue: Issue, x: string)
    ensures AddLabel(x) in FieldOps(p, c, issue) <==> Truthy(c.addLabel) && x == c.addLabel.value
  {
  }

  /** The removed label among the field operations. */
  lemma RemoveLabelInFieldOps(p: Platform, c: Command, issue: Issue, x: string)
    ensures RemoveLabel(x) in FieldOps(p, c, issue) <==> Truthy(c.removeLabel) && x == c.removeLabel.value
  {
  }

  /** The added assignees among the field operations. */
  lemma AssigneeInFieldOps(p: Platform, c: Command, issue: Issue, x: string)
    ensures AddAssignee(x) in FieldOps(p, c, issue) <==> Includes(c.assign, x)
  {
  }

  /** No field removes an assignee. */
  lemma NoRemoveAssigneeInFieldOps(p: Platform, c: Command, issue: Issue, x: string)
    ensures RemoveAssignee(x) !in FieldOps(p, c, issue)
  {
  }

  /** The operations derived from the parsed argument list. */
  function ArgOps(name: string, args: seq<Arg>): (r: seq<Op>)
    ensures forall op :: op in r ==> !op.CloseIssue? && !op.PostComment?
  {
    (if name == "label" then LabelArgOps(args) else [])
    + (if name == "assign" then AssigneeArgOps(args) else [])
  }

  /** What `perform` dispatches for one command, or the parse error it throws. */
  function Resolve(p: Platform, c: Command, e: Event, issue: Issue): Result<seq<Op>, ParseError>
  {
    if !Matches(p, c, e, issue) then Ok([])
    else if ParsesArgs(c, e) then
      match Tokenize(ArgListOf(e.comment, c.name))
      case Err(err) => Err(err)
      case Ok(args) => Ok(PushFieldOps(ArgOps(c.name, args), p, c, issue))
    else Ok(FieldOps(p, c, issue))
  }

  /** `Commands.perform(command, issue)`: pushes the operations in the source's order. */
  method Perform(p: Platform, c: Command, e: Event, issue: Issue) returns (r: Result<seq<Op>, ParseError>)
    ensures r == Resolve(p, c, e, issue)
  {
    if !Matches(p, c, e, issue) {
      return Ok([]);
    }
    var tasks: seq<Op> := [];
    ghost var argOps: seq<Op> := [];
    if e.CommentEvent? && (c.name == "label" || c.name == "assign") {
      var parsed := ParseArgList(ArgListOf(e.comment, c.name));
      if parsed.Err? {
        return Err(parsed.error);
      }
      var args := parsed.value;
      if c.name == "label" {
        tasks := tasks + LabelArgOps(args);
      }
      if c.name == "assign" {
        tasks := tasks + AssigneeArgOps(args);
      }
      assert tasks == ArgOps(c.name, args);
      argOps := tasks;
    }
    assert Resolve(p, c, e, issue) == Ok(PushFieldOps(argOps, p, c, issue));
    if c.action == Some("close") {
      tasks := tasks + [CloseIssue(CloseReason(c))];
    }
    assert tasks == PushClose(argOps, c);
    if Truthy(c.comment) && (c.action != Some("close") || issue.open) {
      tasks := tasks + [PostComment(p.hydrate(c.comment.value, issue))];
    }
    assert tasks == PushComment(PushClose(argOps, c), p, c, issue);
    if Truthy(c.addLabel) {
      tasks := tasks + [AddLabel(c.addLabel.value)];
    }
    if c.assign.Some? {
      tasks := tasks + AssignOps(c.assign.value);
    }
    if Truthy(c.removeLabel) {
      tasks := tasks + [RemoveLabel(c.removeLabel.value)];
    }
    return Ok(tasks);
  }

  /*
   * Properties of the resolution.
   */

  /** A command that does not match dispatches nothing. */
  lemma ResolveUnmatched(p: Platform, c: Command, e: Event, issue: Issue)
    requires !Matches(p, c, e, issue)
    ensures Resolve(p, c, e, issue) == Ok([])
  {
  }

  /** Only a matched command dispatches anything. */
  lemma ResolvedOpMatched(p: Platform, c: Command, e: Event, issue: Issue, op: Op)
    ensures Resolve(p, c, e, issue).Ok? && op in Resolve(p, c, e, issue).value ==> Matches(p, c, e, issue)
  {
  }

  /** Resolution fails only on an unterminated quote in the argument list of a matched `label` or `assign` comment command. */
  lemma ResolveFails(p: Platform, c: Command, e: Event, issue: Issue)
    ensures Resolve(p, c, e, issue).Err?
        <==> Matches(p, c, e, issue) && ParsesArgs(c, e) && Tokenize(ArgListOf(e.comment, c.name)).Err?
  {
  }

  /** A matched command that resolves dispatches its argument operations, if any, then its field operations. */
  lemma ResolveShape(p: Platform, c: Command, e: Event, issue: Issue)
    requires Resolve(p, c, e, issue).Ok? && Matches(p, c, e, issue)
    ensures exists argOps: seq<Op> ::
      && (forall op :: op in argOps ==> !op.CloseIssue? && !op.PostComment?)
      && Resolve(p, c, e, issue).value == argOps + FieldOps(p, c, issue)
  {
    if ParsesArgs(c, e) {
      var args := Tokenize(ArgListOf(e.comment, c.name)).value;
      PushFieldOpsAppends(ArgOps(c.name, args), p, c, issue);
      assert Resolve(p, c, e, issue).value == ArgOps(c.name, args) + FieldOps(p, c, issue);
    } else {
      assert Resolve(p, c, e, issue).value == [] + FieldOps(p, c, issue);
    }
  }

  /** A close operation is dispatched exactly when a matched command has `action: 'close'`, with its reason or `completed`. */
  lemma ResolveClose(p: Platform, c: Command, e: Event, issue: Issue, reason: string)
    requires Resolve(p, c, e, issue).Ok?
    ensures CloseIssue(reason) in Resolve(p, c, e, issue).value
        <==> Matches(p, c, e, issue) && Closes(c) && reason == CloseReason(c)
  {
    if Matches(p, c, e, issue) {
      ResolveShape(p, c, e, issue);
      FieldOpsContents(p, c, issue, reason);
    }
  }

  /** A comment is posted exactly when a matched command has a comment and does not close an already closed issue. */
  lemma ResolveComment(p: Platform, c: Command, e: Event, issue: Issue, body: string)
    requires Resolve(p, c, e, issue).Ok?
    ensures PostComment(body) in Resolve(p, c, e, issue).value
        <==> Matches(p, c, e, issue) && Comments(c, issue) && body == p.hydrate(c.comment.value, issue)
  {
    if Matches(p, c, e, issue) {
      ResolveShape(p, c, e, issue);
      FieldOpsContents(p, c, issue, body);
    }
  }

  /** Without inline arguments, labels and assignees change exactly as the command's own fields say. */
  lemma ResolveFieldsOnly(p: Platform, c: Command, e: Event, issue: Issue, x: string)
    requires !ParsesArgs(c, e)
    ensures Resolve(p, c, e, issue).Ok?
    ensures var ops := Resolve(p, c, e, issue).value;
      && (AddLabel(x) in ops <==> Matches(p, c, e, issue) && Truthy(c.addLabel) && x == c.addLabel.value)
      && (RemoveLabel(x) in ops <==> Matches(p, c, e, issue) && Truthy(c.removeLabel) && x == c.removeLabel.value)
      && (AddAssignee(x) in ops <==> Matches(p, c, e, issue) && Includes(c.assign, x))
      && RemoveAssignee(x) !in ops
  {
    FieldOpsContents(p, c, issue, x);
  }

  /** A matched `label` or `assign` comment command whose arguments parse dispatches their operations, then its field operations. */
  lemma ResolveParsed(p: Platform, c: Command, e: Event, issue: Issue, args: seq<Arg>)
    requires Matches(p, c, e, issue) && ParsesArgs(c, e)
    requires Tokenize(ArgListOf(e.comment, c.name)) == Ok(args)
    ensures Resolve(p, c, e, issue) == Ok(ArgOps(c.name, args) + FieldOps(p, c, issue))
  {
    PushFieldOpsAppends(ArgOps(c.name, args), p, c, issue);
  }

  /** `/label` arguments come first, each adding or removing the label it names, followed by the field operations. */
  lemma ResolveLabelArgs(p: Platform, c: Command, text: string, user: string, issue: Issue, args: seq<Arg>)
    requires c.name == "label" && Matches(p, c, CommentEvent(text, user), issue)
    requires Tokenize(ArgListOf(text, "label")) == Ok(args)
    ensures Resolve(p, c, CommentEvent(text, user), issue).Ok?
    ensures var ops := Resolve(p, c, CommentEvent(text, user), issue).value;
      && |ops| == |args| + |FieldOps(p, c, issue)|
      && ops[|args|..] == FieldOps(p, c, issue)
      && forall i :: 0 <= i < |args| ==>
           ops[i] == (if args[i].task == Add then AddLabel(args[i].name) else RemoveLabel(args[i].name))
  {
    ResolveParsed(p, c, CommentEvent(text, user), issue, args);
    LabelArgOpsOnly(args);
  }

  /** `/assign` arguments come first, each adding or removing the user it names without one leading `@`. */
  lemma ResolveAssignArgs(p: Platform, c: Command, text: string, user: string, issue: Issue, args: seq<Arg>)
    requires c.name == "assign" && Matches(p, c, CommentEvent(text, user), issue)
    requires Tokenize(ArgListOf(text, "assign")) == Ok(args)
    ensures Resolve(p, c, CommentEvent(text, user), issue).Ok?
    ensures var ops := Resolve(p, c, CommentEvent(text, user), issue).value;
      && |ops| == |args| + |FieldOps(p, c, issue)|
      && ops[|args|..] == FieldOps(p, c, issue)
      && forall i :: 0 <= i < |args| ==>
           ops[i] == (if args[i].task == Add then AddAssignee(StripAt(args[i].name))
                      else RemoveAssignee(StripAt(args[i].name)))
  {
    ResolveParsed(p, c, CommentEvent(text, user), issue, args);
    AssignArgOpsOnly(args);
  }

  /** The argument operations of `label` are label operations only. */
  lemma LabelArgOpsOnly(args: seq<Arg>)
    ensures ArgOps("label", args) == LabelArgOps(args)
  {
    assert ArgOps("label", args) == LabelArgOps(args) + [];
  }

  /** The argument operations of `assign` are assignee operations only. */
  lemma AssignArgOpsOnly(args: seq<Arg>)
    ensures ArgOps("assign", args) == AssigneeArgOps(args)
  {
    assert ArgOps("assign", args) == [] + AssigneeArgOps(args);
  }
}
