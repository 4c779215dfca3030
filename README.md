# Command engine model

A Dafny model of the command engine of the issue-triage bot (`Commands` in
`commands/Commands.js`). A configuration lists command rules. For each issue
event, the engine decides which rules apply, parses any inline arguments from
the comment, and works out the label, assignee, close and comment operations
to dispatch to the issue tracker.

The model is split into these modules:

- `CommandModel` (model.dfy): the entities.
  - A command rule with every optional field as an `Option`.
  - The triggering event, a label event or a comment event. The source tells
    them apart by duck typing (`'label' in this.action`).
  - The issue snapshot.
  - The operations the engine dispatches (`Op`).
  - `Platform`, which holds the collaborators the engine only calls: the
    write-access check, the test of a user-supplied regular expression, and
    comment hydration.
- `JsString` (js_string.dfy): the JavaScript string primitives the engine
  relies on: the `\s` class, `trim`, a one-character `indexOf`, and the case
  folding of the `i` flag.
- `RegExpEscape` (escape.dfy): `escapeRegExp`, and the literal text an escaped
  pattern stands for.
- `Matcher` (matcher.dfy): `Commands.matches`. This covers label gating, the
  label branch, and the comment branch with its `/name` token search and
  authorization.
- `ArgParser` (arg_parser.dfy): the argument-list search of line 49, and the
  `while (argList)` tokenizer loop. The loop is a method proved equal to a
  recursive specification.
- `Resolver` (resolver.dfy): `Commands.perform`. This is a method that pushes
  the operations in the source's order, proved equal to a specification
  function. Lemmas state what that function dispatches.
- `Driver` (driver.dfy): `Commands.run`, the map of `perform` over the
  configuration against one fetched snapshot.
- `Scenarios` (scenarios.dfy): end-to-end behaviour on particular comments
  and commands.

JavaScript truthiness is modelled explicitly.
- An optional string field is "set" when it is present and non-empty (`Truthy`).
- `command.reason ?? 'completed'` tests presence only, so an empty reason is kept.
- `command.assign` is truthy even when it is an empty list.

The close reason is the command's own `reason` field
(commands/Commands.js:85); the model reads nothing nested in `action`.

## Model

| member | source | states |
|---|---|---|
| JsString.Trim | commands/Commands.js:49 | `trim` leaves no whitespace at either end and never lengthens the string |
| JsString.TrimInner | commands/Commands.js:49 | `trim` returns a slice of its input with only whitespace before and after it, so it removes the outer whitespace and nothing else |
| JsString.TrimUnchanged | commands/Commands.js:59 | a string with non-whitespace at both ends is its own trim |
| JsString.IndexOf | commands/Commands.js:55 | `indexOf(c, from)` gives the first occurrence at or after `from`, or none when there is none |
| RegExpEscape.Escape | commands/Commands.js:110-112 | escaping at most doubles the length and leaves a name without syntax characters unchanged |
| RegExpEscape.UnescapeEscape | commands/Commands.js:110-112 | the escaped name is a pure literal that stands for exactly the name |
| RegExpEscape.EscapeInjective | commands/Commands.js:110-112 | two names give the same escaped pattern only if they are equal |
| Matcher.Matches | commands/Commands.js:17-40 | a matching rule passes the `requireLabel`/`disallowLabel` gate, and label rules match exactly on label events |
| Matcher.LabelEventMatch | commands/Commands.js:19-31 | a label event matches iff the gate passes, the rule is a label rule, and the name equals the label or the rule's regex accepts it |
| Matcher.PatternFindsName | commands/Commands.js:34 | the pattern built from the escaped name finds exactly the `/name` or `\name` tokens of the raw name (any ASCII case, then whitespace or the end) |
| Matcher.CommentEventMatch | commands/Commands.js:17-40 | a comment event matches iff the gate passes, the rule is a comment rule, the comment holds a `/name` token, and the user has write access, is listed, or is covered by `*` or `@author` |
| Matcher.CommandAtStart | commands/Commands.js:33-38 | a comment that opens with `/name` then whitespace or its end runs a gated-in comment rule for an authorized user |
| ArgParser.FindKeyword | commands/Commands.js:49 | the search returns the leftmost slash index where the case-sensitive pattern matches: start or whitespace before, then the single-line tail closed by `\r?\n` or the end |
| ArgParser.ArgListOf | commands/Commands.js:49 | the argument list is trimmed and holds no line terminator |
| ArgParser.ArgListAtKeyword | commands/Commands.js:49 | for the leftmost match, wherever it is in the comment, the argument list is the rest of that line after the keyword, trimmed |
| ArgParser.ArgListAbsent | commands/Commands.js:49 | with no match anywhere in the comment, the argument list is empty (`?? ''`) |
| ArgParser.ArgListFirstLine | commands/Commands.js:49 | the argument list of a keyword at the start stops at the first line break; later lines are not part of it |
| ArgParser.ArgListAfterText | commands/Commands.js:49 | text before the command that ends in whitespace and holds no slash or backslash does not change the argument list |
| ArgParser.ArgListAtStart | commands/Commands.js:49 | a keyword at the start followed by a single-line tail yields that tail trimmed |
| ArgParser.ArgListAfterSpace | commands/Commands.js:49 | a keyword at the start, a space, and a single-line tail without outer whitespace yield exactly that tail |
| ArgParser.Step | commands/Commands.js:51-71 | one iteration strictly shortens the list, and its argument removes iff the list starts with `-` |
| ArgParser.ParseArgList | commands/Commands.js:48-72 | the loop returns exactly the arguments of the specification `Tokenize`, or its unmatched-quote error |
| ArgParser.TokenizeQuoted | commands/Commands.js:54-59 | a quoted argument is the exact text up to the next `"`, spaces kept, and parsing resumes on the trimmed rest |
| ArgParser.TokenizeUnclosed | commands/Commands.js:54-57 | a quote with no closing `"` makes the parse fail |
| ArgParser.TokenizeBare | commands/Commands.js:61-70 | an unquoted argument ends at the first space at index 1 or later |
| ArgParser.TokenizeLast | commands/Commands.js:62-66 | an unquoted argument with no later space takes the whole rest |
| ArgParser.TokenizeBound | commands/Commands.js:50-72 | a successful parse yields at most one argument per character |
| ArgParser.TokenizeWords | commands/Commands.js:50-72 | space-separated plain words give one argument per word, removing exactly for the words that start with `-` |
| ArgParser.TokenizeWordsThen | commands/Commands.js:50-72 | plain words, a space, then a non-empty tail that starts and ends with non-whitespace give the words' arguments, then the tail's |
| Resolver.StripAt | commands/Commands.js:80-81 | exactly one leading `@` is dropped, and only when present |
| Resolver.LabelArgOps | commands/Commands.js:73-77 | `/label` arguments give one label operation each |
| Resolver.AssigneeArgOps | commands/Commands.js:78-82 | `/assign` arguments give one assignee operation each |
| Resolver.AssignOps | commands/Commands.js:93-95 | `assign` adds exactly the listed users and nothing else |
| Resolver.ArgOps | commands/Commands.js:73-83 | the operations from parsed arguments never close the issue or post a comment |
| Resolver.PushFieldOpsAppends | commands/Commands.js:84-98 | the field operations are appended after the argument operations |
| Resolver.FieldOpsContents | commands/Commands.js:84-98 | for each kind, an operation is among the field operations iff its field asks for it: close with `reason` or `completed`, comment unless closing a closed issue, `addLabel`, `removeLabel`, each `assign` user, and never a removed assignee |
| Resolver.Perform | commands/Commands.js:41-98 | `perform` builds exactly the specification's operations, in the source's push order, or throws the parse error |
| Resolver.ResolveUnmatched | commands/Commands.js:43-44 | a rule that does not match dispatches nothing |
| Resolver.ResolvedOpMatched | commands/Commands.js:43-44 | any dispatched operation comes from a matching rule |
| Resolver.ResolveFails | commands/Commands.js:47-57 | `perform` throws iff a matched `label`/`assign` comment rule has an unterminated quote in its argument list |
| Resolver.ResolveShape | commands/Commands.js:46-98 | the result is the argument operations (no close or comment among them) followed by the field operations |
| Resolver.ResolveClose | commands/Commands.js:84-86 | a close is dispatched iff a matched rule has `action: 'close'`, with its `reason` or `completed` |
| Resolver.ResolveComment | commands/Commands.js:87-89 | a comment is dispatched iff a matched rule has a comment and does not close an already closed issue; its body is the hydrated template |
| Resolver.ResolveFieldsOnly | commands/Commands.js:90-98 | without inline arguments, labels and assignees change exactly as `addLabel`, `removeLabel` and `assign` say, and no assignee is removed |
| Resolver.ResolveParsed | commands/Commands.js:47-98 | a matched `label`/`assign` comment rule whose arguments parse dispatches their operations, then the field operations |
| Resolver.ResolveLabelArgs | commands/Commands.js:73-77 | for `/label`, argument i adds or removes label i, in order, before the field operations |
| Resolver.ResolveAssignArgs | commands/Commands.js:78-82 | for `/assign`, argument i adds or removes user i without one leading `@`, in order, before the field operations |
| Driver.MapCommands | commands/Commands.js:105 | `config.map(f)` keeps the length and applies `f` to each rule in order |
| Driver.Run | commands/Commands.js:101-106 | no issue gives no outcome; otherwise there is one `perform` outcome per rule, in order, all against the one fetched snapshot |
| Driver.DispatchedAppend | commands/Commands.js:105 | the run's operations over two lists of rules are the operations of each list, concatenated |
| Driver.DispatchedKeepsResolved | commands/Commands.js:105 | a rule that throws does not cancel another: every operation of a rule that resolved is dispatched |
| Driver.DispatchedComesFromResolved | commands/Commands.js:105 | every dispatched operation belongs to a rule that resolved |
| Driver.RunDispatchesOnlyMatched | commands/Commands.js:101-105 | every dispatched operation comes from a rule that matches the event on the shared snapshot |
| Driver.RunRejects | commands/Commands.js:105 | the run rejects iff some matched `label`/`assign` comment rule has an unterminated quote |
| Scenarios.LabelRuleMatchesExactName | commands/Commands.js:25-30 | a label rule `bug` without regex matches the label `bug` and not `bugfix` |
| Scenarios.CloseCommandNeedsWriteAccess | commands/Commands.js:33-38 | without `allowUsers`, `/close` runs `close` iff the user has write access |
| Scenarios.CloserIsNotClose | commands/Commands.js:34 | `/closer` does not run `close` |
| Scenarios.LabelWordsParse | commands/Commands.js:49-72 | the argument list of `/label` then plain words parses into one argument per word |
| Scenarios.LabelCommandWords | commands/Commands.js:47-77 | `/label` then plain words adds each word's label and removes each `-word`'s, in order, before the field operations |
| Scenarios.LabelCommandQuoted | commands/Commands.js:54-77 | `/label "q"` adds the single label `q`, spaces included |
| Scenarios.LabelCommandWordsQuoted | commands/Commands.js:47-77 | `/label` then plain words then a quoted label applies the words' changes, then adds the quoted label (for example, `/label bug -wontfix "needs info"`) |
| Scenarios.CloseCommandWithComment | commands/Commands.js:84-89 | a closing rule with a reason and a comment closes with that reason and posts the hydrated comment only while the issue is open |
| Scenarios.UppercaseLabelCommandMatches | commands/Commands.js:34 | `/LABEL x` runs the `label` rule, since that match ignores case |
| Scenarios.UppercaseLabelHasNoArgList | commands/Commands.js:49 | the argument search is case-sensitive, so `/LABEL x` has an empty argument list |
| Scenarios.UppercaseLabelCommandDispatchesNothing | commands/Commands.js:47-77 | `/LABEL x` matches but dispatches no operation |
| Scenarios.DashThenSpaceKeepsSpace | commands/Commands.js:51-53 | after `-`, a space is kept: `- foo` parses into the removing argument ` foo` |
| Scenarios.DashSpaceRemovesSpacedLabel | commands/Commands.js:47-77 | `/label - w`, for a word `w` without whitespace, dispatches the removal of the label ` w` (leading space kept), then the field operations |

## Left out

- The argument-list search compares the command name as literal text, while the source splices the name into its pattern unescaped (commands/Commands.js:49). The two readings differ only for names with regular-expression syntax characters. The search only runs for `label` and `assign`, which have none.
- Concurrency: `Promise.all` over the tasks of one rule (commands/Commands.js:99) and over the rules (line 105) is not modelled. Operations are results in push order, and each rule's outcome is kept separately. The relative completion order of dispatched operations is not captured.
- The issue-tracker client is not modelled. The calls it makes are represented by `Op` values; `getIssue` becomes the `fetched` parameter of `Driver.Run`.
- The collaborators are uninterpreted functions of `Platform`: `hasWriteAccess`, `hydrate`, and the test of a user-supplied `command.regex`.
- `new RegExp(command.regex)` throwing on an invalid user pattern is not modelled, because the regex test is an uninterpreted total function.
- `safeLog` (line 45) is logging only.
- Case-insensitive matching folds ASCII letters only. The `i` flag also folds other letters; that is not modelled, because it needs Unicode case tables.
- Strings are sequences of characters, not UTF-16 code units, so indexes into text with surrogate pairs are not modelled.
- An action carrying both a `label` and a `comment` field is not modelled. The event is one or the other.
- Matcher.PatternFinds decides only the pattern family that `(/|\\)` + escaped name + `(\s|$)` produces, which is every pattern the matcher builds; a general regular-expression engine is left out.
- `english-please/EnglishPlease.js` is not part of this model. It rests on HTTP calls to a translation service, Unicode character classes and a floating-point threshold.
- `triage/index.js` and `triage/index.ts` are not part of this model. They are a timer, a remote lookup and a random shuffle.
- `locker/Locker.test.ts` is not part of this model. It tests a class whose source is not part of the repository files modelled here.
