/**
 * `Commands.run`: fetch the issue once and perform every configured
 * command against that one snapshot.
 */
module Driver {
  import opened Wrappers
  import opened CommandModel
  import opened Matcher
  import opened ArgParser
  import opened Resolver

  /** What `perform` did for one command: the operations it dispatched, or the error it threw. */
  type Performed = Result<seq<Op>, ParseError>

  /**
   * The outcome of `run`: nothing when no issue was fetched, otherwise the
   * outcome of `perform` for each command, in configuration order.
   */
  datatype RunOutcome = NoIssue | Ran(results: seq<Performed>)

  /** Every operation dispatched in the run: those of each command whose `perform` did not throw. */
  function Dispatched(results: seq<Performed>): seq<Op>
  {
    if results == [] then []
    else (if results[0].Ok? then results[0].value else []) + Dispatched(results[1..])
  }

  /** `Promise.all` over the commands rejects: some `perform` threw. */
  predicate Rejected(results: seq<Performed>)
  {
    exists i | 0 <= i < |results| :: results[i].Err?
  }

  /** `commands.map(f)`: the outcome of `f` for each command, in configuration order. */
  function MapCommands(f: Command -> Performed, config: seq<Command>): (r: seq<Performed>)
    ensures |r| == |config|
    ensures forall i :: 0 <= i < |config| ==> r[i] == f(config[i])
  {
    if config == [] then []
    else MapCommands(f, config[..|config| - 1]) + [f(config[|config| - 1])]
  }

  /** `Commands.run()`. */
  method Run(p: Platform, config: seq<Command>, e: Event, fetched: Option<Issue>) returns (outcome: RunOutcome)
    ensures fetched.None? ==> outcome == NoIssue
    ensures fetched.Some? ==> outcome.Ran? && |outcome.results| == |config|
    ensures fetched.Some? ==>
      forall i :: 0 <= i < |config| ==> outcome.results[i] == Resolve(p, config[i], e, fetched.value)
  {
    if fetched.None? {
      return NoIssue;
    }
    var issue := fetched.value;
    ghost var perform := (c: Command) => Resolve(p, c, e, issue);
    var results: seq<Performed> := [];
    for i := 0 to |config|
      invariant results == MapCommands(perform, config[..i])
    {
      var r := Perform(p, config[i], e, issue);
      assert r == perform(config[i]);
      assert config[..i + 1][..i] == config[..i];
      results := results + [r];
    }
    assert config[..|config|] == config;
    return Ran(results);
  }

  /** The commands are independent: the run over two lists of outcomes dispatches the two runs' operations. */
  lemma {:induction false} DispatchedAppend(a: seq<Performed>, b: seq<Performed>)
    ensures Dispatched(a + b) == Dispatched(a) + Dispatched(b)
  {
    if a != [] {
      var head := if a[0].Ok? then a[0].value else [];
      assert (a + b)[0] == a[0] && (a + b)[1..] == a[1..] + b;
      assert Dispatched(a + b) == head + Dispatched(a[1..] + b);
      DispatchedAppend(a[1..], b);
      assert head + (Dispatched(a[1..]) + Dispatched(b)) == head + Dispatched(a[1..]) + Dispatched(b);
    } else {
      assert a + b == b;
    }
  }

  /** A command that throws does not cancel another: every operation of a command that resolved is dispatched. */
  lemma {:induction false} DispatchedKeepsResolved(results: seq<Performed>, i: nat, op: Op)
    requires i < |results| && results[i].Ok? && op in results[i].value
    ensures op in Dispatched(results)
  {
    if i > 0 {
      DispatchedKeepsResolved(results[1..], i - 1, op);
    }
  }

  /** Every dispatched operation belongs to the outcome of some command that resolved. */
  lemma {:induction false} DispatchedComesFromResolved(results: seq<Performed>, op: Op)
    requires op in Dispatched(results)
    ensures exists i :: 0 <= i < |results| && results[i].Ok? && op in results[i].value
  {
    if results != [] {
      if !(results[0].Ok? && op in results[0].value) {
        DispatchedComesFromResolved(results[1..], op);
        var i :| 0 <= i < |results[1..]| && results[1..][i].Ok? && op in results[1..][i].value;
        assert results[i + 1] == results[1..][i];
      }
    }
  }

  /** Every operation of a run comes from a command that matches the event on the shared snapshot. */
  lemma RunDispatchesOnlyMatched(p: Platform, config: seq<Command>, e: Event, issue: Issue,
                                 results: seq<Performed>, op: Op)
    requires |results| == |config|
    requires forall i :: 0 <= i < |config| ==> results[i] == Resolve(p, config[i], e, issue)
    requires op in Dispatched(results)
    ensures exists i :: 0 <= i < |config| && Matches(p, config[i], e, issue) && results[i].Ok? && op in results[i].value
  {
    DispatchedComesFromResolved(results, op);
    var i :| 0 <= i < |results| && results[i].Ok? && op in results[i].value;
    ResolvedOpMatched(p, config[i], e, issue, op);
  }

  /** The run rejects exactly when some matched `label` or `assign` comment command has an unterminated quote. */
  lemma RunRejects(p: Platform, config: seq<Command>, e: Event, issue: Issue, results: seq<Performed>)
    requires |results| == |config|
    requires forall i :: 0 <= i < |config| ==> results[i] == Resolve(p, config[i], e, issue)
    ensures Rejected(results)
        <==> exists i :: 0 <= i < |config| && Matches(p, config[i], e, issue) && ParsesArgs(config[i], e)
                         && Tokenize(ArgListOf(e.comment, config[i].name)).Err?
  {
    forall i | 0 <= i < |config| {
      ResolveFails(p, config[i], e, issue);
    }
  }
}
