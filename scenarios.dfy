/**
 * End-to-end behaviour of the engine: what particular comments and
 * commands match and dispatch.
 */
module Scenarios {
  import opened Wrappers
  import opened JsString
  import opened CommandModel
  import opened RegExpEscape
  import opened Matcher
  import opened ArgParser
  import opened Resolver

  /** A command with only its type and name set. */
  function Rule(kind: RuleKind, name: string): Command
  {
    Command(kind, name, None, None, None, None, None, None, None, None, None, None)
  }

  /** A label rule named `bug` without a regex matches the label `bug` and not `bugfix`. */
  lemma LabelRuleMatchesExactName(p: Platform, issue: Issue)
    ensures Matches(p, Rule(LabelRule, "bug"), LabelEvent("bug"), issue)
    ensures !Matches(p, Rule(LabelRule, "bug"), LabelEvent("bugfix"), issue)
  {
    assert "bugfix" != "bug";
  }

  /** Without `allowUsers`, `/close` runs the `close` command exactly for a user with write access. */
  lemma CloseCommandNeedsWriteAccess(p: Platform, user: string, issue: Issue)
    ensures Matches(p, Rule(CommentRule, "close"), CommentEvent("/close", user), issue) <==> p.hasWriteAccess(user)
  {
    var c := Rule(CommentRule, "close");
    assert "/close" == "/" + c.name + "";
    if p.hasWriteAccess(user) {
      CommandAtStart(p, c, "", user, issue);
    } else {
      CommentEventMatch(p, c, "/close", user, issue);
    }
  }

  /** `/closer` is not the `close` command: the name must end at whitespace or the end of the comment. */
  lemma CloserIsNotClose(p: Platform, user: string, issue: Issue)
    ensures !Matches(p, Rule(CommentRule, "close"), CommentEvent("/closer", user), issue)
  {
    var c := Rule(CommentRule, "close");
    var text := "/closer";
    forall j | 0 <= j < |text| ensures !CommandTokenAt(text, "close", j) {
      if j == 0 {
        assert !IsWhitespace(text[6]);
      } else {
        assert !IsSlash(text[j]);
      }
    }
    CommentEventMatch(p, c, text, user, issue);
  }

  /** Regrouping a concatenation of four strings. */
  lemma Assoc4(a: string, b: string, c: string, d: string)
    ensures a + b + c + d == a + (b + c + d)
  {
  }

  /** A single added `/label` argument adds that one label. */
  lemma AddOneLabel(q: string)
    ensures ArgOps("label", [Arg(Add, q)]) == [AddLabel(q)]
  {
    LabelArgOpsOnly([Arg(Add, q)]);
    assert LabelArgOps([Arg(Add, q)])[0] == AddLabel(q);
  }

  /** The literal prefix `/label ` split into slash, keyword and space. */
  lemma LabelPrefix()
    ensures "/label " == "/" + "label" + " "
  {
  }

  /** The literal prefix `/label "` split into slash, keyword, space and quote. */
  lemma LabelQuotePrefix()
    ensures "/label \"" == "/" + "label" + " " + "\""
  {
  }

  /** The argument list of `/label` followed by plain words parses into one argument per word. */
  lemma LabelWordsParse(ws: seq<string>)
    requires forall i :: 0 <= i < |ws| ==> PlainWord(ws[i])
    ensures Tokenize(ArgListOf("/label " + JoinWords(ws), "label")) == Ok(WordArgs(ws))
  {
    var words := JoinWords(ws);
    JoinWordsSingleLine(ws);
    JoinWordsEdges(ws);
    LabelPrefix();
    ArgListAfterSpace("label", words);
    TokenizeWords(ws);
  }

  /**
   * `/label` followed by space-separated plain words, from an authorized
   * commenter, adds each word's label and removes each `-word`'s, in order,
   * before the command's field operations.
   */
  lemma LabelCommandWords(p: Platform, c: Command, ws: seq<string>, user: string, issue: Issue)
    requires c.kind == CommentRule && c.name == "label"
    requires GatePasses(c, issue) && Authorized(p, c, user, issue)
    requires forall i :: 0 <= i < |ws| ==> PlainWord(ws[i])
    ensures Resolve(p, c, CommentEvent("/label " + JoinWords(ws), user), issue)
         == Ok(LabelArgOps(WordArgs(ws)) + FieldOps(p, c, issue))
  {
    var e := CommentEvent("/label " + JoinWords(ws), user);
    LabelWordsMatch(p, c, ws, user, issue);
    LabelWordsParse(ws);
    LabelArgOpsOnly(WordArgs(ws));
    ResolveParsed(p, c, e, issue, WordArgs(ws));
  }

  /** A `/label` comment followed by words runs an authorized, gated-in `label` comment command. */
  lemma LabelWordsMatch(p: Platform, c: Command, ws: seq<string>, user: string, issue: Issue)
    requires c.kind == CommentRule && c.name == "label"
    requires GatePasses(c, issue) && Authorized(p, c, user, issue)
    ensures Matches(p, c, CommentEvent("/label " + JoinWords(ws), user), issue)
  {
    var rest := " " + JoinWords(ws);
    assert "/label " + JoinWords(ws) == "/" + c.name + rest by {
      LabelPrefix();
      AppendAssoc("/" + "label", " ", JoinWords(ws));
    }
    CommandAtStart(p, c, rest, user, issue);
  }

  /** A quoted argument list is the single argument between the quotes. */
  lemma QuotedTokens(q: string)
    requires '"' !in q
    ensures Tokenize("\"" + q + "\"") == Ok([Arg(Add, q)])
  {
    assert "\"" + q + "\"" == "" + "\"" + q + "\"" + "";
    TokenizeQuoted("", q, "");
    assert TaskOf("") == Add;
    assert Trim("") == "";
    assert [Arg(Add, q)] + [] == [Arg(Add, q)];
  }

  /** The argument list of `/label "q"` parses into the single argument `q`. */
  lemma LabelQuotedParse(q: string)
    requires '"' !in q && forall k :: 0 <= k < |q| ==> !IsLineTerminator(q[k])
    ensures Tokenize(ArgListOf("/label \"" + q + "\"", "label")) == Ok([Arg(Add, q)])
  {
    var quoted := "\"" + q + "\"";
    forall k | 0 <= k < |quoted| ensures !IsLineTerminator(quoted[k]) {
      if 0 < k < |quoted| - 1 { assert quoted[k] == q[k - 1]; }
    }
    assert "/label \"" + q + "\"" == "/" + "label" + " " + quoted by {
      LabelQuotePrefix();
      Assoc4("/" + "label" + " ", "\"", q, "\"");
    }
    ArgListAfterSpace("label", quoted);
    QuotedTokens(q);
  }

  /** `/label "q"` adds the single label `q`, spaces included, before the command's field operations. */
  lemma LabelCommandQuoted(p: Platform, c: Command, q: string, user: string, issue: Issue)
    requires c.kind == CommentRule && c.name == "label"
    requires GatePasses(c, issue) && Authorized(p, c, user, issue)
    requires '"' !in q && forall k :: 0 <= k < |q| ==> !IsLineTerminator(q[k])
    ensures Resolve(p, c, CommentEvent("/label \"" + q + "\"", user), issue)
         == Ok([AddLabel(q)] + FieldOps(p, c, issue))
  {
    var e := CommentEvent("/label \"" + q + "\"", user);
    LabelQuotedMatch(p, c, q, user, issue);
    LabelQuotedParse(q);
    AddOneLabel(q);
    ResolveParsed(p, c, e, issue, [Arg(Add, q)]);
  }

  /** A `/label "q"` comment runs an authorized, gated-in `label` comment command. */
  lemma LabelQuotedMatch(p: Platform, c: Command, q: string, user: string, issue: Issue)
    requires c.kind == CommentRule && c.name == "label"
    requires GatePasses(c, issue) && Authorized(p, c, user, issue)
    ensures Matches(p, c, CommentEvent("/label \"" + q + "\"", user), issue)
  {
    var rest := " \"" + q + "\"";
    assert "/label \"" + q + "\"" == "/" + c.name + rest by {
      LabelQuotePrefix();
      Assoc4("/" + "label", " ", "\"", q);
      AppendAssoc("/" + "label", " " + "\"" + q, "\"");
    }
    CommandAtStart(p, c, rest, user, issue);
  }

  /** Two single-line strings joined are single-line. */
  lemma SingleLineAppend(a: string, b: string)
    requires forall k :: 0 <= k < |a| ==> !IsLineTerminator(a[k])
    requires forall k :: 0 <= k < |b| ==> !IsLineTerminator(b[k])
    ensures forall k :: 0 <= k < |a + b| ==> !IsLineTerminator((a + b)[k])
  {
  }

  /** The literal shape of a `/label` comment with words and then a quoted label. */
  lemma WordsQuotedText(words: string, q: string)
    ensures "/label " + words + " \"" + q + "\"" == "/" + "label" + " " + (words + " " + ("\"" + q + "\""))
  {
    LabelPrefix();
  }

  /** Plain words, a space and a quoted label form a single line that starts and ends with non-whitespace. */
  lemma WordsQuotedTail(ws: seq<string>, q: string)
    requires ws != [] && forall i :: 0 <= i < |ws| ==> PlainWord(ws[i])
    requires '"' !in q && forall k :: 0 <= k < |q| ==> !IsLineTerminator(q[k])
    ensures var tail := JoinWords(ws) + " " + ("\"" + q + "\"");
      && (forall k :: 0 <= k < |tail| ==> !IsLineTerminator(tail[k]))
      && tail != [] && !IsWhitespace(tail[0]) && !IsWhitespace(tail[|tail| - 1])
  {
    var words := JoinWords(ws);
    var quoted := "\"" + q + "\"";
    JoinWordsSingleLine(ws);
    SingleLineAppend("\"", q);
    SingleLineAppend("\"" + q, "\"");
    SingleLineAppend(words, " ");
    SingleLineAppend(words + " ", quoted);
    assert PlainWord(ws[0]);
    JoinWordsEdges(ws);
    assert (words + " " + quoted)[0] == words[0];
  }

  /** The argument list of `/label` followed by plain words and a quoted label parses into the words' arguments, then the label. */
  lemma LabelWordsQuotedParse(ws: seq<string>, q: string)
    requires ws != [] && forall i :: 0 <= i < |ws| ==> PlainWord(ws[i])
    requires '"' !in q && forall k :: 0 <= k < |q| ==> !IsLineTerminator(q[k])
    ensures Tokenize(ArgListOf("/label " + JoinWords(ws) + " \"" + q + "\"", "label"))
         == Ok(WordArgs(ws) + [Arg(Add, q)])
  {
    var quoted := "\"" + q + "\"";
    WordsQuotedText(JoinWords(ws), q);
    WordsQuotedTail(ws, q);
    ArgListAfterSpace("label", JoinWords(ws) + " " + quoted);
    TokenizeWordsThen(ws, quoted);
    QuotedTokens(q);
  }

  /** A `/label` comment with words and then a quoted label runs an authorized, gated-in `label` comment command. */
  lemma LabelWordsQuotedMatch(p: Platform, c: Command, ws: seq<string>, q: string, user: string, issue: Issue)
    requires c.kind == CommentRule && c.name == "label"
    requires GatePasses(c, issue) && Authorized(p, c, user, issue)
    ensures Matches(p, c, CommentEvent("/label " + JoinWords(ws) + " \"" + q + "\"", user), issue)
  {
    var rest := " " + (JoinWords(ws) + " " + ("\"" + q + "\""));
    assert "/label " + JoinWords(ws) + " \"" + q + "\"" == "/" + c.name + rest by {
      WordsQuotedText(JoinWords(ws), q);
      AppendAssoc("/" + "label", " ", JoinWords(ws) + " " + ("\"" + q + "\""));
    }
    CommandAtStart(p, c, rest, user, issue);
  }

  /** Appending one added argument appends one added label. */
  lemma LabelArgOpsThenAdd(args: seq<Arg>, q: string)
    ensures LabelArgOps(args + [Arg(Add, q)]) == LabelArgOps(args) + [AddLabel(q)]
  {
    var l := LabelArgOps(args + [Arg(Add, q)]);
    assert forall i :: 0 <= i < |args| ==> l[i] == LabelArgOp(args[i]) == LabelArgOps(args)[i];
    assert l[|args|] == AddLabel(q);
  }

  /**
   * `/label` followed by plain words and then a quoted label, from an
   * authorized commenter, applies the words' label changes in order, then
   * adds the quoted label, before the command's field operations: with
   * the words `bug` and `-wontfix` and the label `needs info`, it adds
   * `bug`, removes `wontfix` and adds `needs info`.
   */
  lemma LabelCommandWordsQuoted(p: Platform, c: Command, ws: seq<string>, q: string, user: string, issue: Issue)
    requires c.kind == CommentRule && c.name == "label"
    requires GatePasses(c, issue) && Authorized(p, c, user, issue)
    requires ws != [] && forall i :: 0 <= i < |ws| ==> PlainWord(ws[i])
    requires '"' !in q && forall k :: 0 <= k < |q| ==> !IsLineTerminator(q[k])
    ensures Resolve(p, c, CommentEvent("/label " + JoinWords(ws) + " \"" + q + "\"", user), issue)
         == Ok(LabelArgOps(WordArgs(ws)) + [AddLabel(q)] + FieldOps(p, c, issue))
  {
    var e := CommentEvent("/label " + JoinWords(ws) + " \"" + q + "\"", user);
    var args := WordArgs(ws) + [Arg(Add, q)];
    LabelWordsQuotedMatch(p, c, ws, q, user, issue);
    LabelWordsQuotedParse(ws, q);
    LabelArgOpsOnly(args);
    LabelArgOpsThenAdd(WordArgs(ws), q);
    ResolveParsed(p, c, e, issue, args);
  }

  /**
   * A command other than `label` and `assign` with `action: 'close'`, a
   * reason and a comment, and no label or assignee fields, run as `/name`
   * by an authorized commenter, closes the issue with that reason and posts
   * the hydrated comment while the issue is open; once it is closed it only
   * closes it.
   */
  lemma CloseCommandWithComment(p: Platform, c: Command, user: string, issue: Issue, reason: string)
    requires c.kind == CommentRule && c.name != "label" && c.name != "assign"
    requires GatePasses(c, issue) && Authorized(p, c, user, issue)
    requires c.action == Some("close") && c.reason == Some(reason) && Truthy(c.comment)
    requires !Truthy(c.addLabel) && !Truthy(c.removeLabel) && c.assign.None?
    ensures Resolve(p, c, CommentEvent("/" + c.name, user), issue)
         == Ok([CloseIssue(reason)]
               + (if issue.open then [PostComment(p.hydrate(c.comment.value, issue))] else []))
  {
    var e := CommentEvent("/" + c.name, user);
    assert "/" + c.name == "/" + c.name + "";
    CommandAtStart(p, c, "", user, issue);
    assert !ParsesArgs(c, e);
    var closed := [CloseIssue(reason)];
    assert PushClose([], c) == closed;
    var posted := closed + (if issue.open then [PostComment(p.hydrate(c.comment.value, issue))] else []);
    assert PushComment(closed, p, c, issue) == posted;
    assert FieldOps(p, c, issue) == posted;
  }

  /** `/LABEL x` runs the `label` command, since the match ignores case. */
  lemma UppercaseLabelCommandMatches(p: Platform, user: string, issue: Issue)
    ensures Matches(p, Rule(CommentRule, "label").(allowUsers := Some(["*"])), CommentEvent("/LABEL x", user), issue)
  {
    var c := Rule(CommentRule, "label").(allowUsers := Some(["*"]));
    var text := "/LABEL x";
    assert CommandTokenAt(text, "label", 0);
    assert Includes(c.allowUsers, "*");
    CommentEventMatch(p, c, text, user, issue);
  }

  /** The argument search is case-sensitive, so `/LABEL x` has no argument list. */
  lemma UppercaseLabelHasNoArgList()
    ensures ArgListOf("/LABEL x", "label") == ""
  {
    var text := "/LABEL x";
    forall j: nat ensures !KeywordAt(text, "label", j) {
      if j + 6 <= |text| {
        assert text[j + 1] != 'l';
      }
    }
    assert FindKeyword(text, "label", 0) == None;
  }

  /** `/LABEL x` dispatches nothing: the command matches but finds no arguments. */
  lemma UppercaseLabelCommandDispatchesNothing(p: Platform, user: string, issue: Issue)
    ensures Resolve(p, Rule(CommentRule, "label").(allowUsers := Some(["*"])), CommentEvent("/LABEL x", user), issue) == Ok([])
  {
    var c := Rule(CommentRule, "label").(allowUsers := Some(["*"]));
    var text := "/LABEL x";
    UppercaseLabelCommandMatches(p, user, issue);
    UppercaseLabelHasNoArgList();
    assert Tokenize("") == Ok([]);
    ResolveLabelArgs(p, c, text, user, issue, []);
    assert FieldOps(p, c, issue) == [];
  }

  /** After `-` a space is kept: `- foo` parses into the removal of ` foo`. */
  lemma DashThenSpaceKeepsSpace()
    ensures Tokenize("- foo") == Ok([Arg(Remove, " foo")])
  {
    TokenizeLast("-", " foo");
    assert "- foo" == "-" + " foo";
  }

  /** The literal prefix `/label - ` split into slash, keyword, space and the dash-space of the argument list. */
  lemma DashSpacePrefix()
    ensures "/label - " == "/" + "label" + " " + "- "
  {
  }

  /** The argument list of `/label - w` is `- w`. */
  lemma DashSpaceArgList(w: string)
    requires w != [] && forall k :: 0 <= k < |w| ==> !IsWhitespace(w[k])
    ensures ArgListOf("/label - " + w, "label") == "- " + w
  {
    var list := "- " + w;
    assert "/label - " + w == "/" + "label" + " " + list by {
      DashSpacePrefix();
      Assoc4("/" + "label", " ", "- ", w);
    }
    forall k | 0 <= k < |list| ensures !IsLineTerminator(list[k]) {
      if k >= 2 { assert list[k] == w[k - 2]; }
    }
    assert list[|list| - 1] == w[|w| - 1];
    ArgListAfterSpace("label", list);
  }

  /** The argument list of `/label - w` parses into the removal of ` w`. */
  lemma DashSpaceParse(w: string)
    requires w != [] && forall k :: 0 <= k < |w| ==> !IsWhitespace(w[k])
    ensures Tokenize(ArgListOf("/label - " + w, "label")) == Ok([Arg(Remove, " " + w)])
  {
    DashSpaceArgList(w);
    DashSpaceTokens(w);
  }

  /** `- w` parses into the removal of ` w`, the space kept. */
  lemma DashSpaceTokens(w: string)
    requires w != [] && forall k :: 0 <= k < |w| ==> !IsWhitespace(w[k])
    ensures Tokenize("- " + w) == Ok([Arg(Remove, " " + w)])
  {
    var spaced := " " + w;
    forall k | 1 <= k < |spaced| ensures spaced[k] != ' ' {
      assert spaced[k] == w[k - 1];
    }
    TokenizeLast("-", spaced);
    assert "- " + w == "-" + spaced;
  }

  /** `/label - w` runs an authorized, gated-in `label` comment command. */
  lemma DashSpaceMatch(p: Platform, c: Command, w: string, user: string, issue: Issue)
    requires c.kind == CommentRule && c.name == "label"
    requires GatePasses(c, issue) && Authorized(p, c, user, issue)
    ensures Matches(p, c, CommentEvent("/label - " + w, user), issue)
  {
    var rest := " - " + w;
    assert "/label - " + w == "/" + c.name + rest by {
      assert "/label - " == "/" + "label" + " - ";
      AppendAssoc("/" + "label", " - ", w);
    }
    CommandAtStart(p, c, rest, user, issue);
  }

  /**
   * After `-` a space is kept all the way to the dispatched operation:
   * `/label - foo` removes the label ` foo`, leading space included, and
   * then dispatches the command's field operations.
   */
  lemma DashSpaceRemovesSpacedLabel(p: Platform, c: Command, w: string, user: string, issue: Issue)
    requires c.kind == CommentRule && c.name == "label"
    requires GatePasses(c, issue) && Authorized(p, c, user, issue)
    requires w != [] && forall k :: 0 <= k < |w| ==> !IsWhitespace(w[k])
    ensures Resolve(p, c, CommentEvent("/label - " + w, user), issue)
         == Ok([RemoveLabel(" " + w)] + FieldOps(p, c, issue))
  {
    var e := CommentEvent("/label - " + w, user);
    DashSpaceMatch(p, c, w, user, issue);
    DashSpaceParse(w);
    RemoveOneLabel(" " + w);
    ResolveParsed(p, c, e, issue, [Arg(Remove, " " + w)]);
  }

  /** A single removing `/label` argument removes that one label. */
  lemma RemoveOneLabel(q: string)
    ensures ArgOps("label", [Arg(Remove, q)]) == [RemoveLabel(q)]
  {
    LabelArgOpsOnly([Arg(Remove, q)]);
    assert LabelArgOps([Arg(Remove, q)])[0] == RemoveLabel(q);
  }
}
