/**
 * `Commands.matches`: whether one configured command applies to the
 * triggering event, given the issue snapshot.
 */
module Matcher {
  import opened Wrappers
  import opened JsString
  import opened CommandModel
  import opened RegExpEscape

  /** The regular expression source before the command name: `(/|\\)`. */
  const SlashGroup: string := "(/|\\\\)"
  /** The regular expression source after the command name: `(\s|$)`. */
  const EndGroup: string := "(\\s|$)"

  /** The pattern the matcher builds for a comment command. */
  function CommandPattern(name: string): string
  {
    SlashGroup + Escape(name) + EndGroup
  }

  predicate IsSlash(c: char)
  {
    c == '/' || c == '\\'
  }

  /** `/lit` or `\lit` at index `j`, case-insensitively, followed by whitespace or the end. */
  predicate CommandTokenAt(text: string, lit: string, j: nat)
  {
    j + 1 + |lit| <= |text|
    && IsSlash(text[j])
    && EqualsIgnoreCase(text[j + 1..j + 1 + |lit|], lit)
    && (j + 1 + |lit| == |text| || IsWhitespace(text[j + 1 + |lit|]))
  }

  /**
   * `text.match(new RegExp(pattern, 'i'))` for the pattern family
   * `(/|\\)` LITERAL `(\s|$)` that `CommandPattern` produces; any other
   * pattern is reported as not matching.
   */
  predicate PatternFinds(pattern: string, text: string)
  {
    |pattern| >= |SlashGroup| + |EndGroup|
    && pattern[..|SlashGroup|] == SlashGroup
    && pattern[|pattern| - |EndGroup|..] == EndGroup
    && match Unescape(pattern[|SlashGroup|..|pattern| - |EndGroup|])
       case None => false
       case Some(lit) => exists j | 0 <= j < |text| :: CommandTokenAt(text, lit, j)
  }

  /** Neither `requireLabel` is missing from the issue nor `disallowLabel` present on it. */
  predicate GatePasses(c: Command, issue: Issue)
  {
    !(Truthy(c.requireLabel) && c.requireLabel.value !in issue.labels)
    && !(Truthy(c.disallowLabel) && c.disallowLabel.value in issue.labels)
  }

  /** The commenter may run a comment command. */
  predicate Authorized(p: Platform, c: Command, user: string, issue: Issue)
  {
    p.hasWriteAccess(user)
    || Includes(c.allowUsers, user)
    || Includes(c.allowUsers, "*")
    || (user == issue.author && Includes(c.allowUsers, "@author"))
  }

  /** `Commands.matches(command, issue)` for the event `e`. */
  function Matches(p: Platform, c: Command, e: Event, issue: Issue): (r: bool)
    ensures r ==> GatePasses(c, issue)
    ensures r ==> (c.kind == LabelRule <==> e.LabelEvent?)
  {
    if Truthy(c.requireLabel) && c.requireLabel.value !in issue.labels then false
    else if Truthy(c.disallowLabel) && c.disallowLabel.value in issue.labels then false
    else
      match e
      case LabelEvent(applied) =>
        c.kind == LabelRule
        && (applied == c.name || (Truthy(c.regex) && p.regexTest(c.regex.value, applied)))
      case CommentEvent(text, user) =>
        c.kind == CommentRule
        && PatternFinds(CommandPattern(c.name), text)
        && Authorized(p, c, user, issue)
  }

  /** A label event is matched exactly by label rules whose name or regex accepts the label. */
  lemma LabelEventMatch(p: Platform, c: Command, applied: string, issue: Issue)
    ensures Matches(p, c, LabelEvent(applied), issue)
        <==> GatePasses(c, issue) && c.kind == LabelRule
             && (applied == c.name || (Truthy(c.regex) && p.regexTest(c.regex.value, applied)))
  {
  }

  /** The escaped pattern finds exactly the `/name` tokens of the raw name. */
  lemma PatternFindsName(name: string, text: string)
    ensures PatternFinds(CommandPattern(name), text)
        <==> exists j | 0 <= j < |text| :: CommandTokenAt(text, name, j)
  {
    var pat := CommandPattern(name);
    var esc := Escape(name);
    assert pat[..|SlashGroup|] == SlashGroup;
    assert pat[|pat| - |EndGroup|..] == EndGroup;
    assert pat[|SlashGroup|..|pat| - |EndGroup|] == esc;
    UnescapeEscape(name);
  }

  /**
   * A comment event is matched exactly by comment rules whose name appears
   * as a `/name` or `\name` token (any ASCII case, then whitespace or the
   * end) and whose commenter is authorized.
   */
  lemma CommentEventMatch(p: Platform, c: Command, text: string, user: string, issue: Issue)
    ensures Matches(p, c, CommentEvent(text, user), issue)
        <==> GatePasses(c, issue) && c.kind == CommentRule
             && (exists j | 0 <= j < |text| :: CommandTokenAt(text, c.name, j))
             && Authorized(p, c, user, issue)
  {
    PatternFindsName(c.name, text);
  }

  /** A comment that opens with `/name`, then whitespace or its end, runs a gated-in comment command for an authorized commenter. */
  lemma CommandAtStart(p: Platform, c: Command, rest: string, user: string, issue: Issue)
    requires c.kind == CommentRule && GatePasses(c, issue) && Authorized(p, c, user, issue)
    requires rest == [] || IsWhitespace(rest[0])
    ensures Matches(p, c, CommentEvent("/" + c.name + rest, user), issue)
  {
    var text := "/" + c.name + rest;
    assert text[1..1 + |c.name|] == c.name;
    assert 1 + |c.name| < |text| ==> text[1 + |c.name|] == rest[0];
    assert CommandTokenAt(text, c.name, 0);
    CommentEventMatch(p, c, text, user, issue);
  }
}
