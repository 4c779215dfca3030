/**
 * `escapeRegExp`: the sanitisation applied to a command name before it is
 * spliced into a regular expression, and the literal text a pattern made
 * only of plain characters and escaped syntax characters stands for.
 */
module RegExpEscape {
  import opened Wrappers

  /** The characters `escapeRegExp` prefixes with a backslash: `.*+?^${}()|[]\`. */
  predicate IsSyntaxChar(c: char)
  {
    c in ".*+?^${}()|[]\\"
  }

  /** `string.replace(/[.*+?^${}()|[\]\\]/g, '\\$&')`. */
  function Escape(s: string): (r: string)
    ensures |s| <= |r| <= 2 * |s|
    ensures (forall k :: 0 <= k < |s| ==> !IsSyntaxChar(s[k])) ==> r == s
  {
    if s == [] then []
    else (if IsSyntaxChar(s[0]) then ['\\', s[0]] else [s[0]]) + Escape(s[1..])
  }

  /**
   * The text a regular expression source denotes when it is a plain
   * literal: each `\` followed by a syntax character stands for that
   * character, each other non-syntax character for itself. `None` when
   * the source uses any regular-expression operator, a bare syntax
   * character, or a backslash escape of anything else (`\d`, `\s`, ...).
   */
  function Unescape(p: string): (r: Option<string>)
    ensures r.Some? ==> |r.value| <= |p|
  {
    if p == [] then Some([])
    else if p[0] == '\\' then
      if |p| >= 2 && IsSyntaxChar(p[1]) then
        match Unescape(p[2..])
        case None => None
        case Some(rest) => Some([p[1]] + rest)
      else None
    else if IsSyntaxChar(p[0]) then None
    else
      match Unescape(p[1..])
      case None => None
      case Some(rest) => Some([p[0]] + rest)
  }

  /** Escaping turns any name into a pure literal that stands for exactly that name. */
  lemma {:induction false} UnescapeEscape(s: string)
    ensures Unescape(Escape(s)) == Some(s)
  {
    if s != [] {
      UnescapeEscape(s[1..]);
      var p := Escape(s);
      if IsSyntaxChar(s[0]) {
        assert p[0] == '\\' && p[1] == s[0] && p[2..] == Escape(s[1..]);
      } else {
        assert p[0] == s[0] && p[1..] == Escape(s[1..]);
      }
      assert [s[0]] + s[1..] == s;
    }
  }

  /** Escaping is injective: two names give the same pattern only if they are equal. */
  lemma EscapeInjective(s: string, t: string)
    requires Escape(s) == Escape(t)
    ensures s == t
  {
    UnescapeEscape(s);
    UnescapeEscape(t);
  }
}
