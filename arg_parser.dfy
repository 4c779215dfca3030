/**
 * The inline argument list of the `label` and `assign` commands: where it
 * is found in the comment, and how it is split into add/remove arguments.
 */
module ArgParser {
  import opened Wrappers
  import opened JsString

  datatype Task = Add | Remove

  /** One parsed argument `{ task, name }`. */
  datatype Arg = Arg(task: Task, name: string)

  /** The error thrown when a quoted argument has no closing double quote. */
  datatype ParseError = UnmatchedQuote

  /*
   * Locating the argument list:
   * `comment.match(/(?:^|\s)(?:\\|\/)NAME(.*)(?:\r)?(?:\n|$)/)?.[1] ?? ''`,
   * with NAME spliced in unescaped and no `i` flag.
   */

  /** The first line terminator at or after `q`, or the end of `s`: where `.*` stops. */
  function LineEnd(s: string, q: nat): (e: nat)
    requires q <= |s|
    decreases |s| - q
    ensures q <= e <= |s|
    ensures forall k :: q <= k < e ==> !IsLineTerminator(s[k])
    ensures e < |s| ==> IsLineTerminator(s[e])
  {
    if q == |s| || IsLineTerminator(s[q]) then q else LineEnd(s, q + 1)
  }

  /** `(?:\r)?(?:\n|$)` can follow a `.*` that stopped at `e`. */
  predicate LineClosesAt(s: string, e: nat)
    requires e <= |s|
  {
    e == |s| || s[e] == '\n' || (s[e] == '\r' && (e + 1 == |s| || s[e + 1] == '\n'))
  }

  /**
   * The whole pattern matches with its slash at index `j`. NAME is compared
   * as literal text; the source splices it into the pattern unescaped, and
   * the two readings agree for names without regular-expression syntax
   * characters, which holds for `label` and `assign`, the only names the
   * argument list is read for.
   */
  predicate KeywordAt(s: string, name: string, j: nat)
  {
    j + 1 + |name| <= |s|
    && (j == 0 || IsWhitespace(s[j - 1]))
    && (s[j] == '\\' || s[j] == '/')
    && s[j + 1..j + 1 + |name|] == name
    && LineClosesAt(s, LineEnd(s, j + 1 + |name|))
  }

  /** The leftmost slash index at or after `j` where the pattern matches. */
  function FindKeyword(s: string, name: string, j: nat): (r: Option<nat>)
    decreases |s| - j
    ensures r.Some? ==> j <= r.value && KeywordAt(s, name, r.value)
    ensures r.Some? ==> forall k :: j <= k < r.value ==> !KeywordAt(s, name, k)
    ensures r.None? ==> forall k :: j <= k ==> !KeywordAt(s, name, k)
  {
    if j >= |s| then None
    else if KeywordAt(s, name, j) then Some(j)
    else FindKeyword(s, name, j + 1)
  }

  /** The trimmed argument list following the command keyword, or `""` when the keyword is absent. */
  function ArgListOf(comment: string, name: string): (r: string)
    ensures r == [] || (!IsWhitespace(r[0]) && !IsWhitespace(r[|r| - 1]))
    ensures forall k :: 0 <= k < |r| ==> !IsLineTerminator(r[k])
  {
    match FindKeyword(comment, name, 0)
    case None => ""
    case Some(j) => RestOfLine(comment, name, j)
  }

  /** The capture `(.*)` of the match with its slash at `j`, trimmed. */
  function RestOfLine(comment: string, name: string, j: nat): (r: string)
    requires j + 1 + |name| <= |comment|
    ensures r == [] || (!IsWhitespace(r[0]) && !IsWhitespace(r[|r| - 1]))
    ensures forall k :: 0 <= k < |r| ==> !IsLineTerminator(r[k])
  {
    var q := j + 1 + |name|;
    var e := LineEnd(comment, q);
    NoLineTerminatorSurvivesTrim(comment[q..e]);
    Trim(comment[q..e])
  }

  /** The argument list is the rest of the line after the leftmost match, trimmed. */
  lemma {:induction false} ArgListAtKeyword(comment: string, name: string, j: nat)
    requires KeywordAt(comment, name, j)
    requires forall k :: 0 <= k < j ==> !KeywordAt(comment, name, k)
    ensures ArgListOf(comment, name)
         == Trim(comment[j + 1 + |name|..LineEnd(comment, j + 1 + |name|)])
  {
    FindKeywordAt(comment, name, 0, j);
    ArgListFound(comment, name, j);
  }

  /** Once the search has settled on `j`, the argument list is read from there. */
  lemma {:induction false} ArgListFound(comment: string, name: string, j: nat)
    requires FindKeyword(comment, name, 0) == Some(j)
    ensures ArgListOf(comment, name)
         == Trim(comment[j + 1 + |name|..LineEnd(comment, j + 1 + |name|)])
  {
    assert KeywordAt(comment, name, j);
    assert ArgListOf(comment, name) == RestOfLine(comment, name, j);
  }

  /** The search from `i` stops at the first match `j` at or after `i`. */
  lemma {:induction false} FindKeywordAt(s: string, name: string, i: nat, j: nat)
    requires i <= j && KeywordAt(s, name, j)
    requires forall k :: i <= k < j ==> !KeywordAt(s, name, k)
    ensures FindKeyword(s, name, i) == Some(j)
    decreases j - i
  {
    if i < j {
      FindKeywordAt(s, name, i + 1, j);
    }
  }

  /** Without a match anywhere, the argument list is empty. */
  lemma {:induction false} ArgListAbsent(comment: string, name: string)
    requires forall k: nat :: !KeywordAt(comment, name, k)
    ensures ArgListOf(comment, name) == ""
  {
  }

  /** A keyword at the start stops at the first line break: later lines do not belong to the argument list. */
  lemma {:induction false} ArgListFirstLine(name: string, tail: string, more: string)
    requires forall k :: 0 <= k < |tail| ==> !IsLineTerminator(tail[k])
    ensures ArgListOf("/" + name + tail + "\n" + more, name) == Trim(tail)
  {
    var s := "/" + name + tail + "\n" + more;
    var q := 1 + |name|;
    var e := q + |tail|;
    assert forall k :: q <= k < e ==> s[k] == tail[k - q];
    assert s[e] == '\n';
    assert LineEnd(s, q) == e by { LineEndAt(s, q, e); }
    assert s[1..q] == name;
    assert KeywordAt(s, name, 0);
    assert s[q..e] == tail;
    ArgListAtKeyword(s, name, 0);
  }

  /** `.*` stops at the first line terminator at or after `q`. */
  lemma {:induction false} LineEndAt(s: string, q: nat, e: nat)
    requires q <= e < |s| && IsLineTerminator(s[e])
    requires forall k :: q <= k < e ==> !IsLineTerminator(s[k])
    ensures LineEnd(s, q) == e
    decreases e - q
  {
    if q < e {
      LineEndAt(s, q + 1, e);
    }
  }

  /** Text before the command, ending in whitespace and holding no slash or backslash, does not change the argument list. */
  lemma {:induction false} ArgListAfterText(pre: string, name: string, tail: string)
    requires pre != [] && IsWhitespace(pre[|pre| - 1])
    requires forall k :: 0 <= k < |pre| ==> pre[k] != '/' && pre[k] != '\\'
    requires forall k :: 0 <= k < |tail| ==> !IsLineTerminator(tail[k])
    ensures ArgListOf(pre + "/" + name + tail, name) == Trim(tail)
  {
    var head := pre + "/" + name;
    FindAfterText(pre, name, tail);
    ArgListToEnd(head, tail, name, |pre|);
  }

  /** When the match at `j` ends `head` and `.*` runs to the end, the argument list is the tail, trimmed. */
  lemma {:induction false} ArgListToEnd(head: string, tail: string, name: string, j: nat)
    requires |head| == j + 1 + |name|
    requires FindKeyword(head + tail, name, 0) == Some(j)
    requires LineEnd(head + tail, |head|) == |head + tail|
    ensures ArgListOf(head + tail, name) == Trim(tail)
  {
    ArgListFound(head + tail, name, j);
    assert (head + tail)[|head|..|head + tail|] == tail;
  }

  /** The search settles on the slash that follows the text. */
  lemma {:induction false} FindAfterText(pre: string, name: string, tail: string)
    requires pre != [] && IsWhitespace(pre[|pre| - 1])
    requires forall k :: 0 <= k < |pre| ==> pre[k] != '/' && pre[k] != '\\'
    requires forall k :: 0 <= k < |tail| ==> !IsLineTerminator(tail[k])
    ensures var s := pre + "/" + name + tail;
      FindKeyword(s, name, 0) == Some(|pre|) && LineEnd(s, |pre| + 1 + |name|) == |s|
  {
    KeywordAfterText(pre, name, tail);
    NoKeywordInText(pre, name, tail);
    FindKeywordAt(pre + "/" + name + tail, name, 0, |pre|);
  }

  /** After whitespace-ended text, the command and a single-line tail match, with `.*` running to the end. */
  lemma {:induction false} KeywordAfterText(pre: string, name: string, tail: string)
    requires pre != [] && IsWhitespace(pre[|pre| - 1])
    requires forall k :: 0 <= k < |tail| ==> !IsLineTerminator(tail[k])
    ensures var s := pre + "/" + name + tail;
      KeywordAt(s, name, |pre|) && LineEnd(s, |pre| + 1 + |name|) == |s|
  {
    var s := pre + "/" + name + tail;
    var j := |pre|;
    var q := j + 1 + |name|;
    assert forall k :: q <= k < |s| ==> s[k] == tail[k - q];
    assert s[j + 1..q] == name;
  }

  /** No match can have its slash inside text that holds no slash or backslash. */
  lemma {:induction false} NoKeywordInText(pre: string, name: string, tail: string)
    requires forall k :: 0 <= k < |pre| ==> pre[k] != '/' && pre[k] != '\\'
    ensures forall k :: 0 <= k < |pre| ==> !KeywordAt(pre + "/" + name + tail, name, k)
  {
    var s := pre + "/" + name + tail;
    forall k | 0 <= k < |pre| ensures s[k] != '/' && s[k] != '\\' {
      assert s[k] == pre[k];
    }
  }

  /** Trimming a single-line string leaves it single-line. */
  lemma NoLineTerminatorSurvivesTrim(s: string)
    requires forall k :: 0 <= k < |s| ==> !IsLineTerminator(s[k])
    ensures forall k :: 0 <= k < |Trim(s)| ==> !IsLineTerminator(Trim(s)[k])
  {
    var a := TrimStart(s);
    var i := |s| - |a|;
    var r := TrimEnd(a);
    assert r == s[i..i + |r|] by {
      assert a == s[i..];
      assert r == a[..|r|];
    }
    forall k | 0 <= k < |r| ensures !IsLineTerminator(r[k]) {
      assert r[k] == s[i + k];
    }
  }

  /** A keyword at the very start, followed by a single-line tail, yields that tail trimmed. */
  lemma ArgListAtStart(name: string, tail: string)
    requires forall k :: 0 <= k < |tail| ==> !IsLineTerminator(tail[k])
    ensures ArgListOf("/" + name + tail, name) == Trim(tail)
  {
    var s := "/" + name + tail;
    var q := 1 + |name|;
    SingleLineTail(name, tail);
    assert s[1..q] == name;
    assert KeywordAt(s, name, 0);
    assert s[q..|s|] == tail;
  }

  /** A tail without line terminators runs `.*` to the end of the comment. */
  lemma SingleLineTail(name: string, tail: string)
    requires forall k :: 0 <= k < |tail| ==> !IsLineTerminator(tail[k])
    ensures LineEnd("/" + name + tail, 1 + |name|) == |"/" + name + tail|
  {
    var s := "/" + name + tail;
    var q := 1 + |name|;
    assert forall k :: q <= k < |s| ==> s[k] == tail[k - q];
  }

  /** A keyword at the very start, then a space and a single-line tail without outer whitespace, yields exactly that tail. */
  lemma ArgListAfterSpace(name: string, tail: string)
    requires forall k :: 0 <= k < |tail| ==> !IsLineTerminator(tail[k])
    requires tail == [] || (!IsWhitespace(tail[0]) && !IsWhitespace(tail[|tail| - 1]))
    ensures ArgListOf("/" + name + " " + tail, name) == tail
  {
    var spaced := " " + tail;
    assert "/" + name + " " + tail == "/" + name + spaced;
    forall k | 0 <= k < |spaced| ensures !IsLineTerminator(spaced[k]) {
      if k > 0 { assert spaced[k] == tail[k - 1]; }
    }
    ArgListAtStart(name, spaced);
    assert spaced[1..] == tail;
    TrimUnchanged(tail);
  }

  /*
   * Splitting the argument list: one step of the `while (argList)` loop,
   * and the whole loop as a recursive function.
   */

  /** Prepends one argument to a parse outcome. */
  function Cons(a: Arg, rest: Result<seq<Arg>, ParseError>): Result<seq<Arg>, ParseError>
  {
    match rest
    case Ok(args) => Ok([a] + args)
    case Err(err) => Err(err)
  }

  /** Prepends already parsed arguments to a parse outcome. */
  function Concat(done: seq<Arg>, rest: Result<seq<Arg>, ParseError>): Result<seq<Arg>, ParseError>
  {
    match rest
    case Ok(args) => Ok(done + args)
    case Err(err) => Err(err)
  }

  /** One loop iteration on a non-empty argument list: the argument it pushes and the list it leaves. */
  function Step(s: string): (r: Result<(Arg, string), ParseError>)
    requires s != []
    ensures r.Ok? ==> |r.value.1| < |s|
    ensures r.Ok? ==> (r.value.0.task == Remove <==> s[0] == '-')
  {
    var task := if s[0] == '-' then Remove else Add;
    var t := if task == Remove then s[1..] else s;
    if |t| > 0 && t[0] == '"' then
      match IndexOf(t, '"', 1)
      case None => Err(UnmatchedQuote)
      case Some(e) => Ok((Arg(task, t[1..e]), Trim(t[e + 1..])))
    else
      match IndexOf(t, ' ', 1)
      case None => Ok((Arg(task, t), ""))
      case Some(e) => Ok((Arg(task, t[..e]), Trim(t[e + 1..])))
  }

  /** The arguments the loop collects from `s`, or the error it throws. */
  function Tokenize(s: string): (r: Result<seq<Arg>, ParseError>)
    decreases |s|
  {
    if s == [] then Ok([])
    else
      match Step(s)
      case Err(err) => Err(err)
      case Ok((a, rest)) => Cons(a, Tokenize(rest))
  }

  /** Collecting one more argument commutes with prepending it to the rest. */
  lemma ConcatCons(done: seq<Arg>, a: Arg, rest: Result<seq<Arg>, ParseError>)
    ensures Concat(done + [a], rest) == Concat(done, Cons(a, rest))
  {
    if rest.Ok? {
      assert done + [a] + rest.value == done + ([a] + rest.value);
    }
  }

  /** The argument-list loop of `Commands.perform`. */
  method ParseArgList(argList0: string) returns (r: Result<seq<Arg>, ParseError>)
    ensures r == Tokenize(argList0)
  {
    var args: seq<Arg> := [];
    var argList := argList0;
    assert Concat(args, Tokenize(argList)) == Tokenize(argList) by {
      if Tokenize(argList).Ok? {
        assert [] + Tokenize(argList).value == Tokenize(argList).value;
      }
    }
    while argList != []
      invariant Concat(args, Tokenize(argList)) == Tokenize(argList0)
      decreases |argList|
    {
      ghost var before := argList;
      var task := if argList[0] == '-' then Remove else Add;
      if task == Remove {
        argList := argList[1..];
      }
      ghost var t := argList;
      assert t == (if task == Remove then before[1..] else before);
      var a: Arg;
      if |argList| > 0 && argList[0] == '"' {
        var endIndex := IndexOf(argList, '"', 1);
        if endIndex.None? {
          return Err(UnmatchedQuote);
        }
        a := Arg(task, argList[1..endIndex.value]);
        argList := Trim(argList[endIndex.value + 1..]);
        assert Step(before) == Ok((a, argList));
      } else {
        var endIndex := IndexOf(argList, ' ', 1);
        if endIndex.None? {
          a := Arg(task, argList);
          argList := "";
          assert Step(before) == Ok((a, argList));
        } else {
          a := Arg(task, argList[..endIndex.value]);
          argList := Trim(argList[endIndex.value + 1..]);
          assert Step(before) == Ok((a, argList));
        }
      }
      ConcatCons(args, a, Tokenize(argList));
      args := args + [a];
    }
    assert args + [] == args;
    return Ok(args);
  }

  /*
   * Properties of the loop.
   */

  /** The task of each argument is given by an optional leading `-`. */
  function TaskOf(pre: string): Task
  {
    if pre == "-" then Remove else Add
  }

  /** A quoted argument is the exact text up to the next double quote, spaces kept. */
  lemma TokenizeQuoted(pre: string, q: string, rest: string)
    requires pre == "" || pre == "-"
    requires '"' !in q
    ensures Tokenize(pre + "\"" + q + "\"" + rest) == Cons(Arg(TaskOf(pre), q), Tokenize(Trim(rest)))
  {
    StepQuoted(pre, q, rest);
  }

  /** One loop iteration on a quoted argument. */
  lemma StepQuoted(pre: string, q: string, rest: string)
    requires pre == "" || pre == "-"
    requires '"' !in q
    ensures Step(pre + "\"" + q + "\"" + rest) == Ok((Arg(TaskOf(pre), q), Trim(rest)))
  {
    var t := "\"" + q + "\"" + rest;
    assert t[1..1 + |q|] == q;
    assert IndexOf(t, '"', 1) == Some(1 + |q|) by {
      assert t[1 + |q|] == '"';
      forall k | 1 <= k < 1 + |q| ensures t[k] != '"' {
        assert t[k] == q[k - 1];
      }
    }
    assert t[|q| + 2..] == rest;
    if pre == "" {
      assert pre + "\"" + q + "\"" + rest == t;
    } else {
      assert (pre + "\"" + q + "\"" + rest)[1..] == t;
    }
  }

  /** A quoted argument with no closing double quote makes the parse fail. */
  lemma TokenizeUnclosed(pre: string, q: string)
    requires pre == "" || pre == "-"
    requires '"' !in q
    ensures Tokenize(pre + "\"" + q).Err?
  {
    var s := pre + "\"" + q;
    var t := "\"" + q;
    assert s[|pre|..] == t;
    assert IndexOf(t, '"', 1) == None by {
      forall k | 1 <= k < |t| ensures t[k] != '"' {
        assert t[k] == q[k - 1];
      }
    }
  }

  /** An unquoted argument ends at the first space at index 1 or later. */
  lemma TokenizeBare(pre: string, w: string, rest: string)
    requires pre == "" || pre == "-"
    requires w != [] && w[0] != '"' && (pre == "-" || w[0] != '-')
    requires forall k :: 1 <= k < |w| ==> w[k] != ' '
    ensures Tokenize(pre + w + " " + rest) == Cons(Arg(TaskOf(pre), w), Tokenize(Trim(rest)))
  {
    StepBare(pre, w, rest);
  }

  /** One loop iteration on an unquoted argument followed by a space. */
  lemma StepBare(pre: string, w: string, rest: string)
    requires pre == "" || pre == "-"
    requires w != [] && w[0] != '"' && (pre == "-" || w[0] != '-')
    requires forall k :: 1 <= k < |w| ==> w[k] != ' '
    ensures Step(pre + w + " " + rest) == Ok((Arg(TaskOf(pre), w), Trim(rest)))
  {
    if pre == "" {
      assert pre + w + " " + rest == w + " " + rest;
      StepWord(w, rest);
    } else {
      StepDashWord(w, rest);
    }
  }

  /** One loop iteration on an unquoted argument without `-`. */
  lemma StepWord(w: string, rest: string)
    requires w != [] && w[0] != '"' && w[0] != '-'
    requires forall k :: 1 <= k < |w| ==> w[k] != ' '
    ensures Step(w + " " + rest) == Ok((Arg(Add, w), Trim(rest)))
  {
    var t := w + " " + rest;
    SpaceAfterWord(w, rest);
    assert t[..|w|] == w && t[|w| + 1..] == rest;
  }

  /** One loop iteration on an unquoted argument after `-`. */
  lemma StepDashWord(w: string, rest: string)
    requires w != [] && w[0] != '"'
    requires forall k :: 1 <= k < |w| ==> w[k] != ' '
    ensures Step("-" + w + " " + rest) == Ok((Arg(Remove, w), Trim(rest)))
  {
    var t := w + " " + rest;
    SpaceAfterWord(w, rest);
    assert t[..|w|] == w && t[|w| + 1..] == rest;
    assert ("-" + w + " " + rest)[1..] == t;
  }

  /** The first space at index 1 or later is the one after the word. */
  lemma SpaceAfterWord(w: string, rest: string)
    requires w != [] && forall k :: 1 <= k < |w| ==> w[k] != ' '
    ensures IndexOf(w + " " + rest, ' ', 1) == Some(|w|)
  {
    var t := w + " " + rest;
    assert t[|w|] == ' ';
    assert forall k :: 1 <= k < |w| ==> t[k] == w[k];
  }

  /** An unquoted argument with no later space takes the whole rest of the list. */
  lemma TokenizeLast(pre: string, w: string)
    requires pre == "" || pre == "-"
    requires pre == "-" || w != []
    requires w != [] ==> w[0] != '"' && (pre == "-" || w[0] != '-')
    requires forall k :: 1 <= k < |w| ==> w[k] != ' '
    ensures Tokenize(pre + w) == Ok([Arg(TaskOf(pre), w)])
  {
    var s := pre + w;
    assert (if s[0] == '-' then s[1..] else s) == w;
    assert IndexOf(w, ' ', 1) == None;
    assert Step(s) == Ok((Arg(TaskOf(pre), w), ""));
    assert Tokenize(s) == Cons(Arg(TaskOf(pre), w), Tokenize(""));
    assert [Arg(TaskOf(pre), w)] + [] == [Arg(TaskOf(pre), w)];
  }

  /** Every parsed argument consumes at least one character, so there are at most `|s|` of them. */
  lemma {:induction false} TokenizeBound(s: string)
    ensures Tokenize(s).Ok? ==> |Tokenize(s).value| <= |s|
    decreases |s|
  {
    if s != [] && Step(s).Ok? {
      TokenizeBound(Step(s).value.1);
    }
  }

  /** A word without whitespace that is neither a bare `-` nor opens a quote. */
  predicate PlainWord(w: string)
  {
    |w| > 0 && w != "-"
    && (forall k :: 0 <= k < |w| ==> !IsWhitespace(w[k]))
    && w[0] != '"' && !(|w| >= 2 && w[0] == '-' && w[1] == '"')
  }

  /** The words joined by single spaces. */
  function JoinWords(ws: seq<string>): string
  {
    if ws == [] then ""
    else if |ws| == 1 then ws[0]
    else ws[0] + " " + JoinWords(ws[1..])
  }

  /** The `-` a plain word starts with, if any. */
  function WordPrefix(w: string): string
  {
    if w != [] && w[0] == '-' then "-" else ""
  }

  /** A plain word without its leading `-`. */
  function WordBody(w: string): string
  {
    if w != [] && w[0] == '-' then w[1..] else w
  }

  /** The argument a plain word stands for: `-word` removes `word`, any other word adds itself. */
  function WordArg(w: string): Arg
  {
    Arg(TaskOf(WordPrefix(w)), WordBody(w))
  }

  /** The arguments of a sequence of plain words, one each. */
  function WordArgs(ws: seq<string>): seq<Arg>
  {
    if ws == [] then [] else [WordArg(ws[0])] + WordArgs(ws[1..])
  }

  /** A plain word is its optional `-` followed by an unquoted argument. */
  lemma SplitPlainWord(w: string)
    requires PlainWord(w)
    ensures WordPrefix(w) + WordBody(w) == w
    ensures var b := WordBody(w);
      b != [] && b[0] != '"' && (WordPrefix(w) == "-" || b[0] != '-')
      && (forall k :: 1 <= k < |b| ==> b[k] != ' ')
  {
    var b := WordBody(w);
    forall k | 1 <= k < |b| ensures b[k] != ' ' {
      assert b[k] == w[k + |WordPrefix(w)|];
      assert !IsWhitespace(w[k + |WordPrefix(w)|]);
    }
  }

  /** Joined plain words neither start nor end with whitespace. */
  lemma {:induction false} JoinWordsEdges(ws: seq<string>)
    requires forall i :: 0 <= i < |ws| ==> PlainWord(ws[i])
    ensures var s := JoinWords(ws); s == [] || (!IsWhitespace(s[0]) && !IsWhitespace(s[|s| - 1]))
  {
    if |ws| > 1 {
      JoinWordsEdges(ws[1..]);
      var s := JoinWords(ws);
      assert s[0] == ws[0][0];
      assert s[|s| - 1] == JoinWords(ws[1..])[|JoinWords(ws[1..])| - 1];
    }
  }

  /** Space-separated plain words never contain a line terminator. */
  lemma {:induction false} JoinWordsSingleLine(ws: seq<string>)
    requires forall i :: 0 <= i < |ws| ==> PlainWord(ws[i])
    ensures forall k :: 0 <= k < |JoinWords(ws)| ==> !IsLineTerminator(JoinWords(ws)[k])
  {
    if |ws| > 1 {
      JoinWordsSingleLine(ws[1..]);
      var rest := JoinWords(ws[1..]);
      forall k | 0 <= k < |JoinWords(ws)| ensures !IsLineTerminator(JoinWords(ws)[k]) {
        if k < |ws[0]| {
          assert JoinWords(ws)[k] == ws[0][k];
        } else if k > |ws[0]| {
          assert JoinWords(ws)[k] == rest[k - |ws[0]| - 1];
        }
      }
    } else if |ws| == 1 {
      assert PlainWord(ws[0]);
    }
  }

  /** Space-separated plain words give one argument per word, `remove` exactly for the words starting with `-`. */
  lemma {:induction false} TokenizeWords(ws: seq<string>)
    requires forall i :: 0 <= i < |ws| ==> PlainWord(ws[i])
    ensures Tokenize(JoinWords(ws)) == Ok(WordArgs(ws))
  {
    if ws != [] {
      var w := ws[0];
      SplitPlainWord(w);
      if |ws| == 1 {
        TokenizeLast(WordPrefix(w), WordBody(w));
      } else {
        var rest := JoinWords(ws[1..]);
        assert JoinWords(ws) == WordPrefix(w) + WordBody(w) + " " + rest;
        TokenizeBare(WordPrefix(w), WordBody(w), rest);
        JoinWordsEdges(ws[1..]);
        TrimUnchanged(rest);
        TokenizeWords(ws[1..]);
      }
    }
  }

  /** Prepending one argument to a concatenated outcome. */
  lemma ConsConcat(a: Arg, done: seq<Arg>, rest: Result<seq<Arg>, ParseError>)
    ensures Cons(a, Concat(done, rest)) == Concat([a] + done, rest)
  {
    if rest.Ok? {
      assert [a] + (done + rest.value) == [a] + done + rest.value;
    }
  }

  /** One plain word, a space, then a tail without outer whitespace: the word's argument comes first. */
  lemma WordThen(w: string, tail: string)
    requires PlainWord(w)
    requires tail != [] && !IsWhitespace(tail[0]) && !IsWhitespace(tail[|tail| - 1])
    ensures Tokenize(w + " " + tail) == Cons(WordArg(w), Tokenize(tail))
  {
    SplitPlainWord(w);
    assert w + " " + tail == WordPrefix(w) + WordBody(w) + " " + tail;
    TokenizeBare(WordPrefix(w), WordBody(w), tail);
    TrimUnchanged(tail);
  }

  /** Regrouping a word, the words after it and a tail. */
  lemma RegroupWords(w: string, more: string, tail: string)
    ensures w + " " + more + " " + tail == w + " " + (more + " " + tail)
  {
  }

  /** Plain words, a space, then any tail that starts and ends with non-whitespace: the words' arguments come first. */
  lemma {:induction false} TokenizeWordsThen(ws: seq<string>, tail: string)
    requires ws != [] && forall i :: 0 <= i < |ws| ==> PlainWord(ws[i])
    requires tail != [] && !IsWhitespace(tail[0]) && !IsWhitespace(tail[|tail| - 1])
    ensures Tokenize(JoinWords(ws) + " " + tail) == Concat(WordArgs(ws), Tokenize(tail))
    decreases |ws|
  {
    var w := ws[0];
    var r := Tokenize(tail);
    if |ws| == 1 {
      assert JoinWords(ws) + " " + tail == w + " " + tail;
      WordThen(w, tail);
      assert WordArgs(ws) == [WordArg(w)];
      assert Cons(WordArg(w), r) == Concat([WordArg(w)], r);
    } else {
      var more := JoinWords(ws[1..]);
      var rest := more + " " + tail;
      RegroupWords(w, more, tail);
      assert JoinWords(ws) + " " + tail == w + " " + rest;
      assert PlainWord(ws[1]);
      JoinWordsEdges(ws[1..]);
      assert more != [];
      assert rest[0] == more[0];
      assert rest[|rest| - 1] == tail[|tail| - 1];
      WordThen(w, rest);
      TokenizeWordsThen(ws[1..], tail);
      ConsConcat(WordArg(w), WordArgs(ws[1..]), r);
      assert WordArgs(ws) == [WordArg(w)] + WordArgs(ws[1..]);
    }
  }
}
