/** The command line that runs an argument list through two levels of shell quoting, and how a shell reads it back. */
module ShellQuoting {
  import opened Core

  // ----- what the executor builds -----

  /** Replaces each occurrence of one character. */
  function Replace(s: string, c: char, sub: string): string {
    if s == "" then "" else (if s[0] == c then sub else [s[0]]) + Replace(s[1..], c, sub)
  }

  function Escape(s: string): string {
    Replace(Replace(Replace(Replace(s, '\\', "\\\\"), '"', "\\\""), '$', "\\$"), '`', "\\`")
  }

  function Quoted(arg: string): string {
    "\"" + Escape(arg) + "\""
  }

  function Join(args: seq<string>): string {
    if args == [] then "" else if |args| == 1 then Quoted(args[0]) else Quoted(args[0]) + " " + Join(args[1..])
  }

  function InnerScript(args: seq<string>, sentinel: string): string {
    "(" + Join(args) + "); echo $? > " + sentinel
  }

  function WrappedCommand(args: seq<string>, sentinel: string): string {
    "sh -c \"" + Escape(InnerScript(args, sentinel)) + "\""
  }

  // ----- how a shell reads it -----

  datatype Parsed<+T> = Parsed(value: T, rest: string)

  predicate EscapableInQuotes(c: char) {
    c == '$' || c == '`' || c == '"' || c == '\\'
  }

  /**
   * The inside of double quotes, up to the closing quote: section 2.2.3 of the POSIX.1-2017 Shell Command Language.
   * None when the quote is not closed, or when a dollar or a backquote would start an expansion.
   */
  function InQuotes(s: string): (r: Option<Parsed<string>>)
    ensures r.Some? ==> |r.value.rest| < |s|
  {
    if s == "" then None
    else if s[0] == '"' then Some(Parsed("", s[1..]))
    else if s[0] == '$' || s[0] == '`' then None
    else if s[0] == '\\' && |s| >= 2 && EscapableInQuotes(s[1]) then Prefixed([s[1]], InQuotes(s[2..]))
    else if s[0] == '\\' && |s| >= 2 && s[1] == '\n' then Prefixed("", InQuotes(s[2..]))
    else Prefixed([s[0]], InQuotes(s[1..]))
  }

  function Prefixed(p: string, r: Option<Parsed<string>>): Option<Parsed<string>> {
    match r
    case None => None
    case Some(parsed) => Some(Parsed(p + parsed.value, parsed.rest))
  }

  predicate IsOperator(c: char) {
    c in "()<>;&|\n"
  }

  predicate IsPlain(c: char) {
    ('a' <= c <= 'z') || ('A' <= c <= 'Z') || ('0' <= c <= '9') || c in "-_./:,@+"
  }

  function Flush(word: Option<string>): seq<string> {
    if word.Some? then [word.value] else []
  }

  function Extended(word: Option<string>, more: string): Option<string> {
    if word.Some? then Some(word.value + more) else Some(more)
  }

  /**
   * The words of a simple command, up to an operator or the end. word is the word being read, if one has begun.
   * None for unquoted characters that a shell would expand.
   */
  function Words(s: string, word: Option<string>): Option<Parsed<seq<string>>>
    decreases |s|
  {
    if s == "" || IsOperator(s[0]) then Some(Parsed(Flush(word), s))
    else if s[0] == ' ' || s[0] == '\t' then
      match Words(s[1..], None)
      case None => None
      case Some(parsed) => Some(Parsed(Flush(word) + parsed.value, parsed.rest))
    else if s[0] == '"' then
      match InQuotes(s[1..])
      case None => None
      case Some(quoted) => Words(quoted.rest, Extended(word, quoted.value))
    else if IsPlain(s[0]) then Words(s[1..], Extended(word, [s[0]]))
    else None
  }

  /** The words of a leading subshell and what follows its closing parenthesis. */
  function Subshell(s: string): Option<Parsed<seq<string>>> {
    if s == "" || s[0] != '(' then None
    else
      match Words(s[1..], None)
      case None => None
      case Some(parsed) =>
        if parsed.rest != "" && parsed.rest[0] == ')' then Some(Parsed(parsed.value, parsed.rest[1..])) else None
  }

  // ----- the four replacements are one pass -----

  function EscapeChar(c: char): string {
    if EscapableInQuotes(c) then ['\\', c] else [c]
  }

  function EscapeOnce(s: string): string {
    if s == "" then "" else EscapeChar(s[0]) + EscapeOnce(s[1..])
  }

  lemma {:induction false} ReplaceConcat(a: string, b: string, c: char, sub: string)
    ensures Replace(a + b, c, sub) == Replace(a, c, sub) + Replace(b, c, sub)
  {
    if a == "" {
      assert a + b == b;
    } else {
      assert (a + b)[1..] == a[1..] + b;
      ReplaceConcat(a[1..], b, c, sub);
    }
  }

  lemma EscapeConcat(a: string, b: string)
    ensures Escape(a + b) == Escape(a) + Escape(b)
  {
    var a1, b1 := Replace(a, '\\', "\\\\"), Replace(b, '\\', "\\\\");
    var a2, b2 := Replace(a1, '"', "\\\""), Replace(b1, '"', "\\\"");
    var a3, b3 := Replace(a2, '$', "\\$"), Replace(b2, '$', "\\$");
    ReplaceConcat(a, b, '\\', "\\\\");
    ReplaceConcat(a1, b1, '"', "\\\"");
    ReplaceConcat(a2, b2, '$', "\\$");
    ReplaceConcat(a3, b3, '`', "\\`");
  }

  lemma ReplaceOne(x: char, c: char, sub: string)
    ensures Replace([x], c, sub) == if x == c then sub else [x]
  {
  }

  lemma ReplaceTwo(x: char, y: char, c: char, sub: string)
    requires x != c
    ensures Replace([x, y], c, sub) == [x] + if y == c then sub else [y]
  {
    assert [x, y][1..] == [y];
    ReplaceOne(y, c, sub);
  }

  lemma EscapeOfChar(c: char)
    ensures Escape([c]) == EscapeChar(c)
  {
    ReplaceOne(c, '\\', "\\\\");
    if c == '\\' {
      ReplaceTwo('\\', '\\', '"', "\\\"");
      ReplaceTwo('\\', '\\', '$', "\\$");
      ReplaceTwo('\\', '\\', '`', "\\`");
    } else {
      ReplaceOne(c, '"', "\\\"");
      ReplaceTwo('\\', c, '$', "\\$");
      ReplaceTwo('\\', c, '`', "\\`");
      ReplaceOne(c, '$', "\\$");
      ReplaceOne(c, '`', "\\`");
    }
  }

  /** The chained replacements escape each character independently: none touches what an earlier one inserted. */
  lemma {:induction false} EscapeIsOnePass(s: string)
    ensures Escape(s) == EscapeOnce(s)
  {
    if s != "" {
      assert s == [s[0]] + s[1..];
      EscapeConcat([s[0]], s[1..]);
      EscapeOfChar(s[0]);
      EscapeIsOnePass(s[1..]);
    }
  }

  // ----- round trips -----

  /** Inside double quotes an escaped string reads back as the string, whatever it contains. */
  lemma QuotesReadBack(s: string, rest: string)
    ensures InQuotes(Escape(s) + "\"" + rest) == Some(Parsed(s, rest))
  {
    EscapeIsOnePass(s);
    OnePassReadsBack(s, rest);
  }

  lemma {:induction false} OnePassReadsBack(s: string, rest: string)
    ensures InQuotes(EscapeOnce(s) + "\"" + rest) == Some(Parsed(s, rest))
  {
    var tail := "\"" + rest;
    if s == "" {
      assert EscapeOnce(s) + "\"" + rest == tail && tail[1..] == rest;
    } else {
      var more := EscapeOnce(s[1..]) + "\"" + rest;
      var all := EscapeOnce(s) + "\"" + rest;
      OnePassReadsBack(s[1..], rest);
      assert all == EscapeChar(s[0]) + more;
      assert s == [s[0]] + s[1..];
      if EscapableInQuotes(s[0]) {
        assert all[2..] == more;
      } else {
        assert all[1..] == more;
      }
    }
  }

  /** A quoted word followed by the end of the word. */
  lemma QuotedIsOneWord(arg: string, rest: string)
    ensures Words(Quoted(arg) + rest, None) == Words(rest, Some(arg))
  {
    var s := Quoted(arg) + rest;
    assert s[1..] == Escape(arg) + "\"" + rest;
    QuotesReadBack(arg, rest);
  }

  lemma BlankEndsWord(word: string, rest: string)
    ensures Words(" " + rest, Some(word)) ==
            match Words(rest, None) case None => None case Some(parsed) => Some(Parsed([word] + parsed.value,
                parsed.rest))
  {
    assert (" " + rest)[1..] == rest;
  }

  lemma OperatorEndsWord(word: string, rest: string)
    requires rest != "" && IsOperator(rest[0])
    ensures Words(rest, Some(word)) == Some(Parsed([word], rest))
  {
  }

  lemma {:induction false} JoinReadsBack(args: seq<string>, rest: string)
    requires args != [] && rest != "" && IsOperator(rest[0])
    ensures Words(Join(args) + rest, None) == Some(Parsed(args, rest))
  {
    hide Words, Quoted, IsOperator;
    if |args| == 1 {
      QuotedIsOneWord(args[0], rest);
      OperatorEndsWord(args[0], rest);
      assert args == [args[0]];
    } else {
      var more := Join(args[1..]) + rest;
      assert Join(args) + rest == Quoted(args[0]) + (" " + more);
      QuotedIsOneWord(args[0], " " + more);
      BlankEndsWord(args[0], more);
      JoinReadsBack(args[1..], rest);
      assert args == [args[0]] + args[1..];
    }
  }

  /** The inner script is a subshell that runs exactly the arguments, then records the exit code. */
  lemma InnerReadsBack(args: seq<string>, sentinel: string)
    requires args != []
    ensures Subshell(InnerScript(args, sentinel)) == Some(Parsed(args, "; echo $? > " + sentinel))
  {
    hide Words, Join;
    var rest := ")" + ("; echo $? > " + sentinel);
    var s := InnerScript(args, sentinel);
    assert s[1..] == Join(args) + rest;
    JoinReadsBack(args, rest);
    assert rest[1..] == "; echo $? > " + sentinel;
  }

  lemma PlainChar(c: char, word: Option<string>, rest: string)
    requires IsPlain(c)
    ensures Words([c] + rest, word) == Words(rest, Extended(word, [c]))
  {
    assert ([c] + rest)[1..] == rest;
  }

  lemma PlainWord(a: char, b: char, rest: string)
    requires IsPlain(a) && IsPlain(b)
    ensures Words([a, b] + rest, None) == Words(rest, Some([a, b]))
  {
    hide Words, IsPlain;
    assert [a, b] + rest == [a] + ([b] + rest);
    PlainChar(a, None, [b] + rest);
    PlainChar(b, Some([a]), rest);
    assert [a] + [b] == [a, b];
  }

  /** The wrapped command has three words: sh, -c and the inner script, unchanged. */
  lemma OuterReadsBack(args: seq<string>, sentinel: string)
    ensures Words(WrappedCommand(args, sentinel), None) == Some(Parsed(["sh", "-c", InnerScript(args, sentinel)], ""))
  {
    var inner := InnerScript(args, sentinel);
    SplitWrapped(args, sentinel);
    OneQuotedWord(inner);
    hide Words, Escape, InnerScript, WrappedCommand;
    var quoted := Quoted(inner);
    PlainWord('s', 'h', " " + ("-c" + (" " + quoted)));
    BlankEndsWord("sh", "-c" + (" " + quoted));
    PlainWord('-', 'c', " " + quoted);
    BlankEndsWord("-c", quoted);
    assert ["-c"] + [inner] == ["-c", inner] && ["sh"] + ["-c", inner] == ["sh", "-c", inner];
  }

  lemma OneQuotedWord(word: string)
    ensures Words(Quoted(word), None) == Some(Parsed([word], ""))
  {
    assert Quoted(word) + "" == Quoted(word);
    QuotedIsOneWord(word, "");
  }

  lemma SplitWrapped(args: seq<string>, sentinel: string)
    ensures WrappedCommand(args, sentinel) == "sh" + (" " + ("-c" + (" " + Quoted(InnerScript(args, sentinel)))))
  {
    hide Escape, InnerScript;
    var quoted := Quoted(InnerScript(args, sentinel));
    assert " " + ("-c" + (" " + quoted)) == " -c " + quoted;
  }

  /** Through both levels every argument list comes back unchanged, whatever its arguments contain. */
  lemma TwoLevelRoundTrip(args: seq<string>, sentinel: string)
    requires args != []
    ensures var outer := Words(WrappedCommand(args, sentinel), None);
            && outer.Some? && |outer.value.value| == 3 && outer.value.rest == ""
            && outer.value.value[..2] == ["sh", "-c"]
            && Subshell(outer.value.value[2]) == Some(Parsed(args, "; echo $? > " + sentinel))
  {
    OuterReadsBack(args, sentinel);
    InnerReadsBack(args, sentinel);
  }

  /** In particular different argument lists give different commands. */
  lemma WrappedIsInjective(args: seq<string>, args': seq<string>, sentinel: string)
    requires args != [] && args' != [] && WrappedCommand(args, sentinel) == WrappedCommand(args', sentinel)
    ensures args == args'
  {
    TwoLevelRoundTrip(args, sentinel);
    TwoLevelRoundTrip(args', sentinel);
  }
}
