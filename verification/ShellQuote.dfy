/** Quoting arguments for the shell scripts of the Nix and Chisel builds, against the token and
    quoting rules of sections 2.2 and 2.3 of the POSIX.1-2017 Shell Command Language. */
module ShellQuote {
  import opened Wrappers

  // ---------- the shell side ----------

  /** Characters that, unquoted, make the text more than a list of words: operators, expansions,
      patterns, and the end of the command. */
  predicate IsSpecial(c: char) {
    c in {'|', '&', ';', '<', '>', '(', ')', '$', '`', '*', '?', '[', '\n'}
  }

  predicate IsBlank(c: char) { c == ' ' || c == '\t' }

  /** Section 2.2.2: everything up to the next single quote is literal. Returns the text and what
      follows the closing quote. */
  function SingleQuoted(s: string): (r: Option<(string, string)>)
    ensures r.Some? ==> |r.value.1| < |s|
  {
    if s == "" then None
    else if s[0] == '\'' then Some(("", s[1..]))
    else match SingleQuoted(s[1..])
      case None => None
      case Some((text, rest)) => Some(([s[0]] + text, rest))
  }

  /** Section 2.2.3: a backslash keeps its meaning only before $ ` " \ and newline; expansions
      are not words. */
  function DoubleQuoted(s: string): (r: Option<(string, string)>)
    ensures r.Some? ==> |r.value.1| < |s|
  {
    if s == "" || s[0] == '$' || s[0] == '`' then None
    else if s[0] == '"' then Some(("", s[1..]))
    else if s[0] == '\\' && |s| > 1 && s[1] in {'$', '`', '"', '\\', '\n'} then
      match DoubleQuoted(s[2..])
      case None => None
      case Some((text, rest)) => Some(((if s[1] == '\n' then "" else [s[1]]) + text, rest))
    else match DoubleQuoted(s[1..])
      case None => None
      case Some((text, rest)) => Some(([s[0]] + text, rest))
  }

  function Text(word: Option<string>): string { word.GetOr("") }

  function Finish(word: Option<string>): seq<string> {
    match word
    case None => []
    case Some(w) => [w]
  }

  function Ahead(words: seq<string>, r: Option<seq<string>>): Option<seq<string>> {
    match r
    case None => None
    case Some(more) => Some(words + more)
  }

  /** The words of a piece of a command, quotes removed; None if it is not a plain list of words.
      word is the word begun so far, if any: quoting can begin an empty word. */
  function Lex(s: string, word: Option<string>): Option<seq<string>>
    decreases |s|
  {
    if s == "" then Some(Finish(word))
    else if IsBlank(s[0]) then Ahead(Finish(word), Lex(s[1..], None))
    else if IsSpecial(s[0]) then None
    else if word == None && (s[0] == '#' || s[0] == '~') then None
    else if s[0] == '\'' then
      match SingleQuoted(s[1..])
      case None => None
      case Some((text, rest)) => Lex(rest, Some(Text(word) + text))
    else if s[0] == '"' then
      match DoubleQuoted(s[1..])
      case None => None
      case Some((text, rest)) => Lex(rest, Some(Text(word) + text))
    else if s[0] == '\\' then
      if |s| < 2 then None
      else if s[1] == '\n' then Lex(s[2..], word)
      else Lex(s[2..], Some(Text(word) + [s[1]]))
    else Lex(s[1..], Some(Text(word) + [s[0]]))
  }

  // ---------- shellQuote ----------

  /** strings.ReplaceAll(arg, "'", `'\''`) */
  function EscapeQuotes(arg: string): string {
    if arg == "" then ""
    else (if arg[0] == '\'' then "'\\''" else [arg[0]]) + EscapeQuotes(arg[1..])
  }

  function Quote(arg: string): string {
    "'" + EscapeQuotes(arg) + "'"
  }

  /** Text without single quotes stands between two of them; inside, each single quote closes,
      stands escaped, and opens again. */
  lemma QuoteParts(plain: string, more: string)
    requires '\'' !in plain
    ensures Quote(plain) == "'" + plain + "'"
    ensures EscapeQuotes(plain + ("'" + more)) == plain + ("'\\''" + EscapeQuotes(more))
  {
    EscapePlain(plain, "");
    EscapePlain(plain, "'" + more);
    EscapeQuote(more);
    assert plain + "" == plain && EscapeQuotes("") == "";
    hide EscapeQuotes;
  }

  lemma EscapeQuote(more: string)
    ensures EscapeQuotes("'" + more) == "'\\''" + EscapeQuotes(more)
  {
    assert ("'" + more)[1..] == more;
  }

  lemma {:induction false} EscapePlain(plain: string, more: string)
    requires '\'' !in plain
    ensures EscapeQuotes(plain + more) == plain + EscapeQuotes(more)
  {
    if plain == "" {
      assert plain + more == more;
    } else {
      var rest := plain[1..];
      assert (plain + more)[0] == plain[0] && (plain + more)[1..] == rest + more && plain == [plain[0]] + rest;
      assert EscapeQuotes(plain + more) == [plain[0]] + EscapeQuotes(rest + more);
      hide EscapeQuotes;
      EscapePlain(rest, more);
      assert [plain[0]] + (rest + EscapeQuotes(more)) == [plain[0]] + rest + EscapeQuotes(more);
    }
  }

  /** The arguments quoted, each preceded by a space. */
  function QuoteAll(args: seq<string>): string {
    if args == [] then "" else QuoteAll(args[..|args|-1]) + " " + Quote(args[|args|-1])
  }

  /** Lexing from inside an open single quote, with the word begun so far. */
  function LexOpen(s: string, word: string): Option<seq<string>> {
    match SingleQuoted(s)
    case None => None
    case Some((text, rest)) => Lex(rest, Some(word + text))
  }

  lemma OpenClose(rest: string, word: string)
    ensures LexOpen("'" + rest, word) == Lex(rest, Some(word))
  {
    assert ("'" + rest)[1..] == rest && word + "" == word;
  }

  lemma OpenChar(c: char, s: string, word: string)
    requires c != '\''
    ensures LexOpen([c] + s, word) == LexOpen(s, word + [c])
  {
    hide Lex;
    assert ([c] + s)[1..] == s;
    if SingleQuoted(s).Some? {
      var (text, rest) := SingleQuoted(s).value;
      assert SingleQuoted([c] + s) == Some(([c] + text, rest));
      assert word + ([c] + text) == word + [c] + text;
    }
  }

  /** The escaped quote closes, adds a literal quote, and opens again. */
  lemma OpenEscape(s: string, word: string)
    ensures LexOpen("'\\''" + s, word) == LexOpen(s, word + "'")
  {
    hide SingleQuoted;
    var t := "\\'" + ("'" + s);
    assert "'\\''" + s == "'" + t;
    OpenClose(t, word);
    assert t[0] == '\\' && t[1] == '\'' && t[2..] == "'" + s;
    assert ("'" + s)[1..] == s;
  }

  lemma {:induction false} OpenQuote(arg: string, rest: string, word: string)
    ensures LexOpen(EscapeQuotes(arg) + ("'" + rest), word) == Lex(rest, Some(word + arg))
  {
    hide LexOpen, Lex;
    if arg == "" {
      assert EscapeQuotes(arg) + ("'" + rest) == "'" + rest && word + arg == word;
      OpenClose(rest, word);
    } else {
      var y := arg[1..];
      var s := EscapeQuotes(y) + ("'" + rest);
      assert arg == [arg[0]] + y;
      assert word + [arg[0]] + y == word + arg;
      OpenQuote(y, rest, word + [arg[0]]);
      if arg[0] == '\'' {
        assert EscapeQuotes(arg) + ("'" + rest) == "'\\''" + s;
        OpenEscape(s, word);
      } else {
        assert EscapeQuotes(arg) + ("'" + rest) == [arg[0]] + s;
        OpenChar(arg[0], s, word);
      }
    }
  }

  /** A quoted argument is read as exactly its text, whatever stands before and after it. */
  lemma LexQuote(arg: string, rest: string, word: Option<string>)
    ensures Lex(Quote(arg) + rest, word) == Lex(rest, Some(Text(word) + arg))
  {
    var s := Quote(arg) + rest;
    assert s[0] == '\'' && s[1..] == EscapeQuotes(arg) + ("'" + rest);
    OpenQuote(arg, rest, Text(word));
  }

  lemma {:induction false} SingleQuotedAppend(s: string, t: string)
    requires SingleQuoted(s).Some?
    ensures SingleQuoted(s + t) == Some((SingleQuoted(s).value.0, SingleQuoted(s).value.1 + t))
  {
    assert (s + t)[1..] == s[1..] + t;
    if s[0] != '\'' {
      SingleQuotedAppend(s[1..], t);
    }
  }

  lemma {:induction false} DoubleQuotedAppend(s: string, t: string)
    requires DoubleQuoted(s).Some?
    ensures DoubleQuoted(s + t) == Some((DoubleQuoted(s).value.0, DoubleQuoted(s).value.1 + t))
  {
    assert (s + t)[1..] == s[1..] + t;
    if s[0] == '"' {
    } else if s[0] == '\\' && |s| > 1 && s[1] in {'$', '`', '"', '\\', '\n'} {
      assert (s + t)[2..] == s[2..] + t;
      DoubleQuotedAppend(s[2..], t);
    } else {
      assert |s| > 1;
      DoubleQuotedAppend(s[1..], t);
    }
  }

  lemma AheadLaws(a: seq<string>, b: seq<string>, r: Option<seq<string>>)
    ensures Ahead(a, Ahead(b, r)) == Ahead(a + b, r)
    ensures Ahead([], r) == r
    ensures Ahead(a, Some([])) == Some(a)
  {
    if r.Some? {
      assert a + (b + r.value) == a + b + r.value;
      assert [] + r.value == r.value;
    }
    assert a + [] == a;
  }

  /** A plain list of words keeps its words when more words follow after a blank. */
  lemma {:induction false} LexAppend(s: string, t: string, word: Option<string>)
    requires Lex(s, word).Some? && t != "" && IsBlank(t[0])
    ensures Lex(s + t, word) == Ahead(Lex(s, word).value, Lex(t, None))
    decreases |s|
  {
    AheadLaws([], [], Lex(t[1..], None));
    if s == "" {
      assert s + t == t;
    } else {
      var st := s + t;
      assert st[0] == s[0] && st[1..] == s[1..] + t;
      if IsBlank(s[0]) {
        LexAppend(s[1..], t, None);
        AheadLaws(Finish(word), Lex(s[1..], None).value, Lex(t, None));
      } else if s[0] == '\'' {
        SingleQuotedAppend(s[1..], t);
        var (text, rest) := SingleQuoted(s[1..]).value;
        LexAppend(rest, t, Some(Text(word) + text));
      } else if s[0] == '"' {
        DoubleQuotedAppend(s[1..], t);
        var (text, rest) := DoubleQuoted(s[1..]).value;
        LexAppend(rest, t, Some(Text(word) + text));
      } else if s[0] == '\\' {
        assert st[2..] == s[2..] + t && st[1] == s[1];
        LexAppend(s[2..], t, if s[1] == '\n' then word else Some(Text(word) + [s[1]]));
      } else {
        LexAppend(s[1..], t, Some(Text(word) + [s[0]]));
      }
    }
  }

  lemma LexOneQuoted(arg: string)
    ensures Lex(" " + Quote(arg), None) == Some([arg])
  {
    var s := " " + Quote(arg);
    assert s[1..] == Quote(arg) + "";
    LexQuote(arg, "", None);
    assert Text(None) + arg == arg;
    AheadLaws([], [], Some([arg]));
  }

  /** Appending quoted arguments to a plain list of words, with a word begun before it or not,
      appends exactly these arguments. */
  lemma {:induction false} QuoteAllAppends(s: string, args: seq<string>, word: Option<string>)
    requires Lex(s, word).Some?
    ensures Lex(s + QuoteAll(args), word) == Some(Lex(s, word).value + args)
    decreases |args|
  {
    hide Lex, Quote;
    var words := Lex(s, word).value;
    if args == [] {
      assert s + "" == s && words + [] == words;
    } else {
      var front, last := args[..|args|-1], args[|args|-1];
      QuoteAllAppends(s, front, word);
      LexOneQuoted(last);
      var t := " " + Quote(last);
      LexAppend(s + QuoteAll(front), t, word);
      assert s + QuoteAll(args) == s + QuoteAll(front) + t;
      assert words + front + [last] == words + args by { assert args == front + [last]; }
    }
  }

  /** Whatever command stands before them, as long as it ends outside quotes: quoted arguments end
      the word it has begun, if any, and then are read as exactly themselves. */
  lemma QuotedAreRead(args: seq<string>, word: Option<string>)
    ensures Lex(QuoteAll(args), word) == Some(Finish(word) + args)
  {
    QuoteAllAppends("", args, word);
    assert "" + QuoteAll(args) == QuoteAll(args);
  }

  /** Lexing the quoted arguments gives back exactly the arguments, empty ones and quotes included. */
  lemma QuoteRoundTrip(args: seq<string>)
    ensures Lex(QuoteAll(args), None) == Some(args)
  {
    QuotedAreRead(args, None);
    assert [] + args == args;
  }

  /** Different argument lists never quote to the same text. */
  lemma QuoteAllInjective(a: seq<string>, b: seq<string>)
    requires QuoteAll(a) == QuoteAll(b)
    ensures a == b
  {
    QuoteRoundTrip(a);
    QuoteRoundTrip(b);
  }

  // ---------- the script writers ----------

  class Builder {
    var text: string

    constructor ()
      ensures text == ""
    {
      text := "";
    }

    method WriteString(s: string)
      modifies this
      ensures text == old(text) + s
    {
      text := text + s;
    }
  }

  method WriteExtraArgs(b: Builder, extraArgs: seq<string>)
    modifies b
    ensures b.text == old(b.text) + QuoteAll(extraArgs)
  {
    ghost var before := b.text;
    for i := 0 to |extraArgs|
      invariant b.text == before + QuoteAll(extraArgs[..i])
    {
      assert extraArgs[..i+1][..i] == extraArgs[..i];
      b.WriteString(" ");
      b.WriteString(Quote(extraArgs[i]));
    }
    assert extraArgs[..|extraArgs|] == extraArgs;
  }

  /** Every ignored condition with its flag. */
  function IgnoreArgs(ignore: seq<string>): seq<string> {
    if ignore == [] then [] else IgnoreArgs(ignore[..|ignore|-1]) + ["--ignore", ignore[|ignore|-1]]
  }

  lemma LexFlag(s: string, flag: string, flagText: string, arg: string)
    requires Lex(s, None).Some? && flagText != "" && IsBlank(flagText[0]) && Lex(flagText, None) == Some([flag])
    ensures Lex(s + flagText + (" " + Quote(arg)), None) == Some(Lex(s, None).value + [flag, arg])
  {
    LexAppend(s, flagText, None);
    LexOneQuoted(arg);
    LexAppend(s + flagText, " " + Quote(arg), None);
    assert Lex(s, None).value + [flag] + [arg] == Lex(s, None).value + [flag, arg];
  }

  lemma FlagTexts()
    ensures Lex(" --arch", None) == Some(["--arch"]) && Lex(" --ignore", None) == Some(["--ignore"])
  {
    PlainWord("--arch", "");
    PlainWord("--ignore", "");
    AheadLaws([], [], Some(["--arch"]));
    AheadLaws([], [], Some(["--ignore"]));
    assert " --arch"[1..] == "--arch" && " --ignore"[1..] == "--ignore";
  }

  /** A word of lower-case letters and dashes is read as itself. */
  lemma {:induction false} PlainWord(s: string, begun: string)
    requires s != "" && forall i :: 0 <= i < |s| ==> 'a' <= s[i] <= 'z' || s[i] == '-'
    ensures Lex(s, Some(begun)) == Some([begun + s])
    ensures begun == "" ==> Lex(s, None) == Some([s])
    decreases |s|
  {
    assert Lex(s, Some(begun)) == Lex(s[1..], Some(begun + [s[0]]));
    if |s| == 1 {
      assert s[1..] == "" && begun + [s[0]] == begun + s;
    } else {
      PlainWord(s[1..], begun + [s[0]]);
      assert begun + [s[0]] + s[1..] == begun + s;
    }
    assert begun == "" ==> begun + s == s && Text(None) + [s[0]] == begun + [s[0]];
  }

  /** The arguments of the chisel cut command after its root directory. */
  method WriteCutArguments(b: Builder, packageArch: string, ignore: seq<string>, extraArgs: seq<string>, slices: seq<string>)
    modifies b
    ensures exists t :: b.text == old(b.text) + t && Lex(t, None) == Some(["--arch", packageArch] + IgnoreArgs(ignore) + extraArgs + slices)
  {
    hide Lex, Quote, QuoteAll, IgnoreArgs;
    ghost var before := b.text;
    ghost var start := " --arch" + (" " + Quote(packageArch));
    b.WriteString(" --arch " + Quote(packageArch));
    assert " --arch " + Quote(packageArch) == start;
    ghost var t := start;
    ArchWords(packageArch);
    NothingIgnored(ignore, ["--arch", packageArch]);
    for i := 0 to |ignore|
      invariant b.text == before + t
      invariant Lex(t, None) == Some(["--arch", packageArch] + IgnoreArgs(ignore[..i]))
    {
      b.WriteString(" --ignore " + Quote(ignore[i]));
      FlagTexts();
      LexFlag(t, "--ignore", " --ignore", ignore[i]);
      assert t + (" --ignore " + Quote(ignore[i])) == t + " --ignore" + (" " + Quote(ignore[i]));
      IgnoreOneMore(ignore, i, ["--arch", packageArch]);
      t := t + " --ignore" + (" " + Quote(ignore[i]));
    }
    assert ignore[..|ignore|] == ignore;
    WriteExtraArgs(b, extraArgs);
    QuoteAllAppends(t, extraArgs, None);
    t := t + QuoteAll(extraArgs);
    NothingQuoted(slices, t);
    for i := 0 to |slices|
      invariant b.text == before + (t + QuoteAll(slices[..i]))
    {
      QuoteAllStep(slices, i);
      b.WriteString(" " + Quote(slices[i]));
    }
    assert slices[..|slices|] == slices;
    QuoteAllAppends(t, slices, None);
  }

  lemma QuoteAllStep(s: seq<string>, i: nat)
    requires i < |s|
    ensures QuoteAll(s[..i+1]) == QuoteAll(s[..i]) + (" " + Quote(s[i]))
  {
    assert s[..i+1][..i] == s[..i];
  }

  lemma NothingIgnored(ignore: seq<string>, args: seq<string>)
    ensures args + IgnoreArgs(ignore[..0]) == args
  {
  }

  lemma IgnoreOneMore(ignore: seq<string>, i: nat, args: seq<string>)
    requires i < |ignore|
    ensures args + IgnoreArgs(ignore[..i]) + ["--ignore", ignore[i]] == args + IgnoreArgs(ignore[..i+1])
  {
    assert ignore[..i+1][..i] == ignore[..i];
  }

  lemma NothingQuoted(s: seq<string>, t: string)
    ensures t + QuoteAll(s[..0]) == t
  {
  }

  lemma ArchWords(packageArch: string)
    ensures Lex(" --arch" + (" " + Quote(packageArch)), None) == Some(["--arch", packageArch])
  {
    FlagTexts();
    assert Lex("", None) == Some([]);
    LexFlag("", "--arch", " --arch", packageArch);
    assert "" + " --arch" == " --arch";
    assert [] + ["--arch", packageArch] == ["--arch", packageArch];
  }
}
