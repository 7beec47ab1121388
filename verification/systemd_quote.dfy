/** Quoting of paths for the unit file, and what systemd makes of the command line that results. */
module SystemdQuote {
  import opened Wrappers

  /** `s.replaceAll(c, by)` for a single character. */
  function ReplaceAll(s: string, c: char, with: string): string {
    if s == "" then "" else (if s[0] == c then with else [s[0]]) + ReplaceAll(s[1..], c, with)
  }

  function Escape(s: string): string {
    ReplaceAll(ReplaceAll(ReplaceAll(s, '\\', "\\\\"), '\"', "\\\""), '%', "%%")
  }

  function Quote(s: string): string {
    "\"" + Escape(s) + "\""
  }

  // ---- One pass is enough ----

  function EscapeChar(c: char): string {
    if c == '\\' then "\\\\" else if c == '\"' then "\\\"" else if c == '%' then "%%" else [c]
  }

  function OnePass(s: string): string {
    if s == "" then "" else EscapeChar(s[0]) + OnePass(s[1..])
  }

  lemma {:induction false} ReplaceAppends(a: string, b: string, c: char, with: string)
    ensures ReplaceAll(a + b, c, with) == ReplaceAll(a, c, with) + ReplaceAll(b, c, with)
  {
    if a == "" {
      assert a + b == b;
    } else {
      assert (a + b)[1..] == a[1..] + b;
      ReplaceAppends(a[1..], b, c, with);
    }
  }

  lemma Replaced(c: char, with: string, x: char)
    ensures ReplaceAll([x], c, with) == if x == c then with else [x]
    ensures x != c ==> ReplaceAll([c] + [x], c, with) == with + [x]
  {
    assert [x][1..] == "" && ([c] + [x])[1..] == [x];
  }

  lemma EscapedChar(c: char)
    ensures Escape([c]) == EscapeChar(c)
  {
    hide ReplaceAll;
    Replaced('\\', "\\\\", c);
    Replaced('\"', "\\\"", c);
    Replaced('%', "%%", c);
    if c == '\\' {
      assert "\\\\" == ['\\'] + ['\\'];
      ReplaceAppends(['\\'], ['\\'], '\"', "\\\"");
      ReplaceAppends(['\\'], ['\\'], '%', "%%");
    } else if c == '\"' {
      assert "\\\"" == ['\\'] + ['\"'];
      ReplaceAppends(['\\'], ['\"'], '%', "%%");
      Replaced('%', "%%", '\\');
    }
  }

  /** The three replacements, in the order in which they are made, are one pass over the characters. */
  lemma {:induction false} ThreePassesAreOne(s: string)
    ensures Escape(s) == OnePass(s)
  {
    if s != "" {
      hide ReplaceAll;
      var a := ReplaceAll(s[1..], '\\', "\\\\");
      ThreePassesAreOne(s[1..]);
      EscapedChar(s[0]);
      assert s == [s[0]] + s[1..];
      ReplaceAppends([s[0]], s[1..], '\\', "\\\\");
      ReplaceAppends(ReplaceAll([s[0]], '\\', "\\\\"), a, '\"', "\\\"");
      ReplaceAppends(ReplaceAll(ReplaceAll([s[0]], '\\', "\\\\"), '\"', "\\\""), ReplaceAll(a, '\"', "\\\""),
                     '%', "%%");
    } else {
      assert Escape("") == "";
    }
  }

  // ---- Reading a command line: systemd.service(5), "Command lines" ----

  datatype Word = NoWord | Word(text: string, rest: string)

  /** The rest of a double-quoted word; only the escapes for the backslash and the quote are read. */
  function ReadQuoted(s: string): (w: Word)
    ensures w.Word? ==> |w.rest| < |s|
  {
    if s == "" then NoWord
    else if s[0] == '\"' then Word("", s[1..])
    else if s[0] == '\\' then
      if |s| < 2 || (s[1] != '\\' && s[1] != '\"') then NoWord
      else
        match ReadQuoted(s[2..])
        case NoWord => NoWord
        case Word(t, rest) => Word([s[1]] + t, rest)
    else
      match ReadQuoted(s[1..])
      case NoWord => NoWord
      case Word(t, rest) => Word([s[0]] + t, rest)
  }

  /** A word without quotes or escapes, up to the next blank. */
  function ReadPlain(s: string): (w: Word)
    ensures w.Word? ==> |w.rest| <= |s|
    ensures w.Word? && s != "" && s[0] != ' ' ==> |w.rest| < |s|
  {
    if s == "" || s[0] == ' ' then Word("", s)
    else if s[0] in "\\\"\'" then NoWord
    else
      match ReadPlain(s[1..])
      case NoWord => NoWord
      case Word(t, rest) => Word([s[0]] + t, rest)
  }

  /** The words of a line; None if it is not of the simple form above. */
  function Words(s: string): Option<seq<string>>
    decreases |s|
  {
    if s == "" then Some([])
    else if s[0] == ' ' then Words(s[1..])
    else
      match if s[0] == '\"' then ReadQuoted(s[1..]) else ReadPlain(s)
      case NoWord => None
      case Word(t, rest) =>
        if rest != "" && rest[0] != ' ' then None
        else
          match Words(rest)
          case None => None
          case Some(more) => Some([t] + more)
  }

  /** Specifiers: %% is a percent sign; no other is modelled. */
  function Specifiers(s: string): Option<string> {
    if s == "" then Some("")
    else if s[0] == '%' then
      if |s| < 2 || s[1] != '%' then None
      else
        match Specifiers(s[2..])
        case None => None
        case Some(t) => Some("%" + t)
    else
      match Specifiers(s[1..])
      case None => None
      case Some(t) => Some([s[0]] + t)
  }

  function Position(s: string, c: char): (n: nat)
    ensures n <= |s| && (n < |s| <==> c in s) && (n < |s| ==> s[n] == c)
  {
    if s == "" || s[0] == c then 0 else 1 + Position(s[1..], c)
  }

  /** What is expanded at the head of s: $$, or ${NAME} with its closing brace. */
  predicate Expandable(s: string) {
    |s| > 1 && s[0] == '$' && (s[1] == '$' || (s[1] == '{' && '}' in s[2..]))
  }

  /** Environment variables inside a word. */
  function Expand(s: string, env: string -> string): string {
    if s == "" then ""
    else if Expandable(s) then
      if s[1] == '$' then "$" + Expand(s[2..], env)
      else
        var n := Position(s[2..], '}');
        env(s[2..][..n]) + Expand(s[2..][n + 1..], env)
    else [s[0]] + Expand(s[1..], env)
  }

  /** A word that is nothing but `$NAME`. */
  predicate Lone(s: string) {
    s != "" && s[0] == '$' && (|s| == 1 || (s[1] != '$' && s[1] != '{'))
  }

  /** The environment: the value of each variable, and the words that a value is split into. */
  datatype Environment = Environment(value: string -> string, words: string -> seq<string>)

  /** The arguments that a word stands for. */
  function Piece(w: string, env: Environment): seq<string> {
    if Lone(w) then env.words(w[1..]) else [Expand(w, env.value)]
  }

  function Arguments(words: seq<string>, env: Environment): Option<seq<string>> {
    if words == [] then Some([])
    else
      match (Specifiers(words[0]), Arguments(words[1..], env))
      case (Some(w), Some(more)) => Some(Piece(w, env) + more)
      case _ => None
  }

  function CommandLine(s: string, env: Environment): Option<seq<string>> {
    match Words(s)
    case None => None
    case Some(words) => Arguments(words, env)
  }

  // ---- Unescaping inverts escaping ----

  /** `%` doubled: what is left once the quoted word has been read. */
  function Doubled(s: string): string {
    if s == "" then "" else (if s[0] == '%' then "%%" else [s[0]]) + Doubled(s[1..])
  }

  lemma {:induction false} QuotedReads(s: string, rest: string)
    ensures ReadQuoted(Escape(s) + "\"" + rest) == Word(Doubled(s), rest)
  {
    ThreePassesAreOne(s);
    OnePassReads(s, rest);
  }

  lemma {:induction false} OnePassReads(s: string, rest: string)
    ensures ReadQuoted(OnePass(s) + "\"" + rest) == Word(Doubled(s), rest)
  {
    if s == "" {
      assert OnePass(s) + "\"" + rest == "\"" + rest;
      assert ("\"" + rest)[1..] == rest;
    } else {
      var tail := OnePass(s[1..]) + "\"" + rest;
      OnePassReads(s[1..], rest);
      assert OnePass(s) + "\"" + rest == EscapeChar(s[0]) + tail;
      CharReads(s[0], tail);
    }
  }

  lemma CharReads(c: char, tail: string)
    requires ReadQuoted(tail).Word?
    ensures ReadQuoted(EscapeChar(c) + tail)
         == Word((if c == '%' then "%%" else [c]) + ReadQuoted(tail).text, ReadQuoted(tail).rest)
  {
    var s := EscapeChar(c) + tail;
    if c == '%' {
      assert s[1..] == "%" + tail && ("%" + tail)[1..] == tail;
      assert ReadQuoted("%" + tail) == Word("%" + ReadQuoted(tail).text, ReadQuoted(tail).rest);
      assert "%%" + ReadQuoted(tail).text == ['%'] + ("%" + ReadQuoted(tail).text);
    } else if c == '\\' || c == '\"' {
      assert s[2..] == tail && s[0] == '\\' && s[1] == c;
    } else {
      assert s[1..] == tail;
    }
  }

  lemma {:induction false} DoubledUndone(s: string)
    ensures Specifiers(Doubled(s)) == Some(s)
  {
    if s != "" {
      DoubledUndone(s[1..]);
      var d := Doubled(s);
      assert s == [s[0]] + s[1..];
      if s[0] == '%' {
        assert d[2..] == Doubled(s[1..]);
      } else {
        assert d[1..] == Doubled(s[1..]);
      }
    }
  }

  /** No part of the path is something systemd would expand. */
  predicate Plain(s: string) {
    forall i | 0 <= i <= |s| :: !Expandable(s[i..])
  }

  lemma {:induction false} PlainStays(s: string, env: string -> string)
    requires Plain(s)
    ensures Expand(s, env) == s
  {
    if s != "" {
      assert s[0..] == s;
      forall i | 0 <= i <= |s[1..]| ensures !Expandable(s[1..][i..]) { assert s[1..][i..] == s[i + 1..]; }
      PlainStays(s[1..], env);
      assert s == [s[0]] + s[1..];
    }
  }

  /** systemd takes it as it is. */
  predicate Verbatim(s: string) {
    Plain(s) && !Lone(s)
  }

  /** With all variables empty, an expansion makes the word shorter. */
  lemma {:induction false} ExpansionShortens(s: string)
    ensures |Expand(s, _ => "")| <= |s|
    ensures !Plain(s) ==> |Expand(s, _ => "")| < |s|
  {
    if s != "" {
      if Expandable(s) {
        if s[1] == '$' { ExpansionShortens(s[2..]); }
        else {
          var n := Position(s[2..], '}');
          ExpansionShortens(s[2..][n + 1..]);
        }
      } else {
        ExpansionShortens(s[1..]);
        if !Plain(s) {
          var i :| 0 <= i <= |s| && Expandable(s[i..]);
          assert s[0..] == s;
          assert s[1..][i - 1..] == s[i..];
        }
      }
    }
  }

  // ---- The rendered ExecStart line ----

  datatype Variables = Variables(node: string, entry: string, config: string, release: string)

  /** `template.replace(/@(NODE|ENTRY|CONFIG|RELEASE)@/g, …)`: one pass, left to right. */
  function Render(template: string, v: Variables): string
    decreases |template|
  {
    if template == "" then ""
    else if "@NODE@" <= template then Quote(v.node) + Render(template[6..], v)
    else if "@ENTRY@" <= template then Quote(v.entry) + Render(template[7..], v)
    else if "@CONFIG@" <= template then Quote(v.config) + Render(template[8..], v)
    else if "@RELEASE@" <= template then Quote(v.release) + Render(template[9..], v)
    else [template[0]] + Render(template[1..], v)
  }

  /** The value that the template check requires of `ExecStart`. */
  const EXEC_START := "@NODE@ @ENTRY@ --config @CONFIG@"

  lemma {:induction false} RenderVerbatim(text: string, rest: string, v: Variables)
    requires '@' !in text
    ensures Render(text + rest, v) == text + Render(rest, v)
  {
    if text == "" {
      assert text + rest == rest;
    } else {
      assert text[0] in text;
      assert (text + rest)[0] != '@' && (text + rest)[1..] == text[1..] + rest;
      assert forall c | c in text[1..] :: c in text;
      RenderVerbatim(text[1..], rest, v);
    }
  }

  lemma RenderNode(rest: string, v: Variables)
    ensures Render("@NODE@" + rest, v) == Quote(v.node) + Render(rest, v)
  {
    assert ("@NODE@" + rest)[6..] == rest;
  }

  lemma RenderEntry(rest: string, v: Variables)
    ensures Render("@ENTRY@" + rest, v) == Quote(v.entry) + Render(rest, v)
  {
    assert ("@ENTRY@" + rest)[1] == 'E' && ("@ENTRY@" + rest)[7..] == rest;
  }

  lemma RenderConfig(rest: string, v: Variables)
    ensures Render("@CONFIG@" + rest, v) == Quote(v.config) + Render(rest, v)
  {
    assert ("@CONFIG@" + rest)[1] == 'C' && ("@CONFIG@" + rest)[8..] == rest;
  }

  lemma Rendered(v: Variables)
    ensures Render(EXEC_START, v) == Quote(v.node) + (" " + (Quote(v.entry) + (" --config " + Quote(v.config))))
  {
    hide Render, Quote;
    assert EXEC_START == "@NODE@" + (" " + ("@ENTRY@" + (" --config " + ("@CONFIG@" + ""))));
    RenderNode(" " + ("@ENTRY@" + (" --config " + ("@CONFIG@" + ""))), v);
    RenderVerbatim(" ", "@ENTRY@" + (" --config " + ("@CONFIG@" + "")), v);
    RenderEntry(" --config " + ("@CONFIG@" + ""), v);
    RenderVerbatim(" --config ", "@CONFIG@" + "", v);
    RenderConfig("", v);
    RenderEmpty(v);
    assert Quote(v.config) + "" == Quote(v.config);
  }

  lemma RenderEmpty(v: Variables)
    ensures Render("", v) == ""
  {
  }

  lemma WordsQuoted(s: string, rest: string)
    requires rest == "" || rest[0] == ' '
    requires Words(rest).Some?
    ensures Words(Quote(s) + rest) == Some([Doubled(s)] + Words(rest).value)
  {
    hide Escape, Words, ReadQuoted, Doubled;
    QuotedReads(s, rest);
    assert (Quote(s) + rest)[1..] == Escape(s) + "\"" + rest;
    QuotedWord(Quote(s) + rest, Doubled(s), rest);
  }

  lemma QuotedWord(s: string, t: string, rest: string)
    requires s != "" && s[0] == '\"' && ReadQuoted(s[1..]) == Word(t, rest)
    requires rest == "" || rest[0] == ' '
    requires Words(rest).Some?
    ensures Words(s) == Some([t] + Words(rest).value)
  {
  }

  lemma WordsBlank(rest: string)
    ensures Words(" " + rest) == Words(rest)
  {
    assert (" " + rest)[1..] == rest;
  }

  lemma {:induction false} PlainReads(text: string, rest: string)
    requires forall c | c in text :: c !in " \\\"\'"
    requires rest == "" || rest[0] == ' '
    ensures ReadPlain(text + rest) == Word(text, rest)
  {
    if text == "" {
      assert text + rest == rest;
    } else {
      assert text[0] in text && forall c | c in text[1..] :: c in text;
      assert (text + rest)[1..] == text[1..] + rest;
      PlainReads(text[1..], rest);
      assert text == [text[0]] + text[1..];
    }
  }

  lemma RenderedWords(v: Variables)
    ensures Words(Render(EXEC_START, v)) == Some([Doubled(v.node), Doubled(v.entry), "--config", Doubled(v.config)])
  {
    hide Quote, Words, Render, Doubled;
    Rendered(v);
    WordsEmpty();
    assert Quote(v.config) + "" == Quote(v.config);
    WordsQuoted(v.config, "");
    WordsBlank(Quote(v.config));
    WordsOption(" " + Quote(v.config));
    assert "--config" + (" " + Quote(v.config)) == "--config " + Quote(v.config);
    WordsBlank("--config " + Quote(v.config));
    assert " " + ("--config " + Quote(v.config)) == " --config " + Quote(v.config);
    WordsQuoted(v.entry, " --config " + Quote(v.config));
    WordsBlank(Quote(v.entry) + (" --config " + Quote(v.config)));
    WordsQuoted(v.node, " " + (Quote(v.entry) + (" --config " + Quote(v.config))));
    assert [Doubled(v.node)] + ([Doubled(v.entry)] + (["--config"] + ([Doubled(v.config)] + [])))
        == [Doubled(v.node), Doubled(v.entry), "--config", Doubled(v.config)];
  }

  lemma WordsEmpty()
    ensures Words("") == Some([])
  {
  }

  lemma WordsOption(rest: string)
    requires rest != "" && rest[0] == ' ' && Words(rest).Some?
    ensures Words("--config" + rest) == Some(["--config"] + Words(rest).value)
  {
    PlainReads("--config", rest);
  }

  /** In every environment the command line gives back exactly the intended arguments, if and only if no
      path contains a dollar sign that systemd would expand, and none is a lone variable. */
  lemma CommandLineRoundTrip(v: Variables)
    ensures (forall env :: CommandLine(Render(EXEC_START, v), env) == Some([v.node, v.entry, "--config", v.config]))
       <==> Verbatim(v.node) && Verbatim(v.entry) && Verbatim(v.config)
  {
    hide Words, Render, Expand, Plain, Specifiers, Doubled, Piece, Arguments, Verbatim;
    RenderedWords(v);
    DoubledUndone(v.node);
    DoubledUndone(v.entry);
    DoubledUndone(v.config);
    forall env ensures CommandLine(Render(EXEC_START, v), env)
      == Some(Piece(v.node, env) + Piece(v.entry, env) + ["--config"] + Piece(v.config, env))
    {
      ExpandedArguments(v, env);
    }
    if Verbatim(v.node) && Verbatim(v.entry) && Verbatim(v.config) {
      assert [v.node] + [v.entry] + ["--config"] + [v.config] == [v.node, v.entry, "--config", v.config];
      forall env
        ensures Piece(v.node, env) == [v.node] && Piece(v.entry, env) == [v.entry] && Piece(v.config, env) == [v.config]
      {
        VerbatimStays(v.node, env);
        VerbatimStays(v.entry, env);
        VerbatimStays(v.config, env);
      }
    } else {
      var none := Environment(_ => "", _ => []);
      NoneLost(v.node);
      NoneLost(v.entry);
      NoneLost(v.config);
      var a, b, c := Piece(v.node, none), Piece(v.entry, none), Piece(v.config, none);
      assert CommandLine(Render(EXEC_START, v), none) == Some(a + b + ["--config"] + c);
      if a + b + ["--config"] + c == [v.node, v.entry, "--config", v.config] { Aligned(a, b, c, v); }
    }
  }

  lemma Aligned(a: seq<string>, b: seq<string>, c: seq<string>, v: Variables)
    requires |a| <= 1 && |b| <= 1 && |c| <= 1 && a + b + ["--config"] + c == [v.node, v.entry, "--config", v.config]
    ensures a == [v.node] && b == [v.entry] && c == [v.config]
  {
    var all := a + b + ["--config"] + c;
    assert |a| == 1 && |b| == 1 && |c| == 1;
    assert all[0] == a[0] && all[1] == b[0] && all[3] == c[0];
  }

  lemma VerbatimStays(s: string, env: Environment)
    requires Verbatim(s)
    ensures Piece(s, env) == [s]
  {
    hide Plain, Expand;
    PlainStays(s, env.value);
  }

  /** Without any variable, only what is taken as it is remains. */
  lemma NoneLost(s: string)
    ensures var none := Environment(_ => "", _ => []);
      |Piece(s, none)| <= 1 && (Piece(s, none) == [s] <==> Verbatim(s))
  {
    hide Plain, Expand;
    var none := Environment(_ => "", _ => []);
    ExpansionShortens(s);
    if Verbatim(s) { VerbatimStays(s, none); }
  }

  /** A path from the root is never a lone variable, so only `$$` and `${NAME}` inside it matter. */
  lemma PathsFromTheRoot(v: Variables)
    requires forall s | s in {v.node, v.entry, v.config} :: s != "" && s[0] == '/'
    ensures (forall env :: CommandLine(Render(EXEC_START, v), env) == Some([v.node, v.entry, "--config", v.config]))
       <==> Plain(v.node) && Plain(v.entry) && Plain(v.config)
  {
    assert v.node in {v.node, v.entry, v.config} && v.entry in {v.node, v.entry, v.config};
    assert v.config in {v.node, v.entry, v.config};
    hide Plain, CommandLine, Render;
    CommandLineRoundTrip(v);
  }

  /** At an input: a runtime root with two dollar signs does not come back. */
  lemma DollarsAreLost(v: Variables)
    requires v.config == "/srv/a$$b/config.json"
    ensures exists env :: CommandLine(Render(EXEC_START, v), env) != Some([v.node, v.entry, "--config", v.config])
  {
    assert Expandable(v.config[6..]) && !Plain(v.config);
    hide Plain, CommandLine, Render;
    CommandLineRoundTrip(v);
  }

  lemma OptionIsPlain()
    ensures Specifiers("--config") == Some("--config") && Plain("--config")
  {
    hide Plain, Specifiers, Doubled;
    DoubledUndone("--config");
    Undoubled("--config");
    NoDollar("--config");
  }

  lemma NoDollar(s: string)
    requires '$' !in s
    ensures Plain(s)
  {
    forall i | 0 <= i <= |s| ensures !Expandable(s[i..]) {
      if i < |s| { assert s[i] in s && s[i..][0] == s[i]; }
    }
  }

  lemma {:induction false} Undoubled(s: string)
    requires '%' !in s
    ensures Doubled(s) == s
  {
    if s != "" {
      assert s[0] in s && forall c | c in s[1..] :: c in s;
      Undoubled(s[1..]);
      assert s == [s[0]] + s[1..];
    }
  }

  lemma ExpandedArguments(v: Variables, env: Environment)
    requires Specifiers(Doubled(v.node)) == Some(v.node) && Specifiers(Doubled(v.entry)) == Some(v.entry)
    requires Specifiers(Doubled(v.config)) == Some(v.config)
    ensures Arguments([Doubled(v.node), Doubled(v.entry), "--config", Doubled(v.config)], env)
         == Some(Piece(v.node, env) + Piece(v.entry, env) + ["--config"] + Piece(v.config, env))
  {
    hide Expand, Specifiers, Doubled, Plain, Arguments, Piece;
    OptionIsPlain();
    OptionStays(env);
    var d := Doubled(v.config);
    NoArguments(env);
    ArgumentsStep(d, [], env);
    ArgumentsStep("--config", [d] + [], env);
    ArgumentsStep(Doubled(v.entry), ["--config"] + ([d] + []), env);
    ArgumentsStep(Doubled(v.node), [Doubled(v.entry)] + (["--config"] + ([d] + [])), env);
    assert [Doubled(v.node)] + ([Doubled(v.entry)] + (["--config"] + ([d] + [])))
        == [Doubled(v.node), Doubled(v.entry), "--config", d];
    var a, b, c := Piece(v.node, env), Piece(v.entry, env), Piece(v.config, env);
    assert a + (b + (["--config"] + (c + []))) == a + b + ["--config"] + c;
  }

  lemma OptionStays(env: Environment)
    ensures Piece("--config", env) == ["--config"]
  {
    hide Plain, Expand, Specifiers;
    OptionIsPlain();
    PlainStays("--config", env.value);
  }

  lemma NoArguments(env: Environment)
    ensures Arguments([], env) == Some([])
  {
  }

  lemma ArgumentsStep(w: string, rest: seq<string>, env: Environment)
    requires Specifiers(w).Some? && Arguments(rest, env).Some?
    ensures Arguments([w] + rest, env) == Some(Piece(Specifiers(w).value, env) + Arguments(rest, env).value)
  {
    hide Piece;
    assert ([w] + rest)[1..] == rest;
  }

  // ---- What the last check of the rendered text refuses ----

  predicate NameChar(c: char) {
    'A' <= c <= 'Z' || c == '_'
  }

  /** `^[A-Z_]*@` */
  predicate Closes(s: string) {
    s != "" && (s[0] == '@' || (NameChar(s[0]) && Closes(s[1..])))
  }

  /** `^@[A-Z_]+@` */
  predicate Placeholder(s: string) {
    |s| >= 2 && s[0] == '@' && NameChar(s[1]) && Closes(s[2..])
  }

  /** `/@[A-Z_]+@/.test(s)` */
  predicate Unresolved(s: string) {
    s != "" && (Placeholder(s) || Unresolved(s[1..]))
  }

  /** From i to j, s holds what looks like a placeholder: capital letters and underscores between two at signs. */
  predicate LooksLikeOne(s: string, i: nat, j: nat) {
    && i + 1 < j < |s| && s[i] == '@' && s[j] == '@'
    && forall k | i < k < j :: 'A' <= s[k] <= 'Z' || s[k] == '_'
  }

  lemma {:induction false} ClosesIff(s: string)
    ensures Closes(s) <==> exists j | 0 <= j < |s| :: s[j] == '@' && forall k | 0 <= k < j :: NameChar(s[k])
  {
    if s != "" {
      ClosesIff(s[1..]);
      if s[0] == '@' {
      } else if NameChar(s[0]) {
        if Closes(s[1..]) {
          var j :| 0 <= j < |s| - 1 && s[1..][j] == '@' && forall k | 0 <= k < j :: NameChar(s[1..][k]);
          assert s[j + 1] == '@' && forall k | 0 < k < j + 1 :: s[k] == s[1..][k - 1];
        }
        if j :| 0 < j < |s| && s[j] == '@' && forall k | 0 <= k < j :: NameChar(s[k]) {
          assert s[1..][j - 1] == '@' && forall k | 0 <= k < j - 1 :: s[1..][k] == s[k + 1];
        }
      }
    }
  }

  lemma PlaceholderIff(s: string)
    ensures Placeholder(s) <==> exists j :: LooksLikeOne(s, 0, j)
  {
    if |s| >= 2 && s[0] == '@' && NameChar(s[1]) {
      var t := s[2..];
      ClosesIff(t);
      if Closes(t) {
        var j :| 0 <= j < |t| && t[j] == '@' && forall k | 0 <= k < j :: NameChar(t[k]);
        assert forall k | 2 <= k < j + 2 :: s[k] == t[k - 2];
        assert LooksLikeOne(s, 0, j + 2);
      }
      if j :| LooksLikeOne(s, 0, j) {
        assert t[j - 2] == '@' && forall k | 0 <= k < j - 2 :: t[k] == s[k + 2];
      }
    }
  }

  /** A text is unresolved exactly if what looks like a placeholder is anywhere in it. */
  lemma {:induction false} UnresolvedIff(s: string)
    ensures Unresolved(s) <==> exists i, j :: LooksLikeOne(s, i, j)
  {
    if s != "" {
      hide Placeholder;
      PlaceholderIff(s);
      UnresolvedIff(s[1..]);
      forall i: nat, j: nat | 0 < i && LooksLikeOne(s, i, j) ensures LooksLikeOne(s[1..], i - 1, j - 1) {
        assert forall k | 0 <= k < |s| - 1 :: s[1..][k] == s[k + 1];
      }
      forall i: nat, j: nat | LooksLikeOne(s[1..], i, j) ensures LooksLikeOne(s, i + 1, j + 1) {
        assert forall k | 0 < k < |s| :: s[k] == s[1..][k - 1];
      }
    }
  }

  /** The rendered unit, unless it still looks like a template. */
  function RenderUnit(template: string, v: Variables): Option<string> {
    var text := Render(template, v);
    if Unresolved(text) then None else Some(text)
  }

  predicate Stops(c: char) {
    c != '@' && !NameChar(c)
  }

  lemma {:induction false} ClosesBefore(a: string, c: char, b: string)
    requires Stops(c)
    ensures Closes(a + ([c] + b)) <==> Closes(a)
  {
    if a == "" {
      assert a + ([c] + b) == [c] + b;
    } else {
      assert (a + ([c] + b))[1..] == a[1..] + ([c] + b);
      ClosesBefore(a[1..], c, b);
    }
  }

  /** A character that no placeholder contains separates the text into two. */
  lemma {:induction false} UnresolvedApart(a: string, c: char, b: string)
    requires Stops(c)
    ensures Unresolved(a + ([c] + b)) <==> Unresolved(a) || Unresolved(b)
  {
    var s := a + ([c] + b);
    if a == "" {
      assert s == [c] + b && s[1..] == b;
    } else {
      assert s[1..] == a[1..] + ([c] + b);
      UnresolvedApart(a[1..], c, b);
      if |a| >= 2 {
        assert s[2..] == a[2..] + ([c] + b);
        ClosesBefore(a[2..], c, b);
      }
    }
  }

  lemma {:induction false} OnePassCloses(s: string)
    ensures Closes(OnePass(s)) <==> Closes(s)
  {
    if s != "" {
      OnePassCloses(s[1..]);
      assert OnePass(s) == EscapeChar(s[0]) + OnePass(s[1..]);
      if |EscapeChar(s[0])| == 1 { assert OnePass(s)[1..] == OnePass(s[1..]); }
    }
  }

  lemma OnePassHead(s: string)
    requires s != "" && !Stops(s[0])
    ensures OnePass(s) == [s[0]] + OnePass(s[1..]) && OnePass(s)[1..] == OnePass(s[1..])
  {
  }

  lemma {:induction false} OnePassUnresolved(s: string)
    ensures Unresolved(OnePass(s)) <==> Unresolved(s)
  {
    hide OnePass, Closes;
    if s == "" {
      assert OnePass(s) == "" by { OnePassEmpty(); }
    } else {
      OnePassUnresolved(s[1..]);
      if Stops(s[0]) {
        OnePassStops(s);
      } else {
        OnePassHead(s);
        SamePlaceholder(s);
      }
    }
  }

  lemma OnePassEmpty()
    ensures OnePass("") == ""
  {
  }

  lemma OnePassStops(s: string)
    requires s != "" && Stops(s[0])
    ensures Unresolved(OnePass(s)) <==> Unresolved(OnePass(s[1..]))
  {
    var rest := OnePass(s[1..]);
    var e := EscapeChar(s[0]);
    assert OnePass(s) == e + rest;
    EscapeStops(s[0]);
    hide *;
    if |e| == 1 {
      assert e == [e[0]];
      StopFirst(e[0], rest);
    } else {
      StopTwice(e, rest);
    }
  }

  lemma EscapeStops(c: char)
    requires Stops(c)
    ensures var e := EscapeChar(c); 1 <= |e| <= 2 && Stops(e[0]) && (|e| == 2 ==> Stops(e[1]))
  {
  }

  lemma StopTwice(e: string, rest: string)
    requires |e| == 2 && Stops(e[0]) && Stops(e[1])
    ensures Unresolved(e + rest) <==> Unresolved(rest)
  {
    hide *;
    assert e + rest == [e[0]] + ([e[1]] + rest);
    StopFirst(e[0], [e[1]] + rest);
    StopFirst(e[1], rest);
  }

  lemma StopFirst(c: char, rest: string)
    requires Stops(c)
    ensures Unresolved([c] + rest) <==> Unresolved(rest)
  {
    assert ([c] + rest)[1..] == rest && ([c] + rest)[0] == c;
    hide Closes;
  }

  lemma SamePlaceholder(s: string)
    requires s != "" && !Stops(s[0])
    ensures Placeholder(OnePass(s)) <==> Placeholder(s)
  {
    hide OnePass;
    OnePassHead(s);
    if |s| >= 2 {
      if Stops(s[1]) {
        NotNamed(s[1..]);
      } else {
        OnePassHead(s[1..]);
        OnePassCloses(s[2..]);
        assert OnePass(s)[2..] == OnePass(s[1..])[1..] && s[1..][1..] == s[2..];
      }
    } else {
      assert s[1..] == "";
      OnePassEmpty();
    }
  }

  lemma NotNamed(s: string)
    requires s != "" && Stops(s[0])
    ensures OnePass(s) != "" && !NameChar(OnePass(s)[0])
  {
  }

  lemma QuotedUnresolved(s: string, rest: string)
    ensures Unresolved(Quote(s) + rest) <==> Unresolved(s) || Unresolved(rest)
  {
    hide Unresolved, OnePass;
    ThreePassesAreOne(s);
    OnePassUnresolved(s);
    UnresolvedApart(OnePass(s), '\"', rest);
    UnresolvedApart("", '\"', OnePass(s) + (['\"'] + rest));
    assert Unresolved("") == false by { NothingUnresolved(); }
    assert Quote(s) + rest == "" + (['\"'] + (OnePass(s) + (['\"'] + rest)));
  }

  lemma NothingUnresolved()
    ensures !Unresolved("") && !Unresolved("--config")
  {
    UnresolvedApart("", '-', "-config");
    UnresolvedApart("", '-', "config");
    assert "--config" == "" + (['-'] + "-config") && "-config" == "" + (['-'] + "config");
    SmallLetters("config");
  }

  lemma {:induction false} SmallLetters(s: string)
    requires forall c | c in s :: c != '@'
    ensures !Unresolved(s)
  {
    if s != "" {
      assert s[0] in s && forall c | c in s[1..] :: c in s;
      SmallLetters(s[1..]);
    }
  }

  lemma LineUnresolved(v: Variables)
    ensures Unresolved(Render(EXEC_START, v)) <==> Unresolved(v.node) || Unresolved(v.entry) || Unresolved(v.config)
  {
    hide Unresolved, Render, Quote;
    Rendered(v);
    NothingUnresolved();
    var config := Quote(v.config) + "";
    var option := " --config " + Quote(v.config);
    var entry := " " + (Quote(v.entry) + option);
    QuotedUnresolved(v.config, "");
    assert config == Quote(v.config);
    UnresolvedApart("--config", ' ', Quote(v.config));
    UnresolvedApart("", ' ', "--config" + ([' '] + Quote(v.config)));
    assert option == "" + ([' '] + ("--config" + ([' '] + Quote(v.config))));
    QuotedUnresolved(v.entry, option);
    UnresolvedApart("", ' ', Quote(v.entry) + option);
    assert entry == "" + ([' '] + (Quote(v.entry) + option));
    QuotedUnresolved(v.node, entry);
  }

  // ---- The whole unit ----

  /** No character of the text can end a placeholder early. */
  predicate Unstopped(word: string) {
    forall c | c in word :: !Stops(c)
  }

  lemma PrefixStays(word: string, a: string, c: char, b: string)
    requires Unstopped(word) && Stops(c)
    ensures word <= a + ([c] + b) <==> word <= a
  {
    var s := a + ([c] + b);
    if |a| < |word| {
      assert s[|a|] == c && word[|a|] in word;
    }
  }

  lemma NamesUnstopped()
    ensures Unstopped("@NODE@") && Unstopped("@ENTRY@") && Unstopped("@CONFIG@") && Unstopped("@RELEASE@")
  {
  }

  lemma TakenApart(a: string, c: char, b: string, v: Variables)
    requires Stops(c) && a != ""
    ensures var s := a + ([c] + b);
      Taken(s) == Taken(a) && s[Taken(s)..] == a[Taken(a)..] + ([c] + b) && Filled(s, v) == Filled(a, v)
  {
    NamesUnstopped();
    PrefixStays("@NODE@", a, c, b);
    PrefixStays("@ENTRY@", a, c, b);
    PrefixStays("@CONFIG@", a, c, b);
    PrefixStays("@RELEASE@", a, c, b);
    hide Quote;
  }

  /** Filling in stops at a character that no placeholder contains. */
  lemma {:induction false} RenderApart(a: string, c: char, b: string, v: Variables)
    requires Stops(c)
    ensures Render(a + ([c] + b), v) == Render(a, v) + ([c] + Render(b, v))
    decreases |a|
  {
    var s := a + ([c] + b);
    if a == "" {
      assert s == [c] + b && s[1..] == b && s[0] == c;
      RenderOther(s, v);
      assert Render("", v) + ([c] + Render(b, v)) == [c] + Render(b, v);
    } else {
      hide Render, Filled, Taken;
      TakenApart(a, c, b, v);
      var n := Taken(a);
      RenderApart(a[n..], c, b, v);
      RenderTaken(a, v);
      RenderTaken(s, v);
      assert Filled(a, v) + (Render(a[n..], v) + ([c] + Render(b, v)))
        == Filled(a, v) + Render(a[n..], v) + ([c] + Render(b, v));
    }
  }

  lemma RenderOther(s: string, v: Variables)
    requires s != "" && s[0] != '@'
    ensures Render(s, v) == [s[0]] + Render(s[1..], v)
  {
  }

  /** The length of the placeholder at the head, or one character. */
  function Taken(s: string): (n: nat)
    requires s != ""
    ensures 1 <= n <= |s|
  {
    if "@NODE@" <= s then 6 else if "@ENTRY@" <= s then 7 else if "@CONFIG@" <= s then 8
    else if "@RELEASE@" <= s then 9 else 1
  }

  /** What is put in its place. */
  function Filled(s: string, v: Variables): string
    requires s != ""
  {
    if "@NODE@" <= s then Quote(v.node) else if "@ENTRY@" <= s then Quote(v.entry)
    else if "@CONFIG@" <= s then Quote(v.config) else if "@RELEASE@" <= s then Quote(v.release) else [s[0]]
  }

  lemma RenderTaken(s: string, v: Variables)
    requires s != ""
    ensures Render(s, v) == Filled(s, v) + Render(s[Taken(s)..], v)
  {
    hide Quote;
  }

  /** The text before and after the value of ExecStart does not run into it. */
  predicate Around(before: string, after: string) {
    before != "" && before[|before| - 1] == '=' && (after == "" || Stops(after[0]))
  }

  /** The unit is filled in piece by piece. */
  lemma UnitRendered(before: string, after: string, v: Variables)
    requires Around(before, after)
    ensures Render(before + (EXEC_START + after), v) == Render(before, v) + (Render(EXEC_START, v) + Render(after, v))
  {
    hide Render;
    var front := before[..|before| - 1];
    assert before == front + (['='] + "") && before + (EXEC_START + after) == front + (['='] + (EXEC_START + after));
    RenderApart(front, '=', EXEC_START + after, v);
    RenderApart(front, '=', "", v);
    RenderEmpty(v);
    if after == "" {
      assert EXEC_START + after == EXEC_START;
      assert Render(EXEC_START, v) + "" == Render(EXEC_START, v);
    } else {
      assert after == "" + ([after[0]] + after[1..]) && EXEC_START + after == EXEC_START + ([after[0]] + after[1..]);
      RenderApart(EXEC_START, after[0], after[1..], v);
      RenderApart("", after[0], after[1..], v);
    }
    var line := Render(EXEC_START + after, v);
    assert Render(front, v) + (['='] + line) == Render(front, v) + (['='] + "") + line;
  }

  /** The check refuses the unit exactly if one of the three paths contains what looks like a placeholder, or the
      text around them does once it is filled in: quoting neither makes nor hides one. */
  lemma RefusedExactly(before: string, after: string, v: Variables)
    requires Around(before, after)
    ensures RenderUnit(before + (EXEC_START + after), v).None? <==>
      || Unresolved(v.node) || Unresolved(v.entry) || Unresolved(v.config)
      || Unresolved(Render(before, v)) || Unresolved(Render(after, v))
    ensures RenderUnit(before + (EXEC_START + after), v).Some? ==>
      RenderUnit(before + (EXEC_START + after), v).value
        == Render(before, v) + (Render(EXEC_START, v) + Render(after, v))
  {
    hide Unresolved, Render;
    UnitRendered(before, after, v);
    LineUnresolved(v);
    var front := before[..|before| - 1];
    assert before == front + (['='] + "");
    RenderApart(front, '=', "", v);
    RenderEmpty(v);
    if after != "" {
      assert after == "" + ([after[0]] + after[1..]);
      RenderApart("", after[0], after[1..], v);
    }
    JoinedUnresolved(Render(front, v), Render(EXEC_START, v), Render(after, v));
    assert Render(front, v) + (['='] + "") == Render(front, v) + "=";
  }

  lemma JoinedUnresolved(front: string, line: string, rest: string)
    requires rest == "" || Stops(rest[0])
    ensures Unresolved(front + "=" + (line + rest)) <==> Unresolved(front + "=") || Unresolved(line) || Unresolved(rest)
  {
    hide Unresolved;
    UnresolvedApart(front, '=', "");
    UnresolvedApart(front, '=', line + rest);
    assert front + (['='] + "") == front + "=" && front + (['='] + (line + rest)) == front + "=" + (line + rest);
    EmptyResolved();
    if rest == "" {
      assert line + rest == line;
    } else {
      var c, tail := rest[0], rest[1..];
      assert rest == [c] + tail && rest == "" + ([c] + tail);
      UnresolvedApart(line, c, tail);
      UnresolvedApart("", c, tail);
    }
  }

  lemma EmptyResolved()
    ensures !Unresolved("")
  {
  }

  /** At an input: a runtime root of that form is refused, although every check of the path has passed. */
  lemma PlaceholderIsRefused(before: string, after: string, v: Variables)
    requires Around(before, after) && v.config == "/srv/@X@/config.json"
    ensures RenderUnit(before + (EXEC_START + after), v).None?
  {
    var rest := v.config[5..];
    assert Closes(rest[2..]) && Placeholder(rest);
    InsideIsUnresolved(v.config, 5);
    hide Unresolved, Render, RenderUnit;
    RefusedExactly(before, after, v);
  }

  lemma {:induction false} InsideIsUnresolved(s: string, i: nat)
    requires i < |s| && Placeholder(s[i..])
    ensures Unresolved(s)
  {
    if i > 0 {
      assert s[1..][i - 1..] == s[i..];
      InsideIsUnresolved(s[1..], i - 1);
    } else {
      assert s[0..] == s;
    }
  }

  // ---- The line stays a line ----

  /** What `absolute` accepts, as far as characters go. */
  predicate NoControl(s: string) {
    forall c | c in s :: c as int >= 32 && c as int != 127
  }

  lemma {:induction false} EscapeKeepsControlsOut(s: string)
    requires NoControl(s)
    ensures NoControl(Quote(s))
  {
    ThreePassesAreOne(s);
    OnePassClean(s);
  }

  lemma {:induction false} OnePassClean(s: string)
    requires NoControl(s)
    ensures NoControl(OnePass(s))
  {
    if s != "" {
      assert s[0] in s && forall c | c in s[1..] :: c in s;
      OnePassClean(s[1..]);
    }
  }
}
