/**
 * The job hook scripts and their quoting (internal/jobstate/hooks.go), read
 * back by the shell's own rules: IEEE Std 1003.1, Shell Command Language,
 * sections 2.2.1 (escape character), 2.2.2 (single-quotes) and 2.3 (token
 * recognition).
 */
module ShellQuote {
  import opened Options

  /** Every quote closes the quoting, stands escaped, and opens it again. */
  function Piece(c: char): string { if c == '\'' then "'\\''" else [c] }

  function Escaped(s: string, n: nat): string
    requires n <= |s|
  {
    if n == 0 then "" else Escaped(s, n - 1) + Piece(s[n - 1])
  }

  function Quote(s: string): string { "'" + Escaped(s, |s|) + "'" }

  datatype Token = Word(text: string) | OrIf | Pipe | Newline

  /**
   * Where the shell is in its input. `Bar` has seen one `|`; `Escape` has seen
   * a backslash, inside a word or before one; `Stuck` has met something these
   * rules do not cover.
   */
  datatype Mode = Blank | InWord | InQuotes | Escape(inWord: bool) | Comment | Bar | Stuck

  datatype Shell = Shell(mode: Mode, word: string, out: seq<Token>) {
    /** Ends the word there is, and goes on. */
    function Delimit(next: Mode): Shell {
      Shell(next, "", if mode.InWord? then out + [Word(word)] else out)
    }

    function Emit(token: Token): Shell { this.(out := out + [token]) }

    function Append(c: char): Shell { Shell(InWord, word + [c], out) }
  }

  const NUL: char := 0 as char

  /** Characters that mean only themselves, quoted or not. */
  predicate Plain(c: char) { 'a' <= c <= 'z' || 'A' <= c <= 'Z' || '0' <= c <= '9' || c in "-_./" }

  /** One character outside quotes, comments and escapes, with no `|` pending. */
  function Unquoted(s: Shell, c: char): Shell {
    if c == '\\' then s.(mode := Escape(s.mode.InWord?))
    else if c == '\'' then s.(mode := InQuotes)
    else if c == ' ' || c == '\t' then s.Delimit(Blank)
    else if c == '\n' then s.Delimit(Blank).Emit(Newline)
    else if c == '|' then s.Delimit(Bar)
    else if c == '#' && !s.mode.InWord? then s.(mode := Comment)
    else if Plain(c) || c == '#' then s.Append(c)
    else s.(mode := Stuck)
  }

  function Step(s: Shell, c: char): Shell {
    if c == NUL then s.(mode := Stuck)
    else
      match s.mode
      case Stuck => s
      case InQuotes => if c == '\'' then s.(mode := InWord) else s.(word := s.word + [c])
      case Comment => if c == '\n' then Shell(Blank, "", s.out + [Newline]) else s
      case Escape(inWord) => if c == '\n' then s.(mode := if inWord then InWord else Blank) else s.Append(c)
      case Bar =>
        if c == '|' then Shell(Blank, "", s.out + [OrIf]) else Unquoted(Shell(Blank, "", s.out + [Pipe]), c)
      case _ => Unquoted(s, c)
  }

  /** The shell after the first n characters of the text. */
  function Read(s: Shell, text: string, n: nat): Shell
    requires n <= |text|
  {
    if n == 0 then s else Step(Read(s, text, n - 1), text[n - 1])
  }

  function ReadAll(s: Shell, text: string): Shell { Read(s, text, |text|) }

  const START: Shell := Shell(Blank, "", [])

  /** The tokens of a whole script, or nothing if it is cut short or not covered. */
  function Tokens(text: string): Option<seq<Token>> {
    var s := ReadAll(START, text);
    match s.mode
    case Blank => Some(s.out)
    case InWord => Some(s.out + [Word(s.word)])
    case Comment => Some(s.out)
    case Bar => Some(s.out + [Pipe])
    case _ => None
  }

  lemma {:induction false} ReadJoined(s: Shell, a: string, b: string, n: nat)
    requires n <= |b|
    ensures Read(s, a + b, |a| + n) == Read(ReadAll(s, a), b, n)
  {
    if n == 0 {
      ReadPrefix(s, a, b, |a|);
    } else {
      ReadJoined(s, a, b, n - 1);
      assert (a + b)[|a| + n - 1] == b[n - 1];
    }
  }

  lemma {:induction false} ReadPrefix(s: Shell, a: string, b: string, n: nat)
    requires n <= |a|
    ensures Read(s, a + b, n) == Read(s, a, n)
  {
    if n > 0 { ReadPrefix(s, a, b, n - 1); }
  }

  lemma Joined(s: Shell, a: string, b: string)
    ensures ReadAll(s, a + b) == ReadAll(ReadAll(s, a), b)
  {
    ReadJoined(s, a, b, |b|);
  }

  lemma ReadOne(s: Shell, c: char)
    ensures ReadAll(s, [c]) == Step(s, c)
  {
    assert Read(s, [c], 0) == s;
  }

  predicate NulFree(s: string) { forall i :: 0 <= i < |s| ==> s[i] != NUL }

  lemma ReadPiece(word: string, out: seq<Token>, c: char)
    requires c != NUL
    ensures ReadAll(Shell(InQuotes, word, out), Piece(c)) == Shell(InQuotes, word + [c], out)
  {
    var s := Shell(InQuotes, word, out);
    if c == '\'' {
      var p := "'\\''";
      assert Read(s, p, 1) == Shell(InWord, word, out);
      assert Read(s, p, 2) == Shell(Escape(true), word, out);
      assert Read(s, p, 3) == Shell(InWord, word + ['\''], out);
      assert Read(s, p, 4) == Shell(InQuotes, word + ['\''], out);
    } else {
      ReadOne(s, c);
    }
  }

  lemma {:induction false} ReadEscaped(out: seq<Token>, s: string, n: nat)
    requires n <= |s| && NulFree(s)
    ensures ReadAll(Shell(InQuotes, "", out), Escaped(s, n)) == Shell(InQuotes, s[..n], out)
  {
    if n > 0 {
      ReadEscaped(out, s, n - 1);
      Joined(Shell(InQuotes, "", out), Escaped(s, n - 1), Piece(s[n - 1]));
      ReadPiece(s[..n - 1], out, s[n - 1]);
      assert s[..n] == s[..n - 1] + [s[n - 1]];
    }
  }

  /** A quoted path, where a word may begin, is read as exactly that path. */
  lemma ReadQuoted(out: seq<Token>, s: string)
    requires NulFree(s)
    ensures ReadAll(Shell(Blank, "", out), Quote(s)) == Shell(InWord, s, out)
  {
    var start, body := Shell(Blank, "", out), Escaped(s, |s|);
    Joined(start, "'" + body, "'");
    Joined(start, "'", body);
    ReadOne(start, '\'');
    ReadEscaped(out, s, |s|);
    assert s[..|s|] == s;
    ReadOne(Shell(InQuotes, s, out), '\'');
  }

  predicate AllPlain(s: string) { forall i :: 0 <= i < |s| ==> Plain(s[i]) }

  lemma {:induction false} ReadPlain(out: seq<Token>, s: string, n: nat)
    requires n <= |s| && AllPlain(s)
    ensures Read(Shell(Blank, "", out), s, n) == if n == 0 then Shell(Blank, "", out) else Shell(InWord, s[..n], out)
  {
    if n > 0 {
      ReadPlain(out, s, n - 1);
      assert Plain(s[n - 1]);
      assert s[..n] == s[..n - 1] + [s[n - 1]];
    }
  }

  /** A plain word stands for itself, and a path is quoted. */
  predicate Renders(text: string, arg: string) {
    (text == arg && AllPlain(arg) && arg != "") || (text == Quote(arg) && NulFree(arg))
  }

  /** One more argument after a word: a space, and a plain word or a quoted one. */
  lemma ReadArgument(word: string, out: seq<Token>, text: string, arg: string)
    requires Renders(text, arg)
    ensures ReadAll(Shell(InWord, word, out), " " + text) == Shell(InWord, arg, out + [Word(word)])
  {
    var s := Shell(InWord, word, out);
    Joined(s, " ", text);
    ReadOne(s, ' ');
    if text == Quote(arg) && NulFree(arg) {
      ReadQuoted(out + [Word(word)], arg);
    } else {
      ReadPlain(out + [Word(word)], arg, |arg|);
      assert arg[..|arg|] == arg;
    }
  }

  predicate OneLine(s: string) { forall i :: 0 <= i < |s| ==> s[i] != '\n' && s[i] != NUL }

  lemma {:induction false} ReadInComment(out: seq<Token>, text: string, n: nat)
    requires n <= |text| && OneLine(text)
    ensures Read(Shell(Comment, "", out), text, n) == Shell(Comment, "", out)
  {
    if n > 0 { ReadInComment(out, text, n - 1); }
  }

  /** A comment is a newline, whatever quotes and bars it has in it. */
  lemma ReadComment(out: seq<Token>, text: string)
    requires OneLine(text)
    ensures ReadAll(Shell(Blank, "", out), "#" + text + "\n") == Shell(Blank, "", out + [Newline])
  {
    var s := Shell(Blank, "", out);
    Joined(s, "#" + text, "\n");
    Joined(s, "#", text);
    ReadOne(s, '#');
    ReadInComment(out, text, |text|);
    ReadOne(Shell(Comment, "", out), '\n');
  }

  /** The comments of the template, each in parts, up to the command. */
  function Header(when: string): seq<seq<string>> {
    [ ["!/bin/sh"],
      [" Installed by Runnerly. ", "Do not edit: it is ", "rewritten whenever the agent"],
      [" starts."],
      [],
      [" GitHub's runner runs this ", when, " each job. It records ", "what the runner is doing"],
      [" so the agent can report it, ", "and cleans up Docker ", "afterwards."],
      [],
      [" A failure here must not ", "fail the job, which is ", "what the || true is for."] ]
  }

  function Parts(parts: seq<string>, n: nat): string
    requires n <= |parts|
  {
    if n == 0 then "" else Parts(parts, n - 1) + parts[n - 1]
  }

  function Comments(lines: seq<seq<string>>, n: nat): string
    requires n <= |lines|
  {
    if n == 0 then "" else Comments(lines, n - 1) + ("#" + Parts(lines[n - 1], |lines[n - 1]|) + "\n")
  }

  function Spaced(words: seq<string>, n: nat): string
    requires n <= |words|
  {
    if n == 0 then "" else Spaced(words, n - 1) + (" " + words[n - 1])
  }

  /** The command's arguments as the template writes them after the binary, and as they are meant. */
  function Written(name: string, statePath: string, configPath: string): seq<string> {
    ["agent", "hook", name, "--state", Quote(statePath), "--config", Quote(configPath)]
  }

  function Meant(name: string, statePath: string, configPath: string): seq<string> {
    ["agent", "hook", name, "--state", statePath, "--config", configPath]
  }

  function Command(binary: string, name: string, statePath: string, configPath: string): string {
    Quote(binary) + Spaced(Written(name, statePath, configPath), 7) + " || true\n"
  }

  /** The template with everything filled in. */
  function Script(when: string, binary: string, name: string, statePath: string, configPath: string): string {
    Comments(Header(when), |Header(when)|) + Command(binary, name, statePath, configPath)
  }

  function Newlines(n: nat): seq<Token> { seq(n, _ => Newline) }

  lemma ReadOneMoreComment(sofar: string, out: seq<Token>, text: string)
    requires ReadAll(START, sofar) == Shell(Blank, "", out) && OneLine(text)
    ensures ReadAll(START, sofar + ("#" + text + "\n")) == Shell(Blank, "", out + [Newline])
  {
    Joined(START, sofar, "#" + text + "\n");
    ReadComment(out, text);
  }

  lemma {:induction false} ReadComments(lines: seq<seq<string>>, n: nat)
    requires n <= |lines| && forall i :: 0 <= i < |lines| ==> OneLine(Parts(lines[i], |lines[i]|))
    ensures ReadAll(START, Comments(lines, n)) == Shell(Blank, "", Newlines(n))
  {
    if n > 0 {
      ReadComments(lines, n - 1);
      ReadOneMoreComment(Comments(lines, n - 1), Newlines(n - 1), Parts(lines[n - 1], |lines[n - 1]|));
      assert Newlines(n) == Newlines(n - 1) + [Newline];
    }
  }

  lemma {:induction false} PartsAreOneLine(parts: seq<string>, n: nat)
    requires n <= |parts| && AllOneLine(parts)
    ensures OneLine(Parts(parts, n))
  {
    if n > 0 { PartsAreOneLine(parts, n - 1); }
  }

  lemma HeaderTexts()
    ensures OneLine("!/bin/sh") && OneLine(" starts.") && OneLine("afterwards.")
    ensures OneLine(" Installed by Runnerly. ") && OneLine("Do not edit: it is ")
    ensures OneLine("rewritten whenever the agent")
  {
  }

  lemma TemplateTexts()
    ensures OneLine(" GitHub's runner runs this ") && OneLine(" each job. It records ")
    ensures OneLine("what the runner is doing")
  {
  }

  lemma ClosingTexts()
    ensures OneLine(" so the agent can report it, ") && OneLine("and cleans up Docker ")
    ensures OneLine(" A failure here must not ") && OneLine("fail the job, which is ")
    ensures OneLine("what the || true is for.")
  {
  }

  predicate AllOneLine(parts: seq<string>) { forall j :: 0 <= j < |parts| ==> OneLine(parts[j]) }

  lemma HeaderIsOneLineEach(when: string)
    requires OneLine(when)
    ensures forall i :: 0 <= i < |Header(when)| ==> OneLine(Parts(Header(when)[i], |Header(when)[i]|))
  {
    var lines := Header(when);
    assert AllOneLine(lines[0]) && AllOneLine(lines[1]) && AllOneLine(lines[2]) && AllOneLine(lines[3])
        && AllOneLine(lines[4]) && AllOneLine(lines[5]) && AllOneLine(lines[6]) && AllOneLine(lines[7]) by {
      HeaderTexts();
      TemplateTexts();
      ClosingTexts();
    }
    forall i | 0 <= i < |lines| ensures OneLine(Parts(lines[i], |lines[i]|)) {
      assert AllOneLine(lines[i]);
      PartsAreOneLine(lines[i], |lines[i]|);
    }
  }

  /** What the runner's hook is meant to run. */
  function Intended(binary: string, name: string, statePath: string, configPath: string): seq<Token> {
    [ Word(binary), Word("agent"), Word("hook"), Word(name), Word("--state"), Word(statePath),
      Word("--config"), Word(configPath), OrIf, Word("true"), Newline ]
  }

  function Words(first: string, args: seq<string>, n: nat): seq<Token>
    requires n <= |args| + 1
  {
    if n == 0 then [] else Words(first, args, n - 1) + [Word(Nth(first, args, n - 1))]
  }

  function Nth(first: string, args: seq<string>, n: nat): string
    requires n <= |args|
  {
    if n == 0 then first else args[n - 1]
  }

  predicate RenderAll(written: seq<string>, meant: seq<string>) {
    |written| == |meant| && forall i :: 0 <= i < |meant| ==> Renders(written[i], meant[i])
  }

  lemma ReadOneMore(s: Shell, sofar: string, word: string, out: seq<Token>, text: string, arg: string)
    requires ReadAll(s, sofar) == Shell(InWord, word, out) && Renders(text, arg)
    ensures ReadAll(s, sofar + (" " + text)) == Shell(InWord, arg, out + [Word(word)])
  {
    Joined(s, sofar, " " + text);
    ReadArgument(word, out, text, arg);
  }

  lemma {:induction false} ReadArguments(out: seq<Token>, first: string, written: seq<string>,
                                         meant: seq<string>, n: nat)
    requires RenderAll(written, meant) && n <= |meant|
    ensures ReadAll(Shell(InWord, first, out), Spaced(written, n)) ==
            Shell(InWord, Nth(first, meant, n), out + Words(first, meant, n))
  {
    if n == 0 {
      assert out + Words(first, meant, 0) == out;
    } else {
      ReadArguments(out, first, written, meant, n - 1);
      var word, words := Nth(first, meant, n - 1), Words(first, meant, n - 1);
      ReadOneMore(Shell(InWord, first, out), Spaced(written, n - 1), word, out + words, written[n - 1], meant[n - 1]);
      Associative(out, words, [Word(word)]);
    }
  }

  /** The end of the command: the word before it, the operator, and `true`. */
  lemma ReadOrTrue(word: string, out: seq<Token>)
    ensures ReadAll(Shell(InWord, word, out), " || true\n") ==
            Shell(Blank, "", out + [Word(word), OrIf, Word("true"), Newline])
  {
    var s, t := Shell(InWord, word, out), " || true\n";
    var before := out + [Word(word)];
    assert Read(s, t, 1) == Shell(Blank, "", before);
    assert Read(s, t, 2) == Shell(Bar, "", before);
    assert Read(s, t, 3) == Shell(Blank, "", before + [OrIf]);
    assert Read(s, t, 4) == Shell(Blank, "", before + [OrIf]);
    assert Read(s, t, 5) == Shell(InWord, "t", before + [OrIf]);
    assert Read(s, t, 6) == Shell(InWord, "tr", before + [OrIf]);
    assert Read(s, t, 7) == Shell(InWord, "tru", before + [OrIf]);
    assert Read(s, t, 8) == Shell(InWord, "true", before + [OrIf]);
    assert Read(s, t, 9) == Shell(Blank, "", before + [OrIf] + [Word("true")] + [Newline]);
  }

  lemma WordsAreIntended(binary: string, name: string, statePath: string, configPath: string)
    ensures Words(binary, Meant(name, statePath, configPath), 7) + [Word(configPath), OrIf, Word("true"), Newline]
         == Intended(binary, name, statePath, configPath)
  {
    var m := Meant(name, statePath, configPath);
    assert Words(binary, m, 1) == [Word(binary)];
    assert Words(binary, m, 2) == Words(binary, m, 1) + [Word(m[0])];
    assert Words(binary, m, 3) == Words(binary, m, 2) + [Word(m[1])];
    assert Words(binary, m, 4) == Words(binary, m, 3) + [Word(m[2])];
    assert Words(binary, m, 5) == Words(binary, m, 4) + [Word(m[3])];
    assert Words(binary, m, 6) == Words(binary, m, 5) + [Word(m[4])];
    assert Words(binary, m, 7) == Words(binary, m, 6) + [Word(m[5])];
  }

  lemma WrittenRendersMeant(name: string, statePath: string, configPath: string)
    requires NulFree(statePath) && NulFree(configPath) && AllPlain(name) && name != ""
    ensures RenderAll(Written(name, statePath, configPath), Meant(name, statePath, configPath))
  {
    assert AllPlain("agent") && AllPlain("hook") && AllPlain("--state") && AllPlain("--config");
  }

  lemma ReadToTheLastWord(out: seq<Token>, binary: string, written: seq<string>, meant: seq<string>)
    requires NulFree(binary) && RenderAll(written, meant) && meant != []
    ensures ReadAll(Shell(Blank, "", out), Quote(binary) + Spaced(written, |written|)) ==
            Shell(InWord, meant[|meant| - 1], out + Words(binary, meant, |meant|))
  {
    Joined(Shell(Blank, "", out), Quote(binary), Spaced(written, |written|));
    ReadQuoted(out, binary);
    ReadArguments(out, binary, written, meant, |meant|);
  }

  lemma ReadCommand(out: seq<Token>, binary: string, name: string, statePath: string, configPath: string)
    requires NulFree(binary) && NulFree(statePath) && NulFree(configPath) && AllPlain(name) && name != ""
    ensures ReadAll(Shell(Blank, "", out), Command(binary, name, statePath, configPath)) ==
            Shell(Blank, "", out + Intended(binary, name, statePath, configPath))
  {
    var written, meant := Written(name, statePath, configPath), Meant(name, statePath, configPath);
    WrittenRendersMeant(name, statePath, configPath);
    ReadToTheLastWord(out, binary, written, meant);
    Joined(Shell(Blank, "", out), Quote(binary) + Spaced(written, 7), " || true\n");
    var words := Words(binary, meant, 7);
    ReadOrTrue(configPath, out + words);
    WordsAreIntended(binary, name, statePath, configPath);
    Associative(out, words, [Word(configPath), OrIf, Word("true"), Newline]);
  }

  lemma Associative(a: seq<Token>, b: seq<Token>, c: seq<Token>)
    ensures a + b + c == a + (b + c)
  {
  }

  /**
   * For all paths a file system can have, the shell reads the installed script
   * as eight comment lines and exactly the command that was meant.
   */
  lemma ScriptRunsWhatWasMeant(when: string, binary: string, name: string, statePath: string, configPath: string)
    requires NulFree(binary) && NulFree(statePath) && NulFree(configPath)
    requires OneLine(when) && AllPlain(name) && name != ""
    ensures Tokens(Script(when, binary, name, statePath, configPath)) ==
            Some(Newlines(8) + Intended(binary, name, statePath, configPath))
  {
    var lines := Header(when);
    HeaderIsOneLineEach(when);
    ReadComments(lines, |lines|);
    Joined(START, Comments(lines, |lines|), Command(binary, name, statePath, configPath));
    ReadCommand(Newlines(8), binary, name, statePath, configPath);
  }

  datatype Hook = Started | Completed {
    function Name(): string { if Started? then "started" else "completed" }

    function When(): string { if Started? then "before" else "after" }

    function File(dir: string): string { dir + "/job-" + Name() + ".sh" }
  }

  function StatePath(dir: string): string { dir + "/job.json" }

  function HookScript(hook: Hook, dir: string, binary: string, configPath: string): string {
    Script(hook.When(), binary, hook.Name(), StatePath(dir), configPath)
  }

  lemma TwoFiles(dir: string)
    ensures Started.File(dir) != Completed.File(dir)
  {
    assert Started.File(dir)[|dir| + 5] == 's' && Completed.File(dir)[|dir| + 5] == 'c';
  }

  lemma FileNames(dir: string)
    ensures Started.File(dir) == dir + "/job-started.sh" && Completed.File(dir) == dir + "/job-completed.sh"
    ensures StatePath(dir) == dir + "/job.json"
  {
    assert "/job-" + "started" + ".sh" == "/job-started.sh" && "/job-" + "completed" + ".sh" == "/job-completed.sh";
    assert dir + "/job-" + "started" + ".sh" == dir + ("/job-" + "started" + ".sh");
    assert dir + "/job-" + "completed" + ".sh" == dir + ("/job-" + "completed" + ".sh");
  }

  /** Both hooks of an installation run the agent on their own event, with the paths as they were given. */
  lemma InstalledHooksRunTheAgent(hook: Hook, dir: string, binary: string, configPath: string)
    requires NulFree(dir) && NulFree(binary) && NulFree(configPath)
    ensures Tokens(HookScript(hook, dir, binary, configPath)) ==
            Some(Newlines(8) + Intended(binary, hook.Name(), StatePath(dir), configPath))
  {
    assert AllPlain("started") && AllPlain("completed") && OneLine("before") && OneLine("after");
    assert NulFree("/job.json");
    ScriptRunsWhatWasMeant(hook.When(), binary, hook.Name(), StatePath(dir), configPath);
  }

  lemma ScriptsByName(dir: string, binary: string, configPath: string)
    requires NulFree(dir) && NulFree(binary) && NulFree(configPath)
    ensures Tokens(HookScript(Started, dir, binary, configPath)) ==
            Some(Newlines(8) + [ Word(binary), Word("agent"), Word("hook"), Word("started"),
                                 Word("--state"), Word(dir + "/job.json"), Word("--config"), Word(configPath),
                                 OrIf, Word("true"), Newline ])
    ensures Tokens(HookScript(Completed, dir, binary, configPath)) ==
            Some(Newlines(8) + [ Word(binary), Word("agent"), Word("hook"), Word("completed"),
                                 Word("--state"), Word(dir + "/job.json"), Word("--config"), Word(configPath),
                                 OrIf, Word("true"), Newline ])
  {
    InstalledHooksRunTheAgent(Started, dir, binary, configPath);
    InstalledHooksRunTheAgent(Completed, dir, binary, configPath);
  }

  /** The files of a runner's directory. */
  class RunnerFiles {
    var files: map<string, string>

    constructor ()
      ensures files == map[]
    {
      files := map[];
    }

    /** Leaves every other file as it was. */
    twostate predicate OnlyTouched(paths: seq<string>)
      reads this
    {
      forall path :: path !in paths ==>
        (path in files <==> path in old(files)) && (path in files ==> files[path] == old(files)[path])
    }

    /** Writes one file after another, giving up at the first that cannot be written. */
    method WriteEach(paths: seq<string>, bodies: seq<string>, writable: set<string>) returns (written: bool)
      requires |paths| == |bodies| && forall i, j :: 0 <= i < j < |paths| ==> paths[i] != paths[j]
      modifies this
      ensures written <==> forall k :: 0 <= k < |paths| ==> paths[k] in writable
      ensures written ==> forall k :: 0 <= k < |paths| ==> paths[k] in files && files[paths[k]] == bodies[k]
      ensures OnlyTouched(paths)
    {
      for i := 0 to |paths|
        invariant forall k :: 0 <= k < i ==>
            paths[k] in writable && paths[k] in files && files[paths[k]] == bodies[k]
        invariant OnlyTouched(paths)
      {
        if paths[i] !in writable {
          return false;
        }
        files := files[paths[i] := bodies[i]];
      }
      return true;
    }

    /** Writes both scripts, in either order; without a binary to run it writes nothing. */
    method WriteHooks(dir: string, binary: string, configPath: string, startedFirst: bool, writable: set<string>)
      returns (installed: bool)
      modifies this
      ensures installed <==> binary != "" && Started.File(dir) in writable && Completed.File(dir) in writable
      ensures binary == "" ==> files == old(files)
      ensures installed ==> forall hook: Hook ::
                hook.File(dir) in files && files[hook.File(dir)] == HookScript(hook, dir, binary, configPath)
      ensures OnlyTouched([Started.File(dir), Completed.File(dir)])
    {
      if binary == "" {
        return false;
      }
      TwoFiles(dir);
      var first, second := if startedFirst then Started else Completed, if startedFirst then Completed else Started;
      var paths := [first.File(dir), second.File(dir)];
      var bodies := [HookScript(first, dir, binary, configPath), HookScript(second, dir, binary, configPath)];
      installed := WriteEach(paths, bodies, writable);
      assert paths[0] == first.File(dir) && paths[1] == second.File(dir);
      forall hook: Hook | installed
        ensures hook.File(dir) in files && files[hook.File(dir)] == HookScript(hook, dir, binary, configPath)
      {
        assert hook == first || hook == second;
        assert bodies[0] == HookScript(first, dir, binary, configPath);
        assert bodies[1] == HookScript(second, dir, binary, configPath);
      }
    }

    /** By name: the job-started script runs the started hook, and the job-completed one the completed hook. */
    method InstallHooks(dir: string, binary: string, configPath: string, startedFirst: bool, writable: set<string>)
      returns (installed: bool)
      modifies this
      ensures installed <==>
              binary != "" && dir + "/job-started.sh" in writable && dir + "/job-completed.sh" in writable
      ensures binary == "" ==> files == old(files)
      ensures OnlyTouched([dir + "/job-started.sh", dir + "/job-completed.sh"])
      ensures installed ==> dir + "/job-started.sh" in files && dir + "/job-completed.sh" in files
      ensures installed && NulFree(dir) && NulFree(binary) && NulFree(configPath) ==>
                && Tokens(files[dir + "/job-started.sh"]) ==
                   Some(Newlines(8) + [ Word(binary), Word("agent"), Word("hook"), Word("started"),
                                        Word("--state"), Word(dir + "/job.json"), Word("--config"), Word(configPath),
                                        OrIf, Word("true"), Newline ])
                && Tokens(files[dir + "/job-completed.sh"]) ==
                   Some(Newlines(8) + [ Word(binary), Word("agent"), Word("hook"), Word("completed"),
                                        Word("--state"), Word(dir + "/job.json"), Word("--config"), Word(configPath),
                                        OrIf, Word("true"), Newline ])
    {
      installed := WriteHooks(dir, binary, configPath, startedFirst, writable);
      FileNames(dir);
      if NulFree(dir) && NulFree(binary) && NulFree(configPath) { ScriptsByName(dir, binary, configPath); }
    }
  }
}
