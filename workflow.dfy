/** The process side of the library: the emitters that print workflow
    commands, the writers that append to the files the runner names in
    environment variables, the scoped `group` and `stop_commands` helpers, and
    the readers of the env file.

    A `Process` holds what those functions touch: the environment
    (`os.environ`), the files by path, and the lines printed so far. */
module Workflow {
  import opened Base
  import opened Text
  import opened Escape
  import opened Encode
  import opened EnvFile

  const OutputVariable: string := "GITHUB_OUTPUT"
  const StateVariable: string := "GITHUB_STATE"
  const EnvVariable: string := "GITHUB_ENV"
  const SummaryVariable: string := "GITHUB_STEP_SUMMARY"
  const PathVariable: string := "GITHUB_PATH"

  /** `::endgroup::`. */
  const EndGroupLine: string := CommandMarker + "endgroup" + CommandMarker

  /** The line that ends a `stop-commands` section: `::token::`. */
  function EndStopLine(token: string): string
  {
    CommandMarker + token + CommandMarker
  }

  /** The token `begin_stop_commands` uses: the caller's if it is truthy,
      otherwise the generated one. */
  function StopToken(token: Option<string>, generated: string): string
  {
    if token.None? || token.value == [] then generated else token.value
  }

  /** The lines `with group(title):` prints around a body that prints `body`:
      the end line is missing when the body raises. */
  function GroupTrace(title: string, body: seq<string>, raises: bool): seq<string>
  {
    [CommandLine("group", title, "", false)] + body + (if raises then [] else [EndGroupLine])
  }

  /** The lines `with stop_commands(token):` prints around a body. */
  function StopTrace(token: string, body: seq<string>, raises: bool): seq<string>
  {
    [CommandLine("stop-commands", token, "", false)] + body + (if raises then [] else [EndStopLine(token)])
  }

  /** Lines printed one after another: what was there, the opening line,
      the body, and the closing lines. */
  lemma TraceAppend(before: seq<string>, begin: string, body: seq<string>, tail: seq<string>)
    ensures before + [begin] + body + tail == before + ([begin] + body + tail)
  {
  }

  /** The three annotation command names hold no space and no line break. */
  lemma AnnotationCommandPlain(command: string)
    requires command == "notice" || command == "warning" || command == "error"
    ensures ' ' !in command && !HasBreak(command)
  {
  }

  /** A group opens with `::group ::title` and, unless the body raises,
      closes with `::endgroup::` after everything the body printed. */
  lemma GroupBrackets(title: string, body: seq<string>, raises: bool)
    ensures var t := GroupTrace(title, body, raises);
      && t[0] == "::group ::" + title
      && t[1..1 + |body|] == body
      && (raises <==> |t| == 1 + |body|)
      && (!raises ==> t[|t| - 1] == "::endgroup::")
  {
    var t := GroupTrace(title, body, raises);
    assert t[1..1 + |body|] == body;
    assert CommandLine("group", title, "", false) == "::group ::" + title;
  }

  /** Both lines of a `stop-commands` section carry the same token: the
      decoder reads the token back as the message of the first line, and the
      last line is `::token::`. */
  lemma StopTokensMatch(token: string, body: seq<string>, raises: bool)
    ensures var t := StopTrace(token, body, raises);
      && ParseCommandLine(t[0]) == Some(Command("stop-commands", "", token))
      && t[1..1 + |body|] == body
      && (raises <==> |t| == 1 + |body|)
      && (!raises ==> t[|t| - 1] == CommandMarker + token + CommandMarker)
  {
    var t := StopTrace(token, body, raises);
    assert t[1..1 + |body|] == body;
    var name := "stop-commands";
    assert ' ' !in name;
    CommandLineRoundTrip(name, token, "", false);
  }

  /** The line that begins a `stop-commands` section holds a line break
      (CR or LF), and so splits into several lines, exactly when the token
      does. */
  lemma StopBeginBreaks(token: string)
    ensures HasBreak(CommandLine("stop-commands", token, "", false)) <==> HasBreak(token)
  {
    var name := "stop-commands";
    assert !HasBreak(name);
  }

  /** As written, a body that raises leaves the group open: no
      `::endgroup::` follows the lines the body printed. */
  lemma GroupLeftOpen(title: string, body: seq<string>)
    requires EndGroupLine !in body
    ensures EndGroupLine !in GroupTrace(title, body, true)
  {
    var begin := CommandLine("group", title, "", false);
    assert begin[2] == 'g' && EndGroupLine[2] == 'e';
    assert GroupTrace(title, body, true) == [begin] + body;
  }

  /** As written, a body that raises leaves command processing stopped: the
      `::token::` line that resumes it is never printed. */
  lemma StopLeftOpen(token: string, body: seq<string>)
    requires EndStopLine(token) !in body
    ensures EndStopLine(token) !in StopTrace(token, body, true)
  {
    var begin := CommandLine("stop-commands", token, "", false);
    assert |begin| != |EndStopLine(token)|;
    assert StopTrace(token, body, true) == [begin] + body;
  }

  /** With the end call in a `finally`, the section is closed after whatever
      the body printed, whether or not it raises. */
  lemma ClosedTraces(title: string, token: string, body: seq<string>)
    ensures var g := GroupTrace(title, body, false);
      g[|g| - 1] == EndGroupLine && g[..|g| - 1] == GroupTrace(title, body, true)
    ensures var t := StopTrace(token, body, false);
      t[|t| - 1] == EndStopLine(token) && t[..|t| - 1] == StopTrace(token, body, true)
  {
    var g := GroupTrace(title, body, false);
    assert g[..|g| - 1] == GroupTrace(title, body, true);
    var t := StopTrace(token, body, false);
    assert t[..|t| - 1] == StopTrace(token, body, true);
  }

  /** The caller's token is used whenever it is non-empty; otherwise the
      generated one is; either way the token is non-empty. */
  lemma StopTokenChoice(token: Option<string>, generated: string)
    requires generated != []
    ensures StopToken(token, generated) != []
    ensures token.Some? && token.value != [] ==> StopToken(token, generated) == token.value
    ensures token.None? || token.value == [] ==> StopToken(token, generated) == generated
  {
  }

  /* ---------------------------------------------------------------------- */
  /* add_system_path                                                         */
  /* ---------------------------------------------------------------------- */

  /** The path file after `add_system_path(path)` as the source writes it:
      the path with no line terminator. */
  function AppendPath(content: string, path: string): string
  {
    content + path
  }

  /** As written, two calls run together: after `add_system_path(a)` and
      `add_system_path(b)` on a new path file the runner reads one line,
      `a + b`, not two paths. */
  lemma PathsRunTogether(a: string, b: string)
    requires a != [] && '\n' !in a && '\n' !in b
    ensures Lines(AppendPath(AppendPath([], a), b)) == [a + b]
  {
    assert AppendPath(AppendPath([], a), b) == a + b;
    LinesWithoutBreak(a + b);
  }

  /** The path file after `add_system_path(path)` as the runner expects it:
      the path on a line of its own. */
  function AppendPathLine(content: string, path: string): string
  {
    content + path + "\n"
  }

  /** The path file after one corrected `add_system_path` call per path. */
  function AppendPathLines(content: string, paths: seq<string>): string
    decreases |paths|
  {
    if paths == [] then content else AppendPathLines(AppendPathLine(content, paths[0]), paths[1..])
  }

  /** The lines the runner reads for `paths`, one per path. */
  function PathLines(paths: seq<string>): seq<string>
  {
    seq(|paths|, i requires 0 <= i < |paths| => paths[i] + "\n")
  }

  /** Corrected, each call adds exactly one line: the runner reads every path
      back, in order, after what the file already held. */
  lemma {:induction false} PathLinesReadBack(content: string, paths: seq<string>)
    requires content == [] || content[|content| - 1] == '\n'
    requires forall i :: 0 <= i < |paths| ==> '\n' !in paths[i]
    ensures Lines(AppendPathLines(content, paths)) == Lines(content) + PathLines(paths)
    decreases |paths|
  {
    if paths == [] {
      assert PathLines(paths) == [];
    } else {
      var c1 := AppendPathLine(content, paths[0]);
      PathLinesReadBack(c1, paths[1..]);
      LinesAppend(content, paths[0] + "\n");
      assert content + (paths[0] + "\n") == c1;
      LinesCons(paths[0], []);
      assert paths[0] + "\n" + [] == paths[0] + "\n";
      assert PathLines(paths) == [paths[0] + "\n"] + PathLines(paths[1..]);
    }
  }

  /* ---------------------------------------------------------------------- */
  /* The state of the library's process and the operations on it            */
  /* ---------------------------------------------------------------------- */

  /** The state of the Python process that calls the library, as the
      library sees it; GitHub's runner reads the files and stdout afterwards. */
  class Process {
    /** `os.environ`. */
    var environ: map<string, string>
    /** The files, by path. */
    var files: map<string, string>
    /** The lines printed so far. */
    var stdout: seq<string>

    constructor (environ0: map<string, string>, files0: map<string, string>)
      ensures environ == environ0 && files == files0 && stdout == []
    {
      environ := environ0;
      files := files0;
      stdout := [];
    }

    /** The text of a file; a file that does not exist reads as empty when
        it is opened for appending. */
    function FileText(path: string): string
      reads this
    {
      if path in files then files[path] else []
    }

    /** What `get_workflow_environment_variables()` returns in this state. */
    function WorkflowEnv(): Result<Env, Fault>
      reads this
    {
      if EnvVariable !in environ then Ok(map[])
      else if environ[EnvVariable] !in files then Err(FileMissing(environ[EnvVariable]))
      else ParseEnv(files[environ[EnvVariable]])
    }

    /** What `get_env(name)` returns in this state: a non-empty value in the
        environment, otherwise the env file's entry, if any. */
    function EnvLookup(name: string): Result<Option<string>, Fault>
      reads this
    {
      if name in environ && environ[name] != [] then Ok(Some(environ[name]))
      else
        match WorkflowEnv()
        case Err(e) => Err(e)
        case Ok(m) => Ok(if name in m then Some(m[name]) else None)
    }

    /* -- emitters ---------------------------------------------------------- */

    /** `_print_command`: one `print` call, which the decoder splits back into
        the command, the options and the (escaped, if asked) message. The
        string holds a line break (CR or LF), and so reaches the runner as
        several lines, exactly when an unescaped message holds one. */
    method PrintCommand(command: string, message: string, options: string, escapeMessage: bool)
      modifies this
      ensures stdout == old(stdout) + [CommandLine(command, message, options, escapeMessage)]
      ensures ' ' !in command && ':' !in options ==>
        ParseCommandLine(stdout[|stdout| - 1])
        == Some(Command(command, options, if escapeMessage then EscapeData(message) else message))
      ensures !HasBreak(command) && !HasBreak(options) ==>
        (HasBreak(stdout[|stdout| - 1]) <==> !escapeMessage && HasBreak(message))
      ensures environ == old(environ) && files == old(files)
    {
      var line := CommandLine(command, message, options, escapeMessage);
      if ' ' !in command && ':' !in options {
        CommandLineRoundTrip(command, message, options, escapeMessage);
      }
      stdout := stdout + [line];
    }

    /** `debug(message)`: the message goes out unescaped. */
    method Debug(message: string)
      modifies this
      ensures stdout == old(stdout) + [CommandLine("debug", message, "", false)]
      ensures ParseCommandLine(stdout[|stdout| - 1]) == Some(Command("debug", "", message))
      ensures HasBreak(stdout[|stdout| - 1]) <==> HasBreak(message)
      ensures environ == old(environ) && files == old(files)
    {
      var name := "debug";
      assert ' ' !in name && !HasBreak(name);
      PrintCommand(name, message, "", false);
    }

    /** The annotation commands `notice`, `warning` and `error`: the decoder
        reads back the command, the message unescaped, and the options
        `_build_options_string` made of the annotation. */
    method Annotate(command: string, message: string, a: Annotation)
      requires command == "notice" || command == "warning" || command == "error"
      modifies this
      ensures stdout == old(stdout) + [CommandLine(command, message, BuildOptionsString(AnnotationOptions(a)), false)]
      ensures ParseCommandLine(stdout[|stdout| - 1])
        == Some(Command(command, BuildOptionsString(AnnotationOptions(a)), message))
      ensures ParseOptions(BuildOptionsString(AnnotationOptions(a))) == OptionPairs(AnnotationOptions(a))
      ensures HasBreak(stdout[|stdout| - 1]) <==> HasBreak(message)
      ensures environ == old(environ) && files == old(files)
    {
      AnnotationRoundTrip(a);
      AnnotationCommandPlain(command);
      PrintCommand(command, message, BuildOptionsString(AnnotationOptions(a)), false);
    }

    /** `notice(message, title=…, file=…, col=…, end_column=…, line=…,
        end_line=…)`. */
    method Notice(message: string, a: Annotation)
      modifies this
      ensures stdout == old(stdout) + [CommandLine("notice", message, BuildOptionsString(AnnotationOptions(a)), false)]
      ensures ParseCommandLine(stdout[|stdout| - 1])
        == Some(Command("notice", BuildOptionsString(AnnotationOptions(a)), message))
      ensures HasBreak(stdout[|stdout| - 1]) <==> HasBreak(message)
      ensures environ == old(environ) && files == old(files)
    {
      Annotate("notice", message, a);
    }

    /** `warning(message, …)`, with the options of `notice`. */
    method Warning(message: string, a: Annotation)
      modifies this
      ensures stdout == old(stdout) + [CommandLine("warning", message, BuildOptionsString(AnnotationOptions(a)), false)]
      ensures ParseCommandLine(stdout[|stdout| - 1])
        == Some(Command("warning", BuildOptionsString(AnnotationOptions(a)), message))
      ensures HasBreak(stdout[|stdout| - 1]) <==> HasBreak(message)
      ensures environ == old(environ) && files == old(files)
    {
      Annotate("warning", message, a);
    }

    /** `error(message, …)`, with the options of `notice`. */
    method Error(message: string, a: Annotation)
      modifies this
      ensures stdout == old(stdout) + [CommandLine("error", message, BuildOptionsString(AnnotationOptions(a)), false)]
      ensures ParseCommandLine(stdout[|stdout| - 1])
        == Some(Command("error", BuildOptionsString(AnnotationOptions(a)), message))
      ensures HasBreak(stdout[|stdout| - 1]) <==> HasBreak(message)
      ensures environ == old(environ) && files == old(files)
    {
      Annotate("error", message, a);
    }

    /** `add_mask(value)`: the only emitter that escapes its message, so the
        line stays one line whatever the value holds. */
    method AddMask(value: Value)
      modifies this
      ensures stdout == old(stdout) + [CommandLine("add-mask", MakeString(value), "", true)]
      ensures ParseCommandLine(stdout[|stdout| - 1]) == Some(Command("add-mask", "", EscapeData(MakeString(value))))
      ensures !HasBreak(stdout[|stdout| - 1])
      ensures environ == old(environ) && files == old(files)
    {
      var name := "add-mask";
      assert ' ' !in name && !HasBreak(name);
      PrintCommand(name, MakeString(value), "", true);
    }

    /** `start_group(title)`. */
    method StartGroup(title: string)
      modifies this
      ensures stdout == old(stdout) + [CommandLine("group", title, "", false)]
      ensures ParseCommandLine(stdout[|stdout| - 1]) == Some(Command("group", "", title))
      ensures HasBreak(stdout[|stdout| - 1]) <==> HasBreak(title)
      ensures environ == old(environ) && files == old(files)
    {
      var name := "group";
      assert ' ' !in name && !HasBreak(name);
      PrintCommand(name, title, "", false);
    }

    /** `end_group()`. */
    method EndGroup()
      modifies this
      ensures stdout == old(stdout) + [EndGroupLine]
      ensures environ == old(environ) && files == old(files)
    {
      stdout := stdout + [EndGroupLine];
    }

    /** `begin_stop_commands(token)`; `generated` stands for
        `str(uuid.uuid1())`. */
    method BeginStopCommands(token: Option<string>, generated: string) returns (t: string)
      requires generated != []
      modifies this
      ensures t == StopToken(token, generated) && t != []
      ensures stdout == old(stdout) + [CommandLine("stop-commands", t, "", false)]
      ensures ParseCommandLine(stdout[|stdout| - 1]) == Some(Command("stop-commands", "", t))
      ensures environ == old(environ) && files == old(files)
    {
      t := StopToken(token, generated);
      var name := "stop-commands";
      assert ' ' !in name;
      PrintCommand(name, t, "", false);
    }

    /** `end_stop_commands(token)`. */
    method EndStopCommands(token: string)
      modifies this
      ensures stdout == old(stdout) + [EndStopLine(token)]
      ensures environ == old(environ) && files == old(files)
    {
      stdout := stdout + [EndStopLine(token)];
    }

    /** `with group(title):` around a body that prints `body` and raises or
        not. */
    method Group(title: string, body: seq<string>, raises: bool)
      modifies this
      ensures stdout == old(stdout) + GroupTrace(title, body, raises)
      ensures environ == old(environ) && files == old(files)
    {
      StartGroup(title);
      stdout := stdout + body;
      if !raises {
        EndGroup();
      }
    }

    /** `with stop_commands(token):` around a body; returns the token used. */
    method StopCommands(token: Option<string>, generated: string, body: seq<string>, raises: bool) returns (t: string)
      requires generated != []
      modifies this
      ensures t == StopToken(token, generated)
      ensures stdout == old(stdout) + StopTrace(t, body, raises)
      ensures environ == old(environ) && files == old(files)
    {
      ghost var before := stdout;
      t := BeginStopCommands(token, generated);
      ghost var begin := CommandLine("stop-commands", t, "", false);
      ghost var started := stdout;
      stdout := stdout + body;
      ghost var tail: seq<string> := [];
      if !raises {
        EndStopCommands(t);
        tail := [EndStopLine(t)];
      }
      assert StopTrace(t, body, raises) == [begin] + body + tail;
      TraceAppend(before, begin, body, tail);
    }

    /** `with group(title):` with `end_group` in a `finally`: the group is
        closed even when the body raises. */
    method GroupFinally(title: string, body: seq<string>, raises: bool)
      modifies this
      ensures stdout == old(stdout) + GroupTrace(title, body, false)
      ensures stdout[|stdout| - 1] == EndGroupLine
      ensures environ == old(environ) && files == old(files)
    {
      StartGroup(title);
      stdout := stdout + body;
      EndGroup();
    }

    /** `with stop_commands(token):` with `end_stop_commands` in a `finally`:
        command processing resumes even when the body raises. */
    method StopCommandsFinally(token: Option<string>, generated: string, body: seq<string>, raises: bool) returns (t: string)
      requires generated != []
      modifies this
      ensures t == StopToken(token, generated)
      ensures stdout == old(stdout) + StopTrace(t, body, false)
      ensures stdout[|stdout| - 1] == EndStopLine(t)
      ensures environ == old(environ) && files == old(files)
    {
      ghost var before := stdout;
      t := BeginStopCommands(token, generated);
      ghost var begin := CommandLine("stop-commands", t, "", false);
      stdout := stdout + body;
      EndStopCommands(t);
      assert StopTrace(t, body, false) == [begin] + body + [EndStopLine(t)];
      TraceAppend(before, begin, body, [EndStopLine(t)]);
    }

    /* -- file writers ------------------------------------------------------ */

    /** `open(os.environ[variable], "a").write(text)`: a `KeyError` when the
        variable is not set, otherwise the text is appended to the file,
        which is created if missing. */
    method AppendToFile(variable: string, text: string) returns (r: Outcome<Fault>)
      modifies this
      ensures variable !in old(environ) ==> r == Fail(KeyMissing(variable)) && files == old(files)
      ensures variable in old(environ) ==>
        r == Pass && files == old(files)[old(environ)[variable] := old(FileText(environ[variable])) + text]
      ensures environ == old(environ) && stdout == old(stdout)
    {
      if variable !in environ {
        return Fail(KeyMissing(variable));
      }
      var path := environ[variable];
      files := files[path := FileText(path) + text];
      return Pass;
    }

    /** `set_output(name, value)`. */
    method SetOutput(name: string, value: Value) returns (r: Outcome<Fault>)
      modifies this
      ensures OutputVariable !in old(environ) ==> r == Fail(KeyMissing(OutputVariable)) && files == old(files)
      ensures OutputVariable in old(environ) ==>
        r == Pass && files == old(files)[old(environ)[OutputVariable] := old(FileText(environ[OutputVariable])) + BuildFileInput(name, value)]
      ensures environ == old(environ) && stdout == old(stdout)
    {
      r := AppendToFile(OutputVariable, BuildFileInput(name, value));
    }

    /** `save_state(name, value)`. */
    method SaveState(name: string, value: Value) returns (r: Outcome<Fault>)
      modifies this
      ensures StateVariable !in old(environ) ==> r == Fail(KeyMissing(StateVariable)) && files == old(files)
      ensures StateVariable in old(environ) ==>
        r == Pass && files == old(files)[old(environ)[StateVariable] := old(FileText(environ[StateVariable])) + BuildFileInput(name, value)]
      ensures environ == old(environ) && stdout == old(stdout)
    {
      r := AppendToFile(StateVariable, BuildFileInput(name, value));
    }

    /** `set_env(name, value)`. */
    method SetEnv(name: string, value: Value) returns (r: Outcome<Fault>)
      modifies this
      ensures EnvVariable !in old(environ) ==> r == Fail(KeyMissing(EnvVariable)) && files == old(files)
      ensures EnvVariable in old(environ) ==>
        r == Pass && files == old(files)[old(environ)[EnvVariable] := old(FileText(environ[EnvVariable])) + BuildFileInput(name, value)]
      ensures environ == old(environ) && stdout == old(stdout)
    {
      r := AppendToFile(EnvVariable, BuildFileInput(name, value));
    }

    /** `append_job_summary(markdown)`: the cleaned text and a line break. */
    method AppendJobSummary(markdown: string) returns (r: Outcome<Fault>)
      modifies this
      ensures SummaryVariable !in old(environ) ==> r == Fail(KeyMissing(SummaryVariable)) && files == old(files)
      ensures SummaryVariable in old(environ) ==>
        r == Pass && files == old(files)[old(environ)[SummaryVariable] := old(FileText(environ[SummaryVariable])) + (CleanMarkdown(markdown) + "\n")]
      ensures environ == old(environ) && stdout == old(stdout)
    {
      r := AppendToFile(SummaryVariable, CleanMarkdown(markdown) + "\n");
    }

    /** `overwrite_job_summary(markdown)`: the file holds the cleaned text and
        a line break, whatever it held before. */
    method OverwriteJobSummary(markdown: string) returns (r: Outcome<Fault>)
      modifies this
      ensures SummaryVariable !in old(environ) ==> r == Fail(KeyMissing(SummaryVariable)) && files == old(files)
      ensures SummaryVariable in old(environ) ==>
        r == Pass && files == old(files)[old(environ)[SummaryVariable] := CleanMarkdown(markdown) + "\n"]
      ensures environ == old(environ) && stdout == old(stdout)
    {
      if SummaryVariable !in environ {
        return Fail(KeyMissing(SummaryVariable));
      }
      files := files[environ[SummaryVariable] := CleanMarkdown(markdown) + "\n"];
      return Pass;
    }

    /** `add_system_path(path)`, as written: the path with no line break. */
    method AddSystemPath(path: string) returns (r: Outcome<Fault>)
      modifies this
      ensures PathVariable !in old(environ) ==> r == Fail(KeyMissing(PathVariable)) && files == old(files)
      ensures PathVariable in old(environ) ==>
        r == Pass && files == old(files)[old(environ)[PathVariable] := AppendPath(old(FileText(environ[PathVariable])), path)]
      ensures environ == old(environ) && stdout == old(stdout)
    {
      r := AppendToFile(PathVariable, path);
    }

    /** `add_system_path(path)` with the line break the runner needs, so
        that each call adds one path. */
    method AddSystemPathLine(path: string) returns (r: Outcome<Fault>)
      modifies this
      ensures PathVariable !in old(environ) ==> r == Fail(KeyMissing(PathVariable)) && files == old(files)
      ensures PathVariable in old(environ) ==>
        r == Pass && files == old(files)[old(environ)[PathVariable] := AppendPathLine(old(FileText(environ[PathVariable])), path)]
      ensures environ == old(environ) && stdout == old(stdout)
    {
      r := AppendToFile(PathVariable, path + "\n");
      assert forall c: string :: c + (path + "\n") == AppendPathLine(c, path);
    }

    /* -- readers ----------------------------------------------------------- */

    /** `get_workflow_environment_variables()`. */
    method GetWorkflowEnvironmentVariables() returns (r: Result<Env, Fault>)
      ensures EnvVariable !in environ ==> r == Ok(map[])
      ensures EnvVariable in environ && environ[EnvVariable] !in files ==> r == Err(FileMissing(environ[EnvVariable]))
      ensures EnvVariable in environ && environ[EnvVariable] in files ==> r == ParseEnv(files[environ[EnvVariable]])
    {
      if EnvVariable !in environ {
        return Ok(map[]);
      }
      var path := environ[EnvVariable];
      if path !in files {
        return Err(FileMissing(path));
      }
      r := ReadEnvironment(files[path]);
    }

    /** `get_env(name)`: a non-empty value in the environment wins; otherwise
        the env file is read, and its failure is the call's failure. */
    method GetEnv(name: string) returns (r: Result<Option<string>, Fault>)
      ensures r == EnvLookup(name)
      ensures name in environ && environ[name] != [] ==> r == Ok(Some(environ[name]))
      ensures !(name in environ && environ[name] != []) ==>
        match WorkflowEnv()
        case Err(e) => r == Err(e)
        case Ok(m) => r == Ok(if name in m then Some(m[name]) else None)
    {
      if name in environ && environ[name] != [] {
        return Ok(Some(environ[name]));
      }
      var vars := GetWorkflowEnvironmentVariables();
      match vars
      case Err(e) => r := Err(e);
      case Ok(m) => r := Ok(if name in m then Some(m[name]) else None);
    }
  }

  /** `set_env(name, value)` followed by `get_env` of the key written, with
      an empty env file and no other variable set: the value comes back
      escaped and stripped. */
  method SetEnvThenGetEnv(name: string, value: Value, path: string) returns (r: Result<Option<string>, Fault>)
    requires '<' !in name && EnvKey(name) != EnvVariable
    ensures r == Ok(Some(EnvValue(value)))
  {
    var process := new Process(map[EnvVariable := path], map[path := []]);
    var written := process.SetEnv(name, value);
    assert process.files[path] == Written([(name, value)]);
    ReadBack([(name, value)]);
    r := process.GetEnv(EnvKey(name));
  }
}
