# github-action-utils in Dafny

A model of the core of `github_action_utils.py`, the Python client for GitHub
Actions workflow commands. The library talks to the runner over two channels:

- it prints commands `::command options::message` to standard output, one
  line each unless an unescaped message holds a line break, and
- it appends blocks `name<<__ENV_DELIMITER__\nvalue\n__ENV_DELIMITER__\n` to
  files named by the environment variables `GITHUB_OUTPUT`, `GITHUB_STATE` and
  `GITHUB_ENV`; it also writes the job summary and the system path file.

The model has six modules:

- `Base` (`base.dfy`): `Option`, `Result`, `Outcome`, and `Fault`, the
  exceptions the core raises (`KeyError`, `FileNotFoundError`, and the
  `UnboundLocalError` of the env-file reader).
- `Text` (`text.dfy`): the Python string built-ins the core relies on.
  - `str.replace` is a left-to-right scan for non-overlapping matches.
  - `in` on strings.
  - `split("<<")[0]`.
  - `strip` over the `isspace` code points.
  - Iterating a file line by line, each line keeping its `\n`.
  - `str(int)`.
- `Escape` (`escape.dfy`): `_escape_data`, `_escape_property`,
  `_clean_markdown_string` and `_to_camel_case`.
  - The `.replace` chains are proved equal to a one-character-at-a-time
    encoding. The safety and inverse properties are proved about that encoding.
- `Encode` (`encode.dfy`): `_make_string`, `_build_options_string`, the line
  `_print_command` prints, and `_build_file_input`.
  - Each encoder has a decoder beside it, with a round-trip lemma. The
    decoders split the text at the separators of the format. The runner's own
    parser also trims, drops empty `name=` entries and unescapes values;
    the decoders do not.
- `EnvFile` (`envfile.dfy`): `get_workflow_environment_variables`.
  - `ParseFrom` is a function that states what the reader returns.
  - `ReadEnvironment` is the loop itself, with its `next(file)` and `break`,
    proved equal to `ParseFrom`.
  - The lemmas cover reading back what `set_env` wrote, last-write-wins, the
    dangling header and the crash on a leading non-header line.
- `Workflow` (`workflow.dfy`): `class Process`, which holds the state the
  library touches.
  - Its fields are `environ` (`os.environ`), `files` (file contents by path)
    and `stdout` (the text of each `print` call so far).
  - Its methods are the emitters, the file writers, `group` and
    `stop_commands` (given the lines the body prints and whether it raises),
    `get_workflow_environment_variables` and `get_env`.

A value passed to an emitter is `Value = Str | Int`, and `_make_string` is
`str()`.

The docstrings show templates such as `::debug::message` and
`::group::My title`. The code prints a space after the command name even when
there are no options (`::debug ::m`). It also prints the annotation options in
keyword order `title, file, col, endColumn, line, endLine`, not in the order the
docstring examples show. The model follows the code.

## Model

| member | source | states |
|---|---|---|
| Escape.EscapeData | github_action_utils.py:84-95 | The result holds no CR and no LF: escaped data is always a single line. |
| Escape.EscapeDataByChar | github_action_utils.py:84-95 | The three chained replacements equal encoding each character on its own: `%`→`%25`, CR→`%0D`, LF→`%0A`, others kept. |
| Escape.EscapeDataSafe | github_action_utils.py:84-95 | Escaped data contains no CR and no LF, and every `%` in it begins `%25`, `%0D` or `%0A`. |
| Escape.EscapeDataLineFeed | github_action_utils.py:93-95 | Because `%` is replaced first, LF escapes to `%0A` (not `%250A`), and CRLF to `%0D%0A`. |
| Escape.PropertyFromData | github_action_utils.py:98-107 | Replacing `:` and `,` in the data encoding gives the property encoding character by character. |
| Escape.EscapeProperty | github_action_utils.py:98-107 | The result holds no CR, LF, `:` or `,`, so it can neither end a line or an option list nor split an option. |
| Escape.EscapePropertyByChar | github_action_utils.py:98-107 | `_escape_property` is `_escape_data` plus `:`→`%3A` and `,`→`%2C`, per character. |
| Escape.EscapePropertySafe | github_action_utils.py:98-107 | An escaped property contains none of CR, LF, `:` and `,`, and every `%` in it begins one of the five escapes. |
| Escape.EscapePropertyPlain | github_action_utils.py:84-107 | Text free of `%`, CR, LF, `:` and `,` passes through both escapers unchanged. |
| Escape.EscapePropertyAvoids | github_action_utils.py:98-107 | A character that is not `%`, a digit or an upper-case letter appears in an escaped property only if it appears in the input. |
| Escape.CleanMarkdown | github_action_utils.py:110-122 | Text that holds no `%` holds no escape and comes back unchanged. |
| Escape.CleanMarkdownInvertsEscapeData | github_action_utils.py:110-122 | `_clean_markdown_string` undoes `_escape_data` on every text that holds no `%`. |
| Escape.CleanMarkdownNotInverse | github_action_utils.py:110-122 | It is not an inverse in general: `"%0A"` escapes to `"%250A"`, which cleans to LF. |
| Escape.TitleSnake | github_action_utils.py:125-132 | `str.title()` of lower-case words joined by `_` capitalizes each word. |
| Escape.ToCamelCaseSnake | github_action_utils.py:125-132 | For lower-case words joined by `_`, `_to_camel_case` gives the first word followed by the others capitalized. |
| Escape.ToCamelCase | github_action_utils.py:125-132 | No `_` is left after the first character. An ASCII identifier (letters, digits, `_`) stays an identifier, so a name never brings `=`, `,` or `:` into an option list. |
| Encode.CamelOneWord | github_action_utils.py:125-132 | A single lower-case word is its own camel case. |
| Encode.CamelTwoWords | github_action_utils.py:125-132 | `a_b` becomes `a` followed by `b` capitalized. |
| Encode.EndColumnName | github_action_utils.py:125-132 | `end_column` becomes `endColumn`. |
| Encode.EndLineName | github_action_utils.py:125-132 | `end_line` becomes `endLine`. |
| Encode.MakeString | github_action_utils.py:72-81 | A string is passed on as it is. An integer is written in the form of a Python int (digits, `-` when negative, no leading zero, no `-0`), and the decimal reader `DecimalValue` reads it back as that integer. |
| Text.IntToStringDecimal | github_action_utils.py:81 | `str(i)` has the form of a Python int, and reading it back gives `i`, for every integer. |
| Text.DecimalToString | github_action_utils.py:81 | Every string in that form is `str` of the value read from it, so `str` and the reader are inverse on it. |
| Encode.IntValuePlain | github_action_utils.py:72-81 | An integer value is written in decimal, and escaping leaves it unchanged. |
| Encode.OptionPairsSafe | github_action_utils.py:135-140 | Exactly the keyword arguments that are not `None` are kept, so `0` and `""` stay. Each kept pair has an identifier name and an escaped value free of `,`, `:`, CR and LF. |
| Encode.OptionPairsAppend | github_action_utils.py:135-140 | Option pairs follow keyword order: the pairs of `kw1 + kw2` are those of `kw1` then those of `kw2`. |
| Encode.SplitRendered | github_action_utils.py:135-140 | Splitting rendered `name=value` pairs at the first `=` recovers the pairs. |
| Encode.BuildOptionsString | github_action_utils.py:135-140 | With keyword names made of letters, digits and `_`, the option string contains no `:`, CR or LF, so it cannot end the options or the line early. |
| Encode.OptionsRoundTrip | github_action_utils.py:135-140 | The decoder, splitting the option string at `,` and then at `=`, recovers exactly the kept (camelCase name, escaped value) pairs, in order. |
| Encode.AnnotationPlainNames | github_action_utils.py:232-242 | The `title`, `file`, `col` and `line` keywords keep their names. |
| Encode.AnnotationEndNames | github_action_utils.py:232-242 | The `end_column` and `end_line` keywords become `endColumn` and `endLine`. |
| Encode.AnnotationRoundTrip | github_action_utils.py:232-242 | The options of an annotation read back as its pairs, and contain no `:`. |
| Encode.AllPresentPairs | github_action_utils.py:135-140 | When every keyword is given, there is one pair per keyword, in order, each being (camelCase name, escaped value). |
| Encode.AnnotationLayout | github_action_utils.py:232-242 | With all six options given, the option string is `title=…,file=…,col=…,endColumn=…,line=…,endLine=…`. Text values are property-escaped; numbers are in decimal. |
| Encode.PositionOnlyDrops | github_action_utils.py:135-140 | With no title and no end line, the first and last keywords contribute nothing. |
| Encode.PositionLayout | github_action_utils.py:232-242 | With file, col, end column and line given, the option string is `file=…,col=…,endColumn=…,line=…`. |
| Encode.NoticeOptions | github_action_utils.py:232-242 | `file="app.js", col=5, end_column=7, line=1` gives `file=app.js,col=5,endColumn=7,line=1`. |
| Encode.NoticeExample | github_action_utils.py:232-242 | `notice("Missing semicolon", file="app.js", col=5, end_column=7, line=1)` prints `::notice file=app.js,col=5,endColumn=7,line=1::Missing semicolon`. |
| Encode.DebugExample | github_action_utils.py:201-203 | `debug("m")` prints `::debug ::m`, with a space before `::` even without options. |
| Encode.CommandLine | github_action_utils.py:57-64 | When the name and the options hold no CR and no LF, the printed text holds a line break (CR or LF) exactly when the message is left unescaped and holds one. |
| Encode.CommandLineRoundTrip | github_action_utils.py:57-64 | The decoder splits the text one `print` call writes back into the name, the options and the message (escaped exactly when asked). This holds whenever the name has no space and the options have no `:`. |
| Encode.MessageBreakSplits | github_action_utils.py:57-64 | An unescaped message `a` LF `b` makes two lines: the command ends at `a`, and `b` reaches the runner as a line of its own. |
| Encode.BuildFileInput | github_action_utils.py:143-149 | The block reads as exactly three newline-terminated lines: escaped name plus `<<__ENV_DELIMITER__`, escaped value, delimiter. |
| Text.BeforeFirst | github_action_utils.py:519 | `split("<<")[0]`: a prefix of the text in which no `<<` starts, followed by `<<` unless it is the whole text. |
| EnvFile.IsHeader | github_action_utils.py:509-518 | A line is a header exactly when `<<__ENV_DELIMITER__` occurs in it at some position. |
| EnvFile.HeaderName | github_action_utils.py:519 | The key is the stripped line up to its first `<<`, or the whole stripped line when it has none. |
| EnvFile.ParseFrom | github_action_utils.py:514-526 | Reading on never removes a key already stored. The only failure is the `UnboundLocalError` at line 525 (neither `decoded_value` nor `name` is bound yet), and it happens only while no header has been read. |
| EnvFile.ParseEnv | github_action_utils.py:502-526 | An empty file reads as `{}`. The only way the reader fails is the `UnboundLocalError` at line 525, on a plain line before any header. |
| EnvFile.ReadThreeLines | github_action_utils.py:518-525 | A header, its value line and a plain line store (name, stripped value) and leave that pair bound. |
| EnvFile.ReadEnvironment | github_action_utils.py:502-526 | The loop over the lines of the env file (header detection, `next(file)`, `break` at end of file, the `UnboundLocalError` on a leading plain line) returns exactly the reader's specified result. |
| EnvFile.HeaderOfBlock | github_action_utils.py:518-519 | The header line of a block is recognized by its marker. Its key is the escaped name less leading whitespace. |
| EnvFile.DelimiterNotHeader | github_action_utils.py:518 | The delimiter line is not mistaken for a header. |
| EnvFile.BlockLines | github_action_utils.py:143-149 | A block followed by more text reads as its three lines followed by the lines of the rest. |
| EnvFile.ReadBlock | github_action_utils.py:516-525 | Reading one block stores the key with the stripped, still-escaped value, and leaves that pair bound for the next plain line. |
| EnvFile.ReadBlocksThen | github_action_utils.py:516-525 | Reading blocks written by `_build_file_input` stores each entry in turn, then reads on from what follows. |
| EnvFile.ReadBack | github_action_utils.py:502-526 | Reading a file of blocks written by `set_env` gives the map built by storing each entry in order. This needs names without `<`. |
| EnvFile.DanglingHeaderDropped | github_action_utils.py:520-523 | A header on the last line of the file, with or without its closing LF, ends the reading without error, and the entries before it are kept. |
| EnvFile.LeadingLineFails | github_action_utils.py:525 | A first line that is not a header makes the reader raise the `UnboundLocalError` at line 525: neither `decoded_value` nor `name` is bound yet. |
| EnvFile.HeaderTakesNextLine | github_action_utils.py:518-525 | After a header, the next line, stripped, is the value, even when it is itself a header. |
| EnvFile.ApplyLastWins | github_action_utils.py:525 | When a key is written twice, the later value wins. |
| EnvFile.ApplyKeys | github_action_utils.py:525 | The keys after reading are exactly the keys already present plus the key of every entry. |
| Workflow.GroupBrackets | github_action_utils.py:404-415 | `group` prints `::group ::title`, then the body's lines, then, unless the body raises, `::endgroup::`. |
| Workflow.StopTokensMatch | github_action_utils.py:474-487 | `stop_commands` prints a begin line that the decoder reads as `stop-commands` with message T, then the body's lines, then, unless the body raises, `::T::` with the same T. |
| Workflow.StopTokenChoice | github_action_utils.py:445-446 | The token is the caller's when it is non-empty and the generated one otherwise, and it is never empty. |
| Workflow.GroupLeftOpen | github_action_utils.py:413-415 | With no `finally`, a body that raises leaves the group without `::endgroup::`. |
| Workflow.StopLeftOpen | github_action_utils.py:485-487 | With no `finally`, a body that raises leaves command processing stopped: `::T::` is never printed. |
| Workflow.ClosedTraces | github_action_utils.py:404-415 | The closed trace is the trace of a raising body followed by the end line. |
| Workflow.StopBeginBreaks | github_action_utils.py:448-450 | The begin line holds a line break (CR or LF), and so reaches the runner as several lines, exactly when the token holds one. |
| Workflow.PathsRunTogether | github_action_utils.py:580-581 | With no line break, two `add_system_path` calls on a new file read back as one path, `a + b`. |
| Workflow.PathLinesReadBack | github_action_utils.py:573-581 | With a line break after each path, each path reads back as its own line, in order, after the existing lines. |
| Workflow.Process.PrintCommand | github_action_utils.py:40-69 | Appends the text of one `print` call, `::command options::message` (message escaped when asked), to stdout, and nothing else changes. The decoder reads it back as the command. The text holds a line break (CR or LF), and so makes several lines, exactly when an unescaped message holds one. |
| Workflow.Process.Debug | github_action_utils.py:190-203 | Prints `debug` with an unescaped message. The decoder reads back `debug`, no options, the message. The output is several lines exactly when the message holds a line break (CR or LF). |
| Workflow.Process.Annotate | github_action_utils.py:232-245 | An annotation command prints the options built from the annotation and the unescaped message. The decoder reads both back. The output is several lines exactly when the message holds a line break (CR or LF). |
| Workflow.Process.Notice | github_action_utils.py:206-245 | `notice` prints text the decoder reads as `notice` with the annotation's options and the message. It is several lines exactly when the message holds a line break (CR or LF). |
| Workflow.Process.Warning | github_action_utils.py:248-287 | `warning` prints text the decoder reads as `warning` with the annotation's options and the message. It is several lines exactly when the message holds a line break (CR or LF). |
| Workflow.Process.Error | github_action_utils.py:290-329 | `error` prints text the decoder reads as `error` with the annotation's options and the message. It is several lines exactly when the message holds a line break (CR or LF). |
| Workflow.Process.AddMask | github_action_utils.py:418-429 | `add_mask` escapes the value, so the printed text holds no CR and no LF and is a single line, which the decoder reads as `add-mask` with the escaped value. |
| Workflow.Process.StartGroup | github_action_utils.py:372-383 | Prints `::group ::title`, which the decoder reads as `group` with the title. It is several lines exactly when the title holds a line break (CR or LF). |
| Workflow.Process.EndGroup | github_action_utils.py:386-401 | Prints `::endgroup::`. |
| Workflow.Process.BeginStopCommands | github_action_utils.py:432-452 | Returns the caller's non-empty token or the generated one, and prints text that the decoder reads as `stop-commands` with that token. |
| Workflow.Process.EndStopCommands | github_action_utils.py:455-471 | Prints `::token::`. |
| Workflow.Process.Group | github_action_utils.py:404-415 | Stdout grows by the group trace. The end line is missing when the body raises. |
| Workflow.Process.StopCommands | github_action_utils.py:474-487 | Stdout grows by the stop-commands trace for the token returned. The end line is missing when the body raises. |
| Workflow.Process.GroupFinally | github_action_utils.py:404-415 | With a `finally`, the group always ends with `::endgroup::`. |
| Workflow.Process.StopCommandsFinally | github_action_utils.py:474-487 | With a `finally`, the section always ends with `::T::` for the token returned. |
| Workflow.Process.AppendToFile | github_action_utils.py:167-168 | A `KeyError` when the variable is unset, and then no file changes. Otherwise the text is appended to the named file, which is created if missing, and no other file changes. |
| Workflow.Process.SetOutput | github_action_utils.py:152-168 | Appends the block for (name, value) to the `GITHUB_OUTPUT` file, or fails with `KeyError`. |
| Workflow.Process.SaveState | github_action_utils.py:332-349 | Appends the block to the `GITHUB_STATE` file, or fails with `KeyError`. |
| Workflow.Process.SetEnv | github_action_utils.py:490-499 | Appends the block to the `GITHUB_ENV` file, or fails with `KeyError`. |
| Workflow.Process.AppendJobSummary | github_action_utils.py:539-547 | Appends the cleaned markdown and a line break to the `GITHUB_STEP_SUMMARY` file, or fails with `KeyError`. |
| Workflow.Process.OverwriteJobSummary | github_action_utils.py:550-558 | Replaces the summary file's content with the cleaned markdown and a line break, or fails with `KeyError`. |
| Workflow.Process.AddSystemPath | github_action_utils.py:573-581 | Appends the path, with no line break, to the `GITHUB_PATH` file, or fails with `KeyError`. |
| Workflow.Process.AddSystemPathLine | github_action_utils.py:573-581 | The corrected writer: appends the path and a line break. |
| Workflow.Process.GetWorkflowEnvironmentVariables | github_action_utils.py:502-526 | Returns `{}` when `GITHUB_ENV` is unset, and `FileNotFoundError` when its file does not exist. Otherwise it returns what the reader makes of the file. |
| Workflow.Process.GetEnv | github_action_utils.py:529-536 | A non-empty `os.environ` value wins. Otherwise the value comes from the env file (`None` when absent), and the reader's failure is the call's failure. |
| Workflow.SetEnvThenGetEnv | github_action_utils.py:490-536 | After `set_env(name, value)` on an empty env file, `get_env` of the key written returns the value escaped and stripped. |

## Left out

- One element of the `stdout` trace is the text of one `print` call, not one line. The unescaped emitters (`debug`, `notice`, `warning`, `error`, `start_group`, `begin_stop_commands`) print a message with a line break (CR or LF) as several lines, so the runner reads only the part before the break as the message; the read-back contracts hold of the decoder, and `Encode.MessageBreakSplits` states the split.
- Encode.ParseCommandLine and Encode.ParseOptions: they are the model's decoders, not the runner's parser, which also trims, drops empty `name=` entries and unescapes values.
- `use_subprocess` and `COMMANDS_USE_SUBPROCESS`: `subprocess.run(["echo", …])` and `print` put the same line on stdout, so both are one append to the trace.
- `uuid.uuid1()` in `begin_stop_commands`: randomness. The generated token is a non-empty parameter.
- `json.dumps` in `_make_string` (lists, tuples, dicts): a foreign library. Values are strings and integers.
- `echo`, `get_state`, `get_user_input`, `remove_job_summary`, `event_payload` and the `variables` dataclasses are outside the modelled core: plain environment lookups, JSON parsing and library wrappers.
- The `DeprecationWarning` that `set_output` and `save_state` issue through `warnings.warn` when `use_subprocess` is given: under the default filters it has no effect on the files. Under an error filter (`-W error`) it is raised instead, and the call fails before the file is opened; warning filters are not modelled.
- UTF-8 encoding and decoding of the binary-mode files: text is a sequence of characters, and decoding errors are not modelled.
- Atomicity of appends across processes, and `open` failing for a missing directory or a permission error.
- Escape.ToCamelCaseSnake: `str.title()` and `str.lower()` are modelled for ASCII only; names are ASCII identifiers.
- Workflow.Process.Group: the body of `with group(...)` and `with stop_commands(...)` is given as the lines it prints and whether it raises. Its effects on files, and the exception itself, are not modelled.
- EnvFile.ReadBack: a name containing `<` can split its header early, so the read-back lemma is stated for names without `<`.

## Findings

| source | as written | input that shows it | evidently intended | confidence | as-written member | corrected member |
|---|---|---|---|---|---|---|
| github_action_utils.py:580-581 | `add_system_path` writes the path with no line break, while the runner reads `GITHUB_PATH` one path per line | `add_system_path("/a")` then `add_system_path("/b")` leaves one line, `/a/b` | each path on its own line (`f"{path}\n"`) | not executed | Workflow.PathsRunTogether | Workflow.PathLinesReadBack |
| github_action_utils.py:485-487 | `stop_commands` calls `end_stop_commands` after `yield` with no `try`/`finally` | a body that raises: `::T::` is never printed, so command processing stays stopped | `end_stop_commands` in a `finally` | not executed | Workflow.StopLeftOpen | Workflow.Process.StopCommandsFinally |
| github_action_utils.py:413-415 | `group` calls `end_group` after `yield` with no `try`/`finally` | a body that raises: `::endgroup::` is never printed | `end_group` in a `finally` | not executed | Workflow.GroupLeftOpen | Workflow.Process.GroupFinally |
