/** The command encoder: the `name=value,...` option list
    (`_build_options_string`), the single-line command `::cmd options::message`
    (`_print_command`) and the three-line block appended to a channel file
    (`_build_file_input`). Each encoder has a decoder beside it, with a lemma
    that the two agree. The decoders split the text at the separators the
    format defines; the runner's own parser also trims, drops empty
    `name=` entries and unescapes values, which these decoders do not. */
module Encode {
  import opened Base
  import opened Text
  import opened Escape

  /** A value handed to an emitter. The source accepts any Python object; its
      callers pass strings and ints. */
  datatype Value = Str(text: string) | Int(number: int)

  /** `_make_string`: `str(value)`. A string is kept as it is; a number is
      written in the form of a Python int (decimal digits, a '-' when
      negative, no leading zero), which `int` reads back as that number. */
  function MakeString(v: Value): (r: string)
    ensures v.Str? ==> r == v.text
    ensures v.Int? ==> IsDecimal(r) && DecimalValue(r) == v.number
  {
    match v
    case Str(t) => t
    case Int(n) => IntToStringDecimal(n); IntToString(n)
  }

  const CommandMarker: string := "::"
  const EnvDelimiter: string := "__ENV_DELIMITER__"
  /** What marks the header line of a block: `<<__ENV_DELIMITER__`. */
  const HeaderMarker: string := "<<" + EnvDelimiter

  /* ---------------------------------------------------------------------- */
  /* _build_options_string                                                   */
  /* ---------------------------------------------------------------------- */

  /** Keyword arguments in call order; `None` is a value that is absent. */
  type Options = seq<(string, Option<Value>)>

  /** The options that make it into the list: those whose value is not `None`,
      in keyword order, as (camelCase name, escaped value). */
  function OptionPairs(kw: Options): seq<(string, string)>
    decreases |kw|
  {
    if kw == [] then []
    else
      (match kw[0].1
       case None => []
       case Some(v) => [OptionPair(kw[0].0, v)])
      + OptionPairs(kw[1..])
  }

  /** One option as it is written: `_to_camel_case(key)` and
      `_escape_property(value)`. */
  function OptionPair(name: string, v: Value): (string, string)
  {
    (ToCamelCase(name), EscapeProperty(MakeString(v)))
  }

  function RenderPairs(ps: seq<(string, string)>): (rs: seq<string>)
    ensures |rs| == |ps|
    decreases |ps|
  {
    if ps == [] then [] else [ps[0].0 + "=" + ps[0].1] + RenderPairs(ps[1..])
  }

  /** `_build_options_string(**kw)`. With keyword names made of letters,
      digits and '_', the list is one line and holds no ':', so it cannot end
      early the options part of a command line. */
  function BuildOptionsString(kw: Options): (r: string)
    ensures (forall i :: 0 <= i < |kw| ==> IsIdentifier(kw[i].0)) ==> ':' !in r && '\r' !in r && '\n' !in r
  {
    RenderedOptionsSafe(kw);
    Join(RenderPairs(OptionPairs(kw)), ',')
  }

  /** A decoder for an option list: split at ',', then each option at its
      first '='. It leaves the values escaped. */
  function ParseOptions(s: string): seq<(string, string)>
  {
    if s == [] then [] else SplitPairs(Split(s, ','))
  }

  function SplitPairs(parts: seq<string>): (ps: seq<(string, string)>)
    ensures |ps| == |parts|
    decreases |parts|
  {
    if parts == [] then [] else [SplitFirst(parts[0], '=')] + SplitPairs(parts[1..])
  }

  function CountPresent(kw: Options): nat
    decreases |kw|
  {
    if kw == [] then 0 else (if kw[0].1.Some? then 1 else 0) + CountPresent(kw[1..])
  }

  /** A pair that cannot disturb the option syntax: the name is made of
      letters, digits and '_', the value holds no ',', ':', CR or LF. */
  predicate SafePair(p: (string, string))
  {
    IsIdentifier(p.0) && ',' !in p.1 && ':' !in p.1 && '\r' !in p.1 && '\n' !in p.1
  }

  /** Exactly the options whose value is not `None` are kept (`0` and `""`
      included), each one camel-cased and escaped, and none is mangled. */
  lemma {:induction false} OptionPairsSafe(kw: Options)
    requires forall i :: 0 <= i < |kw| ==> IsIdentifier(kw[i].0)
    ensures |OptionPairs(kw)| == CountPresent(kw)
    ensures forall j :: 0 <= j < |OptionPairs(kw)| ==> SafePair(OptionPairs(kw)[j])
    decreases |kw|
  {
    if kw != [] {
      OptionPairsSafe(kw[1..]);
      if kw[0].1.Some? {
        EscapePropertySafe(MakeString(kw[0].1.value));
      }
    }
  }

  /** The list keeps keyword order: options given in two runs render as the
      two runs' lists one after the other. */
  lemma {:induction false} OptionPairsAppend(kw1: Options, kw2: Options)
    ensures OptionPairs(kw1 + kw2) == OptionPairs(kw1) + OptionPairs(kw2)
    decreases |kw1|
  {
    if kw1 == [] {
      assert kw1 + kw2 == kw2;
    } else {
      assert (kw1 + kw2)[1..] == kw1[1..] + kw2;
      OptionPairsAppend(kw1[1..], kw2);
    }
  }

  lemma {:induction false} SplitRendered(ps: seq<(string, string)>)
    requires forall j :: 0 <= j < |ps| ==> SafePair(ps[j])
    ensures SplitPairs(RenderPairs(ps)) == ps
    decreases |ps|
  {
    if ps != [] {
      assert '=' !in ps[0].0;
      SplitFirstAt(ps[0].0, ps[0].1, '=');
      assert ps[0].0 + "=" + ps[0].1 == ps[0].0 + ['='] + ps[0].1;
      SplitRendered(ps[1..]);
    }
  }

  lemma RenderedSafe(ps: seq<(string, string)>, c: char)
    requires forall j :: 0 <= j < |ps| ==> SafePair(ps[j])
    requires c == ',' || c == ':' || c == '\r' || c == '\n'
    ensures forall j :: 0 <= j < |ps| ==> c !in RenderPairs(ps)[j]
    decreases |ps|
  {
    if ps != [] {
      RenderedSafe(ps[1..], c);
      assert c !in ps[0].0;
      forall j | 1 <= j < |ps| ensures c !in RenderPairs(ps)[j] {
        assert RenderPairs(ps)[j] == RenderPairs(ps[1..])[j - 1];
      }
    }
  }

  /** The decoder reads back exactly the options that were given a value, in
      order, with their camelCase names and escaped values. */
  lemma OptionsRoundTrip(kw: Options)
    requires forall i :: 0 <= i < |kw| ==> IsIdentifier(kw[i].0)
    ensures ParseOptions(BuildOptionsString(kw)) == OptionPairs(kw)
  {
    var ps := OptionPairs(kw);
    OptionPairsSafe(kw);
    if ps != [] {
      var rs := RenderPairs(ps);
      RenderedSafe(ps, ',');
      SplitJoin(rs, ',');
      SplitRendered(ps);
      assert BuildOptionsString(kw) != [] by {
        if |rs| > 1 {
          assert Join(rs, ',') == rs[0] + [','] + Join(rs[1..], ',');
        }
      }
    }
  }

  /** The rendered pairs of identifier-named options, joined, hold no ':',
      CR or LF. */
  lemma RenderedOptionsSafe(kw: Options)
    ensures (forall i :: 0 <= i < |kw| ==> IsIdentifier(kw[i].0)) ==>
      var s := Join(RenderPairs(OptionPairs(kw)), ',');
      ':' !in s && '\r' !in s && '\n' !in s
  {
    if forall i :: 0 <= i < |kw| ==> IsIdentifier(kw[i].0) {
      var ps := OptionPairs(kw);
      OptionPairsSafe(kw);
      RenderedSafe(ps, ':');
      JoinAvoids(RenderPairs(ps), ',', ':');
      RenderedSafe(ps, '\r');
      JoinAvoids(RenderPairs(ps), ',', '\r');
      RenderedSafe(ps, '\n');
      JoinAvoids(RenderPairs(ps), ',', '\n');
    }
  }

  /* ---------------------------------------------------------------------- */
  /* _print_command                                                          */
  /* ---------------------------------------------------------------------- */

  /** The line `_print_command` prints: `::command options::message`, the
      message escaped only when asked. There is always a space after the
      command name, even without options. With a name and options on one
      line, the printed text holds a line break (CR or LF) exactly when the
      message is left unescaped and holds one. */
  function CommandLine(command: string, message: string, options: string, escapeMessage: bool): (r: string)
    ensures !HasBreak(command) && !HasBreak(options) ==> (HasBreak(r) <==> !escapeMessage && HasBreak(message))
  {
    EscapeDataSafe(message);
    CommandMarker + command + " " + options + CommandMarker
    + (if escapeMessage then EscapeData(message) else message)
  }

  datatype Command = Command(name: string, options: string, message: string)

  /** A decoder for one printed command: the name runs to the first space,
      the options to the first ':' (which must begin "::"), the message is
      the rest. It reads the string one `print` call writes, which is one
      line only when the message holds no line break. */
  function ParseCommandLine(line: string): Option<Command>
  {
    if |line| < 2 || line[..2] != CommandMarker || ' ' !in line[2..] then None
    else
      var (name, tail) := SplitFirst(line[2..], ' ');
      if ':' !in tail then None
      else
        var (options, rest) := SplitFirst(tail, ':');
        if rest == [] || rest[0] != ':' then None
        else Some(Command(name, options, rest[1..]))
  }

  /** A command line splits back into its name, its options and its
      (possibly escaped) message, whenever the name has no space and the
      options no ':'. */
  lemma CommandLineRoundTrip(command: string, message: string, options: string, escapeMessage: bool)
    requires ' ' !in command && ':' !in options
    ensures ParseCommandLine(CommandLine(command, message, options, escapeMessage))
         == Some(Command(command, options, if escapeMessage then EscapeData(message) else message))
  {
    var payload := if escapeMessage then EscapeData(message) else message;
    var line := CommandLine(command, message, options, escapeMessage);
    assert line[..2] == CommandMarker;
    assert line[2..] == command + [' '] + (options + [':'] + (":" + payload));
    SplitFirstAt(command, options + [':'] + (":" + payload), ' ');
    SplitFirstAt(options, ":" + payload, ':');
  }

  /** An unescaped message `a\nb` is printed as two lines: the command ends
      at `a`, and `b` reaches the runner as a line of its own. */
  lemma MessageBreakSplits(command: string, options: string, a: string, b: string)
    requires '\n' !in command && '\n' !in options && '\n' !in a
    ensures Lines(CommandLine(command, a + "\n" + b, options, false) + "\n")
         == [CommandMarker + command + " " + options + CommandMarker + a + "\n"] + Lines(b + "\n")
  {
    var x := CommandMarker + command + " " + options + CommandMarker + a;
    assert '\n' !in x;
    assert CommandLine(command, a + "\n" + b, options, false) + "\n" == x + "\n" + (b + "\n");
    LinesCons(x, b + "\n");
  }

  /* ---------------------------------------------------------------------- */
  /* The annotation options of notice, warning and error                     */
  /* ---------------------------------------------------------------------- */

  datatype Annotation = Annotation(
    title: Option<string>, file: Option<string>,
    col: Option<int>, endColumn: Option<int>,
    line: Option<int>, endLine: Option<int>)

  function TextOption(o: Option<string>): Option<Value>
  {
    match o
    case None => None
    case Some(t) => Some(Str(t))
  }

  function IntOption(o: Option<int>): Option<Value>
  {
    match o
    case None => None
    case Some(n) => Some(Int(n))
  }

  /** The keyword arguments notice, warning and error pass, in the order they
      pass them. */
  function AnnotationOptions(a: Annotation): Options
  {
    [("title", TextOption(a.title)), ("file", TextOption(a.file)),
     ("col", IntOption(a.col)), ("end_column", IntOption(a.endColumn)),
     ("line", IntOption(a.line)), ("end_line", IntOption(a.endLine))]
  }

  lemma CamelOneWord(w: string)
    requires IsLowerWord(w)
    ensures ToCamelCase(w) == w
  {
    assert Join([w], '_') == w;
    ToCamelCaseSnake([w]);
  }

  lemma CamelTwoWords(a: string, b: string)
    requires IsLowerWord(a) && IsLowerWord(b)
    ensures ToCamelCase(a + "_" + b) == a + Capitalize(b)
  {
    assert Join([a, b], '_') == a + "_" + b;
    ToCamelCaseSnake([a, b]);
    assert [a, b][1..] == [b];
    assert Concat(CapitalizeAll([b])) == Capitalize(b);
  }

  lemma SimpleName(w: string)
    requires w == "title" || w == "file" || w == "col" || w == "line"
    ensures ToCamelCase(w) == w
  {
    assert IsLowerWord(w);
    CamelOneWord(w);
  }

  /** `end_column` becomes `endColumn`. */
  lemma EndColumnName(w: string)
    requires w == "end_column"
    ensures ToCamelCase(w) == "endColumn"
  {
    var end, tail := "end", "column";
    assert IsLowerWord(end) && IsLowerWord(tail);
    CamelTwoWords(end, tail);
    assert end + "_" + tail == w;
  }

  /** `end_line` becomes `endLine`. */
  lemma EndLineName(w: string)
    requires w == "end_line"
    ensures ToCamelCase(w) == "endLine"
  {
    var end, tail := "end", "line";
    assert IsLowerWord(end) && IsLowerWord(tail);
    CamelTwoWords(end, tail);
    assert end + "_" + tail == w;
  }

  /** The one-word option names of an annotation reach the runner as they
      are. */
  lemma AnnotationPlainNames(a: Annotation)
    ensures ToCamelCase(AnnotationOptions(a)[0].0) == "title"
    ensures ToCamelCase(AnnotationOptions(a)[1].0) == "file"
    ensures ToCamelCase(AnnotationOptions(a)[2].0) == "col"
    ensures ToCamelCase(AnnotationOptions(a)[4].0) == "line"
  {
    var kw := AnnotationOptions(a);
    SimpleName(kw[0].0);
    SimpleName(kw[1].0);
    SimpleName(kw[2].0);
    SimpleName(kw[4].0);
  }

  /** `end_column` reaches the runner as `endColumn`, `end_line` as
      `endLine`. */
  lemma AnnotationEndNames(a: Annotation)
    ensures ToCamelCase(AnnotationOptions(a)[3].0) == "endColumn"
    ensures ToCamelCase(AnnotationOptions(a)[5].0) == "endLine"
  {
    var kw := AnnotationOptions(a);
    EndColumnName(kw[3].0);
    EndLineName(kw[5].0);
  }

  /** Every annotation yields an option list that parses back to the
      options that were given, in the documented order. */
  lemma AnnotationRoundTrip(a: Annotation)
    ensures ParseOptions(BuildOptionsString(AnnotationOptions(a))) == OptionPairs(AnnotationOptions(a))
    ensures ':' !in BuildOptionsString(AnnotationOptions(a))
    ensures '\r' !in BuildOptionsString(AnnotationOptions(a)) && '\n' !in BuildOptionsString(AnnotationOptions(a))
  {
    var kw := AnnotationOptions(a);
    forall i | 0 <= i < |kw| ensures IsIdentifier(kw[i].0) {
      assert kw[i].0 in ["title", "file", "col", "end_column", "line", "end_line"];
    }
    OptionsRoundTrip(kw);
  }

  /** A number needs no escaping: `str(n)` is written as it is. */
  lemma IntValuePlain(n: int)
    ensures EscapeProperty(MakeString(Int(n))) == IntToString(n)
  {
    IntToStringChars(n);
    EscapePropertyPlain(IntToString(n));
  }

  /** The option pair of one present option. */
  lemma OptionPairsOne(name: string, v: Value)
    ensures OptionPairs([(name, Some(v))]) == [(ToCamelCase(name), EscapeProperty(MakeString(v)))]
  {
    assert [(name, Some(v))][1..] == [];
  }

  lemma {:induction false} RenderPairsAt(ps: seq<(string, string)>)
    ensures forall i :: 0 <= i < |ps| ==> RenderPairs(ps)[i] == ps[i].0 + "=" + ps[i].1
    decreases |ps|
  {
    if ps != [] {
      RenderPairsAt(ps[1..]);
      assert RenderPairs(ps) == [ps[0].0 + "=" + ps[0].1] + RenderPairs(ps[1..]);
    }
  }

  lemma RenderSix(ps: seq<(string, string)>)
    requires |ps| == 6
    ensures RenderPairs(ps) == [ps[0].0 + "=" + ps[0].1, ps[1].0 + "=" + ps[1].1, ps[2].0 + "=" + ps[2].1,
                                ps[3].0 + "=" + ps[3].1, ps[4].0 + "=" + ps[4].1, ps[5].0 + "=" + ps[5].1]
  {
    RenderPairsAt(ps);
  }

  lemma JoinCons(xs: seq<string>, sep: char)
    requires |xs| >= 2
    ensures Join(xs, sep) == xs[0] + [sep] + Join(xs[1..], sep)
  {
  }

  lemma JoinSix(xs: seq<string>, sep: char)
    requires |xs| == 6
    ensures Join(xs, sep) == xs[0] + [sep] + xs[1] + [sep] + xs[2] + [sep] + xs[3] + [sep] + xs[4] + [sep] + xs[5]
  {
    var j5 := xs[5];
    assert Join(xs[5..], sep) == j5;
    var j4 := xs[4] + [sep] + j5;
    JoinCons(xs[4..], sep);
    assert xs[4..][1..] == xs[5..];
    var j3 := xs[3] + [sep] + j4;
    JoinCons(xs[3..], sep);
    assert xs[3..][1..] == xs[4..];
    var j2 := xs[2] + [sep] + j3;
    JoinCons(xs[2..], sep);
    assert xs[2..][1..] == xs[3..];
    var j1 := xs[1] + [sep] + j2;
    JoinCons(xs[1..], sep);
    assert xs[1..][1..] == xs[2..];
    JoinCons(xs, sep);
    assert Join(xs, sep) == xs[0] + [sep] + j1;
  }

  /** When every option is present, the list has one pair per option. */
  lemma {:induction false} AllPresentLength(kw: Options)
    requires forall i :: 0 <= i < |kw| ==> kw[i].1.Some?
    ensures |OptionPairs(kw)| == |kw|
    decreases |kw|
  {
    if kw != [] {
      assert kw[0].1 == Some(kw[0].1.value);
      AllPresentLength(kw[1..]);
    }
  }

  /** Pair `i` of an all-present list is option `i`, camel-cased and escaped. */
  lemma {:induction false} PresentPairAt(kw: Options, i: int)
    requires forall j :: 0 <= j < |kw| ==> kw[j].1.Some?
    requires 0 <= i < |kw|
    ensures |OptionPairs(kw)| == |kw| && OptionPairs(kw)[i] == OptionPair(kw[i].0, kw[i].1.value)
    decreases |kw|
  {
    AllPresentLength(kw);
    var tail := kw[1..];
    assert kw[0].1 == Some(kw[0].1.value);
    assert OptionPairs(kw) == [OptionPair(kw[0].0, kw[0].1.value)] + OptionPairs(tail);
    if i > 0 {
      PresentPairAt(tail, i - 1);
      assert tail[i - 1] == kw[i];
    }
  }

  /** When every option is present, the list has one pair per option, in
      order, each under its camel-cased name. */
  lemma AllPresentPairs(kw: Options)
    requires forall i :: 0 <= i < |kw| ==> kw[i].1.Some?
    ensures |OptionPairs(kw)| == |kw|
    ensures forall i :: 0 <= i < |kw| ==> OptionPairs(kw)[i] == OptionPair(kw[i].0, kw[i].1.value)
  {
    AllPresentLength(kw);
    forall i | 0 <= i < |kw|
      ensures OptionPairs(kw)[i] == OptionPair(kw[i].0, kw[i].1.value)
    {
      PresentPairAt(kw, i);
    }
  }

  /** The name half of one pair of an all-present list. */
  lemma PresentNameAt(kw: Options, i: int)
    requires forall j :: 0 <= j < |kw| ==> kw[j].1.Some?
    requires 0 <= i < |kw|
    ensures |OptionPairs(kw)| == |kw| && OptionPairs(kw)[i].0 == ToCamelCase(kw[i].0)
  {
    AllPresentPairs(kw);
  }

  /** The name of pair `i` of an all-present list, given what its keyword
      camel-cases to. */
  lemma PresentNameIs(kw: Options, i: int, camel: string)
    requires forall j :: 0 <= j < |kw| ==> kw[j].1.Some?
    requires 0 <= i < |kw| && ToCamelCase(kw[i].0) == camel
    ensures |OptionPairs(kw)| == |kw| && OptionPairs(kw)[i].0 == camel
  {
    PresentNameAt(kw, i);
  }

  /** A one-word keyword of an all-present list names its pair unchanged. */
  lemma PresentSimpleName(kw: Options, i: int)
    requires forall j :: 0 <= j < |kw| ==> kw[j].1.Some?
    requires 0 <= i < |kw|
    requires kw[i].0 == "title" || kw[i].0 == "file" || kw[i].0 == "col" || kw[i].0 == "line"
    ensures |OptionPairs(kw)| == |kw| && OptionPairs(kw)[i].0 == kw[i].0
  {
    SimpleName(kw[i].0);
    PresentNameIs(kw, i, kw[i].0);
  }

  /** An `end_column` keyword of an all-present list names its pair
      `endColumn`. */
  lemma PresentEndColumn(kw: Options, i: int)
    requires forall j :: 0 <= j < |kw| ==> kw[j].1.Some?
    requires 0 <= i < |kw| && kw[i].0 == "end_column"
    ensures |OptionPairs(kw)| == |kw| && OptionPairs(kw)[i].0 == "endColumn"
  {
    EndColumnName(kw[i].0);
    PresentNameIs(kw, i, "endColumn");
  }

  /** An `end_line` keyword of an all-present list names its pair `endLine`. */
  lemma PresentEndLine(kw: Options, i: int)
    requires forall j :: 0 <= j < |kw| ==> kw[j].1.Some?
    requires 0 <= i < |kw| && kw[i].0 == "end_line"
    ensures |OptionPairs(kw)| == |kw| && OptionPairs(kw)[i].0 == "endLine"
  {
    EndLineName(kw[i].0);
    PresentNameIs(kw, i, "endLine");
  }

  /** The value half of one pair of an all-present list. */
  lemma PresentValueAt(kw: Options, i: int)
    requires forall j :: 0 <= j < |kw| ==> kw[j].1.Some?
    requires 0 <= i < |kw|
    ensures |OptionPairs(kw)| == |kw| && OptionPairs(kw)[i].1 == EscapeProperty(MakeString(kw[i].1.value))
  {
    AllPresentPairs(kw);
  }

  /** Every option of the annotation is given. */
  predicate FullAnnotation(a: Annotation)
  {
    a.title.Some? && a.file.Some? && a.col.Some? && a.endColumn.Some? && a.line.Some? && a.endLine.Some?
  }

  lemma AnnotationTextPairs(a: Annotation)
    requires FullAnnotation(a)
    ensures var ps := OptionPairs(AnnotationOptions(a));
      && |ps| == 6
      && ps[0] == ("title", EscapeProperty(a.title.value))
      && ps[1] == ("file", EscapeProperty(a.file.value))
  {
    var kw := AnnotationOptions(a);
    PresentSimpleName(kw, 0);
    PresentSimpleName(kw, 1);
    PresentValueAt(kw, 0);
    PresentValueAt(kw, 1);
  }

  lemma AnnotationStartNames(a: Annotation)
    requires FullAnnotation(a)
    ensures var ps := OptionPairs(AnnotationOptions(a));
      |ps| == 6 && ps[2].0 == "col" && ps[4].0 == "line"
  {
    var kw := AnnotationOptions(a);
    PresentSimpleName(kw, 2);
    PresentSimpleName(kw, 4);
  }

  lemma AnnotationEndColumnName(a: Annotation)
    requires FullAnnotation(a)
    ensures var ps := OptionPairs(AnnotationOptions(a));
      |ps| == 6 && ps[3].0 == "endColumn"
  {
    var kw := AnnotationOptions(a);
    PresentEndColumn(kw, 3);
  }

  lemma AnnotationEndLineName(a: Annotation)
    requires FullAnnotation(a)
    ensures var ps := OptionPairs(AnnotationOptions(a));
      |ps| == 6 && ps[5].0 == "endLine"
  {
    var kw := AnnotationOptions(a);
    PresentEndLine(kw, 5);
  }

  lemma AnnotationNumberPairs(a: Annotation)
    requires FullAnnotation(a)
    ensures var ps := OptionPairs(AnnotationOptions(a));
      && |ps| == 6
      && ps[2].1 == IntToString(a.col.value) && ps[3].1 == IntToString(a.endColumn.value)
      && ps[4].1 == IntToString(a.line.value) && ps[5].1 == IntToString(a.endLine.value)
  {
    var kw := AnnotationOptions(a);
    PresentValueAt(kw, 2);
    PresentValueAt(kw, 3);
    PresentValueAt(kw, 4);
    PresentValueAt(kw, 5);
    IntValuePlain(a.col.value);
    IntValuePlain(a.endColumn.value);
    IntValuePlain(a.line.value);
    IntValuePlain(a.endLine.value);
  }

  /** The option pairs of a fully specified annotation, in keyword order,
      under the names they are written with. */
  lemma AnnotationPairs(a: Annotation)
    requires FullAnnotation(a)
    ensures var ps := OptionPairs(AnnotationOptions(a));
      && |ps| == 6
      && ps[0] == ("title", EscapeProperty(a.title.value))
      && ps[1] == ("file", EscapeProperty(a.file.value))
      && ps[2] == ("col", IntToString(a.col.value))
      && ps[3] == ("endColumn", IntToString(a.endColumn.value))
      && ps[4] == ("line", IntToString(a.line.value))
      && ps[5] == ("endLine", IntToString(a.endLine.value))
  {
    AnnotationTextPairs(a);
    AnnotationStartNames(a);
    AnnotationEndColumnName(a);
    AnnotationEndLineName(a);
    AnnotationNumberPairs(a);
  }

  /** Six rendered pairs joined with ','. */
  lemma SixPairsString(ps: seq<(string, string)>)
    requires |ps| == 6
    ensures Join(RenderPairs(ps), ',')
         == ps[0].0 + "=" + ps[0].1 + "," + ps[1].0 + "=" + ps[1].1 + "," + ps[2].0 + "=" + ps[2].1 + ","
          + ps[3].0 + "=" + ps[3].1 + "," + ps[4].0 + "=" + ps[4].1 + "," + ps[5].0 + "=" + ps[5].1
  {
    RenderSix(ps);
    JoinSix(RenderPairs(ps), ',');
    var a1 := ps[0].0 + "=" + ps[0].1;
    AppendPair(a1, ps[1].0, ps[1].1);
    var a2 := a1 + "," + ps[1].0 + "=" + ps[1].1;
    AppendPair(a2, ps[2].0, ps[2].1);
    var a3 := a2 + "," + ps[2].0 + "=" + ps[2].1;
    AppendPair(a3, ps[3].0, ps[3].1);
    var a4 := a3 + "," + ps[3].0 + "=" + ps[3].1;
    AppendPair(a4, ps[4].0, ps[4].1);
    var a5 := a4 + "," + ps[4].0 + "=" + ps[4].1;
    AppendPair(a5, ps[5].0, ps[5].1);
  }

  /** One more rendered pair after a ','. */
  lemma AppendPair(acc: string, key: string, value: string)
    ensures acc + [','] + (key + "=" + value) == acc + "," + key + "=" + value
  {
  }

  /** The option list of a fully specified annotation on the wire:
      `title=T,file=F,col=C,endColumn=EC,line=L,endLine=EL`, the two texts
      escaped and the numbers as `str` prints them. */
  lemma AnnotationLayout(a: Annotation)
    requires FullAnnotation(a)
    ensures BuildOptionsString(AnnotationOptions(a))
         == "title" + "=" + EscapeProperty(a.title.value) + "," + "file" + "=" + EscapeProperty(a.file.value) + ","
          + "col" + "=" + IntToString(a.col.value) + "," + "endColumn" + "=" + IntToString(a.endColumn.value) + ","
          + "line" + "=" + IntToString(a.line.value) + "," + "endLine" + "=" + IntToString(a.endLine.value)
  {
    AnnotationPairs(a);
    SixPairsString(OptionPairs(AnnotationOptions(a)));
  }

  /** The options `notice(message, file=, col=, end_column=, line=)` gives:
      no title, no end line, the four others present. */
  predicate PositionOnly(a: Annotation)
  {
    a.title.None? && a.file.Some? && a.col.Some? && a.endColumn.Some? && a.line.Some? && a.endLine.None?
  }

  /** The absent title and end line leave no trace in the pairs. */
  lemma PositionOnlyDrops(a: Annotation)
    requires PositionOnly(a)
    ensures OptionPairs(AnnotationOptions(a)) == OptionPairs(AnnotationOptions(a)[1..5])
  {
    var kw := AnnotationOptions(a);
    assert kw == [kw[0]] + kw[1..5] + [kw[5]];
    OptionPairsAppend([kw[0]] + kw[1..5], [kw[5]]);
    OptionPairsAppend([kw[0]], kw[1..5]);
    assert OptionPairs([kw[0]]) == [] && OptionPairs([kw[5]]) == [];
  }

  lemma PositionFilePair(a: Annotation)
    requires PositionOnly(a)
    ensures var ps := OptionPairs(AnnotationOptions(a)[1..5]);
      |ps| == 4 && ps[0] == ("file", EscapeProperty(a.file.value))
  {
    var sub := AnnotationOptions(a)[1..5];
    PresentSimpleName(sub, 0);
    PresentValueAt(sub, 0);
  }

  lemma PositionNames(a: Annotation)
    requires PositionOnly(a)
    ensures var ps := OptionPairs(AnnotationOptions(a)[1..5]);
      |ps| == 4 && ps[1].0 == "col" && ps[3].0 == "line"
  {
    var sub := AnnotationOptions(a)[1..5];
    PresentSimpleName(sub, 1);
    PresentSimpleName(sub, 3);
  }

  lemma PositionEndName(a: Annotation)
    requires PositionOnly(a)
    ensures var ps := OptionPairs(AnnotationOptions(a)[1..5]);
      |ps| == 4 && ps[2].0 == "endColumn"
  {
    var sub := AnnotationOptions(a)[1..5];
    PresentEndColumn(sub, 2);
  }

  lemma PositionNumbers(a: Annotation)
    requires PositionOnly(a)
    ensures var ps := OptionPairs(AnnotationOptions(a)[1..5]);
      && |ps| == 4 && ps[1].1 == IntToString(a.col.value)
      && ps[2].1 == IntToString(a.endColumn.value) && ps[3].1 == IntToString(a.line.value)
  {
    var sub := AnnotationOptions(a)[1..5];
    PresentValueAt(sub, 1);
    PresentValueAt(sub, 2);
    PresentValueAt(sub, 3);
    IntValuePlain(a.col.value);
    IntValuePlain(a.endColumn.value);
    IntValuePlain(a.line.value);
  }

  lemma RenderFour(ps: seq<(string, string)>)
    requires |ps| == 4
    ensures RenderPairs(ps) == [ps[0].0 + "=" + ps[0].1, ps[1].0 + "=" + ps[1].1,
                                ps[2].0 + "=" + ps[2].1, ps[3].0 + "=" + ps[3].1]
  {
    RenderPairsAt(ps);
  }

  lemma JoinFour(xs: seq<string>, sep: char)
    requires |xs| == 4
    ensures Join(xs, sep) == xs[0] + [sep] + xs[1] + [sep] + xs[2] + [sep] + xs[3]
  {
    var j3 := xs[3];
    assert Join(xs[3..], sep) == j3;
    var j2 := xs[2] + [sep] + j3;
    JoinCons(xs[2..], sep);
    assert xs[2..][1..] == xs[3..];
    var j1 := xs[1] + [sep] + j2;
    JoinCons(xs[1..], sep);
    assert xs[1..][1..] == xs[2..];
    JoinCons(xs, sep);
    assert Join(xs, sep) == xs[0] + [sep] + j1;
  }

  /** Four rendered pairs joined with ','. */
  lemma FourPairsString(ps: seq<(string, string)>)
    requires |ps| == 4
    ensures Join(RenderPairs(ps), ',')
         == ps[0].0 + "=" + ps[0].1 + "," + ps[1].0 + "=" + ps[1].1 + ","
          + ps[2].0 + "=" + ps[2].1 + "," + ps[3].0 + "=" + ps[3].1
  {
    RenderFour(ps);
    JoinFour(RenderPairs(ps), ',');
  }

  /** The option list of `notice(message, file=F, col=C, end_column=EC,
      line=L)`: `file=F,col=C,endColumn=EC,line=L`, the absent title and
      end line dropped. */
  lemma PositionLayout(a: Annotation)
    requires PositionOnly(a)
    ensures BuildOptionsString(AnnotationOptions(a))
         == "file" + "=" + EscapeProperty(a.file.value) + "," + "col" + "=" + IntToString(a.col.value) + ","
          + "endColumn" + "=" + IntToString(a.endColumn.value) + "," + "line" + "=" + IntToString(a.line.value)
  {
    PositionOnlyDrops(a);
    PositionFilePair(a);
    PositionNames(a);
    PositionEndName(a);
    PositionNumbers(a);
    FourPairsString(OptionPairs(AnnotationOptions(a)));
  }

  /** The example's annotation: `file="app.js", col=5, end_column=7, line=1`. */
  predicate NoticeSample(a: Annotation, file: string)
  {
    file == "app.js" && a.title == None && a.file == Some(file)
    && a.col == Some(5) && a.endColumn == Some(7) && a.line == Some(1) && a.endLine == None
  }

  lemma NoticeText(a: Annotation, file: string, opts: string)
    requires NoticeSample(a, file)
    requires opts == "file" + "=" + EscapeProperty(a.file.value) + "," + "col" + "=" + IntToString(a.col.value) + ","
          + "endColumn" + "=" + IntToString(a.endColumn.value) + "," + "line" + "=" + IntToString(a.line.value)
    ensures opts == "file=app.js,col=5,endColumn=7,line=1"
  {
    EscapePropertyPlain(file);
    var f, c, e, l := EscapeProperty(a.file.value), IntToString(a.col.value), IntToString(a.endColumn.value), IntToString(a.line.value);
    assert f == "app.js";
    assert c == "5" && e == "7" && l == "1";
    NoticeConcat(f, c, e, l, opts);
  }

  /** The example's option list, once each value is known as text. */
  lemma NoticeConcat(f: string, c: string, e: string, l: string, opts: string)
    requires f == "app.js" && c == "5" && e == "7" && l == "1"
    requires opts == "file" + "=" + f + "," + "col" + "=" + c + "," + "endColumn" + "=" + e + "," + "line" + "=" + l
    ensures opts == "file=app.js,col=5,endColumn=7,line=1"
  {
  }

  lemma NoticeOptions(a: Annotation, file: string)
    requires NoticeSample(a, file)
    ensures BuildOptionsString(AnnotationOptions(a)) == "file=app.js,col=5,endColumn=7,line=1"
  {
    assert PositionOnly(a);
    PositionLayout(a);
    NoticeText(a, file, BuildOptionsString(AnnotationOptions(a)));
  }

  /** `notice("Missing semicolon", file="app.js", col=5, end_column=7, line=1)`
      prints `::notice file=app.js,col=5,endColumn=7,line=1::Missing semicolon`:
      the options in keyword order, camel-cased, the message unescaped. */
  lemma NoticeExample(a: Annotation, message: string, file: string)
    requires NoticeSample(a, file)
    requires message == "Missing semicolon"
    ensures CommandLine("notice", message, BuildOptionsString(AnnotationOptions(a)), false)
         == "::notice " + "file=app.js,col=5,endColumn=7,line=1" + "::Missing semicolon"
  {
    NoticeOptions(a, file);
    NoticeLine(message, BuildOptionsString(AnnotationOptions(a)));
  }

  /** The example's command line around any option list. */
  lemma NoticeLine(message: string, opts: string)
    requires message == "Missing semicolon"
    ensures CommandLine("notice", message, opts, false) == "::notice " + opts + "::Missing semicolon"
  {
    CommandLineUnescaped("notice", message, opts);
    assert CommandMarker + "notice" + " " == "::notice ";
    assert CommandMarker + message == "::Missing semicolon";
  }

  /** An unescaped command line is the prefix, the options and the marked
      message, in that order. */
  lemma CommandLineUnescaped(command: string, message: string, options: string)
    ensures CommandLine(command, message, options, false)
         == (CommandMarker + command + " ") + options + (CommandMarker + message)
  {
  }

  /** `debug("m")` prints `::debug ::m`: the space after the command name is
      there even when there are no options. */
  lemma DebugExample(message: string)
    requires message == "m"
    ensures CommandLine("debug", message, BuildOptionsString([]), false) == "::debug ::m"
  {
  }

  /* ---------------------------------------------------------------------- */
  /* _build_file_input                                                       */
  /* ---------------------------------------------------------------------- */

  /** `_build_file_input(name, value)`: a header line with the escaped name,
      the escaped value, and the delimiter line. Escaping keeps line breaks
      out of the name and the value, so the block is exactly these three
      newline-terminated lines. */
  function BuildFileInput(name: string, value: Value): (r: string)
    ensures Lines(r) == [EscapeProperty(name) + HeaderMarker + "\n",
                         EscapeData(MakeString(value)) + "\n",
                         EnvDelimiter + "\n"]
  {
    var k, d := EscapeProperty(name), EscapeData(MakeString(value));
    var header, delimiter := HeaderMarker, EnvDelimiter;
    assert '\n' !in header && '\n' !in delimiter;
    LinesThree(k + header, d, delimiter);
    k + header + "\n" + d + "\n" + delimiter + "\n"
  }
}
