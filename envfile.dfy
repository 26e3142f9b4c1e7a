/** The reader of the env file (`get_workflow_environment_variables`): a
    loop over the lines of the file that takes a header line
    `name<<__ENV_DELIMITER__` together with the line after it.

    `ParseFrom` states what the loop computes; `ReadEnvironment` is the loop
    itself, proved to compute it. The lemmas read back what `set_env` writes
    and pin down the reader's edge cases. */
module EnvFile {
  import opened Base
  import opened Text
  import opened Escape
  import opened Encode

  type Env = map<string, string>

  /** `marker in decoded_line`: the marker occurs somewhere in the line. */
  function IsHeader(line: string): (b: bool)
    ensures b <==> exists i: nat :: OccursAt(line, HeaderMarker, i)
  {
    ContainsAt(line, HeaderMarker);
    Contains(line, HeaderMarker)
  }

  /** `decoded_line.strip().split("<<")[0]`: the stripped line up to the
      first "<<", or all of it when there is none. */
  function HeaderName(line: string): (r: string)
    ensures r <= Strip(line)
    ensures r == Strip(line) || OccursAt(Strip(line), "<<", |r|)
    ensures forall i: nat :: i < |r| ==> !OccursAt(Strip(line), "<<", i)
  {
    BeforeFirst(Strip(line), "<<")
  }

  /** What the loop returns from here on, given the lines still to read, the
      `(name, decoded_value)` it bound last (if any) and the mapping so far. A
      header takes the next line as its value, whatever that line holds; a
      header on the last line ends the loop (`StopIteration` then `break`);
      any other line stores the last binding again, and before the first
      header raises `UnboundLocalError`: neither `decoded_value` nor `name`
      is bound yet, and Python evaluates `decoded_value` first. */
  function ParseFrom(lines: seq<string>, bound: Option<(string, string)>, env: Env): (r: Result<Env, Fault>)
    ensures r.Ok? ==> env.Keys <= r.value.Keys
    ensures r.Err? ==> r.error == Unbound && bound.None?
    decreases |lines|
  {
    if lines == [] then Ok(env)
    else if IsHeader(lines[0]) then
      if |lines| == 1 then Ok(env)
      else
        var name, value := HeaderName(lines[0]), Strip(lines[1]);
        ParseFrom(lines[2..], Some((name, value)), env[name := value])
    else
      match bound
      case None => Err(Unbound)
      case Some(b) => ParseFrom(lines[1..], bound, env[b.0 := b.1])
  }

  /** The mapping read from a file with the given contents. An empty file
      reads as the empty mapping, and the only way to fail is the
      `UnboundLocalError` of a plain line before any header. */
  function ParseEnv(content: string): (r: Result<Env, Fault>)
    ensures content == [] ==> r == Ok(map[])
    ensures r.Err? ==> r.error == Unbound
  {
    ParseFrom(Lines(content), None, map[])
  }

  /** The reading loop of `get_workflow_environment_variables`. */
  method ReadEnvironment(content: string) returns (r: Result<Env, Fault>)
    ensures r == ParseEnv(content)
  {
    var lines := Lines(content);
    var env: Env := map[];
    var bound: Option<(string, string)> := None;
    var i := 0;
    while i < |lines|
      invariant 0 <= i <= |lines|
      invariant ParseFrom(lines[i..], bound, env) == ParseEnv(content)
      decreases |lines| - i
    {
      var line := lines[i];
      if IsHeader(line) {
        var name := HeaderName(line);
        if i + 1 == |lines| {
          break;
        }
        bound := Some((name, Strip(lines[i + 1])));
        assert lines[i..][2..] == lines[i + 2..];
        i := i + 2;
      } else if bound.None? {
        return Err(Unbound);
      } else {
        assert lines[i..][1..] == lines[i + 1..];
        i := i + 1;
      }
      env := env[bound.value.0 := bound.value.1];
    }
    return Ok(env);
  }

  /* ---------------------------------------------------------------------- */
  /* Reading back what set_env writes                                        */
  /* ---------------------------------------------------------------------- */

  /** The file after `set_env(n, v)` for each entry in turn. */
  function Written(es: seq<(string, Value)>): string
    decreases |es|
  {
    if es == [] then [] else BuildFileInput(es[0].0, es[0].1) + Written(es[1..])
  }

  /** The key the reader recovers for `name`: the escaped name, less leading
      whitespace. */
  function EnvKey(name: string): string
  {
    StripStart(EscapeProperty(name))
  }

  /** The value the reader recovers for `v`: still escaped, and stripped. */
  function EnvValue(v: Value): string
  {
    Strip(EscapeData(MakeString(v)))
  }

  /** The mapping after storing each entry in turn. */
  function Apply(env: Env, es: seq<(string, Value)>): Env
    decreases |es|
  {
    if es == [] then env else Apply(env[EnvKey(es[0].0) := EnvValue(es[0].1)], es[1..])
  }

  /** The binding the reader holds after the entries. */
  function LastBound(bound: Option<(string, string)>, es: seq<(string, Value)>): Option<(string, string)>
  {
    if es == [] then bound else Some((EnvKey(es[|es| - 1].0), EnvValue(es[|es| - 1].1)))
  }

  /** Names whose escaped form cannot be cut short by the reader's split at
      the first "<<". */
  predicate Readable(es: seq<(string, Value)>)
  {
    forall i :: 0 <= i < |es| ==> '<' !in es[i].0
  }

  /** The header line of one block yields the entry's key. */
  lemma HeaderOfBlock(name: string)
    requires '<' !in name
    ensures IsHeader(EscapeProperty(name) + HeaderMarker + "\n")
    ensures HeaderName(EscapeProperty(name) + HeaderMarker + "\n") == EnvKey(name)
  {
    var k, m := EscapeProperty(name), HeaderMarker;
    ContainsMiddle(k, m, "\n");
    assert m[0] == '<' && m[|m| - 1] == '_';
    StripHeader(k, m);
    EscapePropertyAvoids(name, '<');
    StripStartWithin(k, '<');
    assert m[..2] == "<<";
    BeforeFirstAt(StripStart(k), m, "<<");
  }

  /** The delimiter line is not a header. */
  lemma DelimiterNotHeader()
    ensures !IsHeader(EnvDelimiter + "\n")
  {
    var d, m := EnvDelimiter + "\n", HeaderMarker;
    assert m[0] == '<' && '<' !in d;
    ContainsNeedsHead(d, m);
  }

  /** One block, then the rest of the file. */
  lemma BlockLines(name: string, v: Value, rest: string)
    ensures Lines(BuildFileInput(name, v) + rest)
         == [EscapeProperty(name) + HeaderMarker + "\n", EscapeData(MakeString(v)) + "\n", EnvDelimiter + "\n"]
            + Lines(rest)
  {
    var k, d := EscapeProperty(name), EscapeData(MakeString(v));
    EscapePropertySafe(name);
    EscapeDataSafe(MakeString(v));
    var header, delimiter := HeaderMarker, EnvDelimiter;
    assert '\n' !in header && '\n' !in delimiter;
    LinesThreeThen(k + header, d, delimiter, rest);
  }

  /** Reading one block: the header and value lines store the entry, and
      the delimiter line stores it again. */
  lemma ReadBlock(name: string, v: Value, rest: string, bound: Option<(string, string)>, env: Env)
    requires '<' !in name
    ensures var key, value := EnvKey(name), EnvValue(v);
      ParseFrom(Lines(BuildFileInput(name, v) + rest), bound, env)
      == ParseFrom(Lines(rest), Some((key, value)), env[key := value])
  {
    BlockLines(name, v, rest);
    HeaderOfBlock(name);
    StripTrailingSpace(EscapeData(MakeString(v)), '\n');
    DelimiterNotHeader();
    ReadThreeLines(EscapeProperty(name) + HeaderMarker + "\n", EscapeData(MakeString(v)) + "\n",
                   EnvDelimiter + "\n", Lines(rest), bound, env);
  }

  /** A header, its value line and a plain line: the pair is stored, and
      stored again by the plain line. */
  lemma ReadThreeLines(h: string, d: string, e: string, rest: seq<string>, bound: Option<(string, string)>, env: Env)
    requires IsHeader(h) && !IsHeader(e)
    ensures var key, value := HeaderName(h), Strip(d);
      ParseFrom([h, d, e] + rest, bound, env) == ParseFrom(rest, Some((key, value)), env[key := value])
  {
    var lines := [h, d, e] + rest;
    var key, value := HeaderName(h), Strip(d);
    var env1 := env[key := value];
    var after := [e] + rest;
    assert lines[2..] == after;
    assert ParseFrom(lines, bound, env) == ParseFrom(after, Some((key, value)), env1);
    assert after[1..] == rest;
    assert env1[key := value] == env1;
  }

  /** Reading the blocks of `set_env` calls followed by any text: each block
      stores its entry, and the reader goes on with the last entry bound. */
  lemma {:induction false} ReadBlocksThen(es: seq<(string, Value)>, rest: string, bound: Option<(string, string)>, env: Env)
    requires Readable(es)
    ensures ParseFrom(Lines(Written(es) + rest), bound, env)
         == ParseFrom(Lines(rest), LastBound(bound, es), Apply(env, es))
    decreases |es|
  {
    if es == [] {
      assert Written(es) + rest == rest;
    } else {
      var name, v := es[0].0, es[0].1;
      var tail := Written(es[1..]) + rest;
      assert Written(es) + rest == BuildFileInput(name, v) + tail;
      var key, value := EnvKey(name), EnvValue(v);
      ReadBlock(name, v, tail, bound, env);
      assert forall i :: 0 <= i < |es[1..]| ==> '<' !in es[1..][i].0;
      ReadBlocksThen(es[1..], rest, Some((key, value)), env[key := value]);
      if |es| > 1 {
        assert es[1..][|es[1..]| - 1] == es[|es| - 1];
      }
    }
  }

  /** What a run of `set_env` calls writes to an empty file reads back as
      the entries stored in order: escaped keys, escaped and stripped values,
      the last write to a key winning. */
  lemma ReadBack(es: seq<(string, Value)>)
    requires Readable(es)
    ensures ParseEnv(Written(es)) == Ok(Apply(map[], es))
  {
    ReadBlocksThen(es, [], None, map[]);
    assert Written(es) + [] == Written(es);
  }

  /** A header on the last line of the file is dropped without error,
      whether or not that line ends in '\n'. */
  lemma DanglingHeaderDropped(es: seq<(string, Value)>, header: string, end: string)
    requires Readable(es)
    requires end == "" || end == "\n"
    requires '\n' !in header && IsHeader(header + end)
    ensures ParseEnv(Written(es) + header + end) == Ok(Apply(map[], es))
  {
    var last := header + end;
    ReadBlocksThen(es, last, None, map[]);
    if end == "" {
      assert last == header && last != [];
      LinesUnterminated(header);
    } else {
      LinesCons(header, []);
      assert header + "\n" + [] == last;
    }
    assert Written(es) + header + end == Written(es) + last;
  }

  /** A file whose first line is not a header makes the reader raise
      `UnboundLocalError`, since no header has bound `decoded_value` yet. */
  lemma LeadingLineFails(first: string, rest: string)
    requires '\n' !in first && !IsHeader(first + "\n")
    ensures ParseEnv(first + "\n" + rest) == Err(Unbound)
  {
    LinesCons(first, rest);
  }

  /** A header takes the next line as its value, stripped, even when that
      line is itself a header. */
  lemma HeaderTakesNextLine(header: string, next: string, rest: string, bound: Option<(string, string)>, env: Env)
    requires '\n' !in header && '\n' !in next && IsHeader(header + "\n")
    ensures var name, value := HeaderName(header + "\n"), Strip(next);
      ParseFrom(Lines(header + "\n" + next + "\n" + rest), bound, env)
      == ParseFrom(Lines(rest), Some((name, value)), env[name := value])
  {
    LinesCons(next, rest);
    LinesCons(header, next + "\n" + rest);
    assert header + "\n" + next + "\n" + rest == header + "\n" + (next + "\n" + rest);
    StripTrailingSpace(next, '\n');
    var lines := Lines(header + "\n" + next + "\n" + rest);
    assert lines[2..] == Lines(rest);
  }

  /** Storing one more entry overwrites whatever its key held: the last write
      wins. */
  lemma {:induction false} ApplyLastWins(env: Env, es: seq<(string, Value)>, name: string, v: Value)
    ensures Apply(env, es + [(name, v)]) == Apply(env, es)[EnvKey(name) := EnvValue(v)]
    decreases |es|
  {
    if es == [] {
      assert es + [(name, v)] == [(name, v)];
      assert [(name, v)][1..] == [];
    } else {
      assert (es + [(name, v)])[1..] == es[1..] + [(name, v)];
      ApplyLastWins(env[EnvKey(es[0].0) := EnvValue(es[0].1)], es[1..], name, v);
    }
  }

  /** The keys read back are the keys already present and those of the
      entries. */
  lemma {:induction false} ApplyKeys(env: Env, es: seq<(string, Value)>)
    ensures Apply(env, es).Keys == env.Keys + set i | 0 <= i < |es| :: EnvKey(es[i].0)
    decreases |es|
  {
    if es != [] {
      var env1 := env[EnvKey(es[0].0) := EnvValue(es[0].1)];
      ApplyKeys(env1, es[1..]);
      var tailKeys := set i | 0 <= i < |es[1..]| :: EnvKey(es[1..][i].0);
      var allKeys := set i | 0 <= i < |es| :: EnvKey(es[i].0);
      assert allKeys == {EnvKey(es[0].0)} + tailKeys by {
        forall x | x in allKeys ensures x in {EnvKey(es[0].0)} + tailKeys {
          var i :| 0 <= i < |es| && x == EnvKey(es[i].0);
          if i > 0 {
            assert es[1..][i - 1] == es[i];
          }
        }
        forall x | x in tailKeys ensures x in allKeys {
          var i :| 0 <= i < |es[1..]| && x == EnvKey(es[1..][i].0);
          assert es[1..][i] == es[i + 1];
        }
      }
    }
  }
}
