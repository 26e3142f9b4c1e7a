/** The escapers of the workflow-command protocol (`_escape_data`,
    `_escape_property`, `_clean_markdown_string`) and the snake_case to
    camelCase conversion of option names (`_to_camel_case`).

    Each escaper is written as the chain of `str.replace` calls the source
    makes, and is then proved equal to an independent character-by-character
    encoding, from which the safety properties of the protocol follow. */
module Escape {
  import opened Text

  /* ---------------------------------------------------------------------- */
  /* The escapers as the source writes them                                  */
  /* ---------------------------------------------------------------------- */

  /** `_escape_data` on a string: '%' first, then CR, then LF. The result is
      a single line. */
  function EscapeData(s: string): (r: string)
    ensures '\r' !in r && '\n' !in r
  {
    EscapeDataByChar(s);
    DataCodesSafe(s);
    Replace(Replace(Replace(s, "%", "%25"), "\r", "%0D"), "\n", "%0A")
  }

  /** `_escape_property`: `_escape_data`, then ':' and ','. The result is a
      single line that can neither end an option list nor split an option. */
  function EscapeProperty(s: string): (r: string)
    ensures '\r' !in r && '\n' !in r && ':' !in r && ',' !in r
  {
    EscapeDataByChar(s);
    PropertyFromData(s);
    PropertyCodesSafe(s);
    Replace(Replace(EscapeData(s), ":", "%3A"), ",", "%2C")
  }

  /** `_clean_markdown_string`: "%25" first, then "%0D", then "%0A". Text
      holding no '%' holds no escape and is left as it is. */
  function CleanMarkdown(s: string): (r: string)
    ensures '%' !in s ==> r == s
  {
    CleanWithoutPercent(s);
    Replace(Replace(Replace(s, "%25", "%"), "%0D", "\r"), "%0A", "\n")
  }

  /* ---------------------------------------------------------------------- */
  /* Reference encoding, one character at a time                             */
  /* ---------------------------------------------------------------------- */

  /** The code the runner expects for one character of command data. */
  function DataCode(c: char): string
  {
    if c == '%' then "%25" else if c == '\r' then "%0D" else if c == '\n' then "%0A" else [c]
  }

  /** The code the runner expects for one character of a property value. */
  function PropertyCode(c: char): string
  {
    if c == ':' then "%3A" else if c == ',' then "%2C" else DataCode(c)
  }

  function DataCodes(s: string): string
    decreases |s|
  {
    if s == [] then [] else DataCode(s[0]) + DataCodes(s[1..])
  }

  function PropertyCodes(s: string): string
    decreases |s|
  {
    if s == [] then [] else PropertyCode(s[0]) + PropertyCodes(s[1..])
  }

  const DataEscapes: set<string> := {"%25", "%0D", "%0A"}
  const PropertyEscapes: set<string> := DataEscapes + {"%3A", "%2C"}

  /** Every '%' in `r` begins one of the three-character escapes in `codes`. */
  predicate PercentsBeginEscapes(r: string, codes: set<string>)
  {
    forall i :: 0 <= i < |r| && r[i] == '%' ==> i + 3 <= |r| && r[i..i + 3] in codes
  }

  lemma PercentsConcat(a: string, b: string, codes: set<string>)
    requires PercentsBeginEscapes(a, codes) && PercentsBeginEscapes(b, codes)
    ensures PercentsBeginEscapes(a + b, codes)
  {
    var r := a + b;
    forall i | 0 <= i < |r| && r[i] == '%'
      ensures i + 3 <= |r| && r[i..i + 3] in codes
    {
      if i < |a| {
        assert a[i] == '%';
        assert r[i..i + 3] == a[i..i + 3];
      } else {
        assert b[i - |a|] == '%';
        assert r[i..i + 3] == b[i - |a|..i - |a| + 3];
      }
    }
  }

  /* ---------------------------------------------------------------------- */
  /* The replace chains equal the reference encodings                        */
  /* ---------------------------------------------------------------------- */

  lemma DataCodeOfOne(x: char)
    ensures Replace(Replace(Replace([x], "%", "%25"), "\r", "%0D"), "\n", "%0A") == DataCode(x)
  {
    var a1 := Replace([x], "%", "%25");
    assert a1 == if x == '%' then "%25" else [x] by {
      assert [x][..1] == [x];
    }
    if x == '%' {
      ReplaceCharAbsent(a1, '\r', "%0D");
      ReplaceCharAbsent(a1, '\n', "%0A");
    } else {
      var a2 := Replace(a1, "\r", "%0D");
      assert a1[..1] == [x];
      assert a2 == if x == '\r' then "%0D" else [x];
      if x == '\r' {
        ReplaceCharAbsent(a2, '\n', "%0A");
      } else {
        assert a2[..1] == [x];
      }
    }
  }

  /** Replacing '%' before CR and LF makes `_escape_data` a per-character
      encoding: no escape it introduces is escaped again. */
  lemma {:induction false} EscapeDataByChar(s: string)
    ensures Replace(Replace(Replace(s, "%", "%25"), "\r", "%0D"), "\n", "%0A") == DataCodes(s)
    decreases |s|
  {
    if s != [] {
      var x, t := s[0], s[1..];
      assert s == [x] + t;
      ReplaceCharConcat([x], t, '%', "%25");
      var a1, b1 := Replace([x], "%", "%25"), Replace(t, "%", "%25");
      ReplaceCharConcat(a1, b1, '\r', "%0D");
      var a2, b2 := Replace(a1, "\r", "%0D"), Replace(b1, "\r", "%0D");
      ReplaceCharConcat(a2, b2, '\n', "%0A");
      DataCodeOfOne(x);
      EscapeDataByChar(t);
    }
  }

  lemma PropertyCodeOfOne(x: char)
    ensures Replace(Replace(DataCode(x), ":", "%3A"), ",", "%2C") == PropertyCode(x)
  {
    var d := DataCode(x);
    if x == '%' || x == '\r' || x == '\n' {
      ReplaceCharAbsent(d, ':', "%3A");
      ReplaceCharAbsent(d, ',', "%2C");
    } else {
      assert d == [x] && d[..1] == [x];
      var a := Replace(d, ":", "%3A");
      assert a == if x == ':' then "%3A" else [x];
      if x == ':' {
        ReplaceCharAbsent(a, ',', "%2C");
      } else {
        assert a[..1] == [x];
      }
    }
  }

  lemma {:induction false} PropertyFromData(s: string)
    ensures Replace(Replace(DataCodes(s), ":", "%3A"), ",", "%2C") == PropertyCodes(s)
    decreases |s|
  {
    if s != [] {
      var d, rest := DataCode(s[0]), DataCodes(s[1..]);
      ReplaceCharConcat(d, rest, ':', "%3A");
      ReplaceCharConcat(Replace(d, ":", "%3A"), Replace(rest, ":", "%3A"), ',', "%2C");
      PropertyCodeOfOne(s[0]);
      PropertyFromData(s[1..]);
    }
  }

  /** `_escape_property` is the per-character property encoding. */
  lemma EscapePropertyByChar(s: string)
    ensures EscapeProperty(s) == PropertyCodes(s)
  {
    EscapeDataByChar(s);
    PropertyFromData(s);
  }

  /* ---------------------------------------------------------------------- */
  /* What the escapes guarantee                                              */
  /* ---------------------------------------------------------------------- */

  lemma {:induction false} DataCodesSafe(s: string)
    ensures '\r' !in DataCodes(s) && '\n' !in DataCodes(s)
    ensures PercentsBeginEscapes(DataCodes(s), DataEscapes)
    decreases |s|
  {
    if s != [] {
      var d := DataCode(s[0]);
      DataCodesSafe(s[1..]);
      assert PercentsBeginEscapes(d, DataEscapes) by {
        if d == [s[0]] {
        } else {
          assert d[0..3] == d;
        }
      }
      PercentsConcat(d, DataCodes(s[1..]), DataEscapes);
    }
  }

  /** Escaped data is a single line, and every '%' in it begins "%25", "%0D"
      or "%0A", so the runner can undo the escaping. */
  lemma EscapeDataSafe(s: string)
    ensures '\r' !in EscapeData(s) && '\n' !in EscapeData(s)
    ensures PercentsBeginEscapes(EscapeData(s), DataEscapes)
  {
    EscapeDataByChar(s);
    DataCodesSafe(s);
  }

  lemma {:induction false} PropertyCodesSafe(s: string)
    ensures '\r' !in PropertyCodes(s) && '\n' !in PropertyCodes(s)
    ensures ':' !in PropertyCodes(s) && ',' !in PropertyCodes(s)
    ensures PercentsBeginEscapes(PropertyCodes(s), PropertyEscapes)
    decreases |s|
  {
    if s != [] {
      var p := PropertyCode(s[0]);
      PropertyCodesSafe(s[1..]);
      assert PercentsBeginEscapes(p, PropertyEscapes) by {
        if p == [s[0]] {
        } else {
          assert p[0..3] == p;
        }
      }
      PercentsConcat(p, PropertyCodes(s[1..]), PropertyEscapes);
    }
  }

  /** An escaped property value is a single line without ':' or ',', so it
      can neither end the option list nor split an option; every '%' in it
      begins one of the five escapes. */
  lemma EscapePropertySafe(s: string)
    ensures '\r' !in EscapeProperty(s) && '\n' !in EscapeProperty(s)
    ensures ':' !in EscapeProperty(s) && ',' !in EscapeProperty(s)
    ensures PercentsBeginEscapes(EscapeProperty(s), PropertyEscapes)
  {
    EscapePropertyByChar(s);
    PropertyCodesSafe(s);
  }

  /** Text with none of the five special characters passes through unchanged. */
  lemma {:induction false} EscapePropertyPlain(s: string)
    requires forall i :: 0 <= i < |s| ==> s[i] !in "%\r\n:,"
    ensures EscapeProperty(s) == s && EscapeData(s) == s
    decreases |s|
  {
    EscapePropertyByChar(s);
    EscapeDataByChar(s);
    PlainCodes(s);
  }

  /** The escapes are made of '%', digits and upper-case letters, so any
      other character occurs in an escaped text only if it occurs in the
      input. */
  lemma {:induction false} PropertyCodesAvoid(s: string, c: char)
    requires c !in s && c != '%' && !IsDigit(c) && !IsUpper(c)
    ensures c !in PropertyCodes(s)
    decreases |s|
  {
    if s != [] {
      assert s[0] != c;
      PropertyCodesAvoid(s[1..], c);
    }
  }

  lemma EscapePropertyAvoids(s: string, c: char)
    requires c !in s && c != '%' && !IsDigit(c) && !IsUpper(c)
    ensures c !in EscapeProperty(s)
  {
    EscapePropertyByChar(s);
    PropertyCodesAvoid(s, c);
  }

  lemma {:induction false} PlainCodes(s: string)
    requires forall i :: 0 <= i < |s| ==> s[i] !in "%\r\n:,"
    ensures PropertyCodes(s) == s && DataCodes(s) == s
    decreases |s|
  {
    if s != [] {
      assert s[0] !in "%\r\n:,";
      PlainCodes(s[1..]);
      assert [s[0]] + s[1..] == s;
    }
  }

  /* ---------------------------------------------------------------------- */
  /* _clean_markdown_string against _escape_data                             */
  /* ---------------------------------------------------------------------- */

  /** No match of the three-character `pat` can start inside the escape `code`. */
  lemma CodeSkips(code: string, pat: string)
    requires |code| == 3 && |pat| == 3 && code != pat
    requires code[1] != pat[0] && code[2] != pat[0]
    ensures NoMatchStarts(code, pat)
  {
    assert code[0..3] == code;
  }

  lemma CharSkips(x: char, pat: string)
    requires |pat| > 0 && x != pat[0]
    ensures NoMatchStarts([x], pat)
  {
  }

  /** Cleaning undoes the escape of one character other than '%'. */
  lemma CleanStep(x: char, rest: string)
    requires x != '%'
    ensures CleanMarkdown(DataCode(x) + rest) == [x] + CleanMarkdown(rest)
  {
    var c1 := Replace(rest, "%25", "%");
    var c2 := Replace(c1, "%0D", "\r");
    if x == '\r' {
      CodeSkips("%0D", "%25");
      ReplaceSkip("%0D", rest, "%25", "%");
      ReplaceHit("%0D", c1, "\r");
      CharSkips('\r', "%0A");
      ReplaceSkip("\r", c2, "%0A", "\n");
    } else if x == '\n' {
      CodeSkips("%0A", "%25");
      ReplaceSkip("%0A", rest, "%25", "%");
      CodeSkips("%0A", "%0D");
      ReplaceSkip("%0A", c1, "%0D", "\r");
      ReplaceHit("%0A", c2, "\n");
    } else {
      CharSkips(x, "%25");
      ReplaceSkip([x], rest, "%25", "%");
      CharSkips(x, "%0D");
      ReplaceSkip([x], c1, "%0D", "\r");
      CharSkips(x, "%0A");
      ReplaceSkip([x], c2, "%0A", "\n");
    }
  }

  lemma {:induction false} CleanDataCodes(s: string)
    requires '%' !in s
    ensures CleanMarkdown(DataCodes(s)) == s
    decreases |s|
  {
    if s != [] {
      CleanStep(s[0], DataCodes(s[1..]));
      CleanDataCodes(s[1..]);
      assert [s[0]] + s[1..] == s;
    }
  }

  /** Cleaning undoes `_escape_data` on text that has no '%' of its own. */
  lemma CleanMarkdownInvertsEscapeData(s: string)
    requires '%' !in s
    ensures CleanMarkdown(EscapeData(s)) == s
  {
    EscapeDataByChar(s);
    CleanDataCodes(s);
  }

  /** The three replacements find nothing in text without '%'. */
  lemma CleanWithoutPercent(s: string)
    ensures '%' !in s ==> Replace(Replace(Replace(s, "%25", "%"), "%0D", "\r"), "%0A", "\n") == s
  {
    if '%' !in s {
      ReplaceWithoutHead(s, "%25", "%");
      ReplaceWithoutHead(s, "%0D", "\r");
      ReplaceWithoutHead(s, "%0A", "\n");
    }
  }

  /** ...but it is no inverse in general: "%0A" escapes to "%250A", which
      cleans to a line feed, because "%25" is replaced first. */
  lemma CleanMarkdownNotInverse()
    ensures EscapeData("%0A") == "%250A"
    ensures CleanMarkdown(EscapeData("%0A")) == "\n"
  {
    EscapeDataByChar("%0A");
    assert DataCodes("%0A") == "%25" + DataCodes("0A");
    assert DataCodes("0A") == "0" + DataCodes("A");
    assert DataCodes("A") == "A";
    ReplaceHit("%25", "0A", "%");
    assert Replace("0A", "%25", "%") == "0A";
    CodeSkips("%0A", "%0D");
    ReplaceSkip("%0A", [], "%0D", "\r");
    ReplaceHit("%0A", [], "\n");
  }

  /** Because '%' is replaced first, a line feed becomes "%0A", not "%250A". */
  lemma EscapeDataLineFeed()
    ensures EscapeData("\n") == "%0A" && EscapeData("\r\n") == "%0D%0A"
  {
    EscapeDataByChar("\n");
    EscapeDataByChar("\r\n");
    assert DataCodes("\r\n") == "%0D" + DataCodes("\n");
  }

  /* ---------------------------------------------------------------------- */
  /* _to_camel_case                                                          */
  /* ---------------------------------------------------------------------- */

  /** `str.title()` on ASCII: a letter after a cased letter is lowered, any
      other letter is raised; every other character ends the word. */
  function TitleFrom(s: string, prevCased: bool): string
    decreases |s|
  {
    if s == [] then [] else [TitleChar(s[0], prevCased)] + TitleFrom(s[1..], IsLetter(s[0]))
  }

  /** One character of `str.title()`, given whether the previous one was a
      cased letter. */
  function TitleChar(c: char, prevCased: bool): char
  {
    if !IsLetter(c) then c else if prevCased then ToLower(c) else ToUpper(c)
  }

  function Title(s: string): string
  {
    TitleFrom(s, false)
  }

  /** `s[1:]`. */
  function Tail(s: string): string
  {
    if s == [] then [] else s[1..]
  }

  /** `_to_camel_case`: the first character lowered, then the title-cased text
      without underscores, less its first character. No underscore is left
      after the first character, and a name of letters, digits and
      underscores stays one, so it never brings '=', ',' or ':' into an
      option list. */
  function ToCamelCase(text: string): (r: string)
    ensures IsIdentifier(text) ==> IsIdentifier(r)
    ensures forall i :: 1 <= i < |r| ==> r[i] != '_'
  {
    FlatTitleChars(text);
    (if text == [] then [] else [ToLower(text[0])]) + Tail(Replace(Title(text), "_", ""))
  }

  predicate IsIdentChar(c: char)
  {
    IsLetter(c) || IsDigit(c) || c == '_'
  }

  /** A keyword-argument name: letters, digits and underscores. */
  predicate IsIdentifier(s: string)
  {
    forall i :: 0 <= i < |s| ==> IsIdentChar(s[i])
  }

  /** A non-empty word of lower-case ASCII letters. */
  predicate IsLowerWord(w: string)
  {
    |w| > 0 && forall i :: 0 <= i < |w| ==> IsLower(w[i])
  }

  function Capitalize(w: string): string
  {
    if w == [] then [] else [ToUpper(w[0])] + w[1..]
  }

  function Concat(ws: seq<string>): string
    decreases |ws|
  {
    if ws == [] then [] else ws[0] + Concat(ws[1..])
  }

  function CapitalizeAll(ws: seq<string>): (cs: seq<string>)
    ensures |cs| == |ws|
    decreases |ws|
  {
    if ws == [] then [] else [Capitalize(ws[0])] + CapitalizeAll(ws[1..])
  }

  lemma {:induction false} TitleInsideWord(w: string, rest: string)
    requires forall i :: 0 <= i < |w| ==> IsLower(w[i])
    ensures TitleFrom(w + rest, true) == w + TitleFrom(rest, true)
    decreases |w|
  {
    if w == [] {
      assert w + rest == rest;
    } else {
      assert (w + rest)[0] == w[0] && IsLower(w[0]);
      assert ToLower(w[0]) == w[0];
      assert (w + rest)[1..] == w[1..] + rest;
      assert TitleFrom(w + rest, true) == [w[0]] + TitleFrom(w[1..] + rest, true);
      TitleInsideWord(w[1..], rest);
      assert [w[0]] + w[1..] == w;
    }
  }

  lemma TitleWord(w: string, rest: string)
    requires IsLowerWord(w)
    ensures TitleFrom(w + rest, false) == Capitalize(w) + TitleFrom(rest, true)
  {
    assert (w + rest)[1..] == w[1..] + rest;
    TitleInsideWord(w[1..], rest);
  }

  lemma {:induction false} TitleSnake(ws: seq<string>)
    requires |ws| > 0 && forall i :: 0 <= i < |ws| ==> IsLowerWord(ws[i])
    ensures Title(Join(ws, '_')) == Join(CapitalizeAll(ws), '_')
    decreases |ws|
  {
    if |ws| == 1 {
      TitleWord(ws[0], []);
      assert ws[0] + [] == ws[0];
    } else {
      var j := Join(ws[1..], '_');
      assert Join(ws, '_') == ws[0] + ("_" + j);
      TitleWord(ws[0], "_" + j);
      assert ("_" + j)[1..] == j;
      TitleSnake(ws[1..]);
    }
  }

  lemma {:induction false} RemoveUnderscores(cs: seq<string>)
    requires |cs| > 0 && forall i :: 0 <= i < |cs| ==> '_' !in cs[i]
    ensures Replace(Join(cs, '_'), "_", "") == Concat(cs)
    decreases |cs|
  {
    if |cs| == 1 {
      ReplaceCharAbsent(cs[0], '_', "");
    } else {
      var j := Join(cs[1..], '_');
      ReplaceCharConcat(cs[0] + "_", j, '_', "");
      ReplaceCharConcat(cs[0], "_", '_', "");
      ReplaceCharAbsent(cs[0], '_', "");
      RemoveUnderscores(cs[1..]);
    }
  }

  lemma {:induction false} CapitalizedNoUnderscore(ws: seq<string>)
    requires forall i :: 0 <= i < |ws| ==> IsLowerWord(ws[i])
    ensures forall i :: 0 <= i < |ws| ==> '_' !in CapitalizeAll(ws)[i]
    decreases |ws|
  {
    if ws != [] {
      CapitalizedNoUnderscore(ws[1..]);
      assert '_' !in Capitalize(ws[0]) by {
        assert forall k :: 0 <= k < |ws[0]| ==> IsLower(ws[0][k]);
      }
    }
  }

  lemma JoinHead(ws: seq<string>)
    requires |ws| > 0 && |ws[0]| > 0
    ensures |Join(ws, '_')| > 0 && Join(ws, '_')[0] == ws[0][0]
  {
    if |ws| > 1 {
      assert Join(ws, '_') == ws[0] + ("_" + Join(ws[1..], '_'));
    }
  }

  lemma FlatTitle(ws: seq<string>)
    requires |ws| > 0 && forall i :: 0 <= i < |ws| ==> IsLowerWord(ws[i])
    ensures Replace(Title(Join(ws, '_')), "_", "") == Capitalize(ws[0]) + Concat(CapitalizeAll(ws[1..]))
  {
    var cs := CapitalizeAll(ws);
    TitleSnake(ws);
    CapitalizedNoUnderscore(ws);
    RemoveUnderscores(cs);
    assert cs[1..] == CapitalizeAll(ws[1..]);
  }

  lemma CamelFromParts(first: char, flat: string, w: string, rest: string)
    requires IsLowerWord(w) && first == w[0]
    requires flat == Capitalize(w) + rest
    ensures [ToLower(first)] + Tail(flat) == w + rest
  {
    assert flat == [ToUpper(w[0])] + (w[1..] + rest);
    assert Tail(flat) == w[1..] + rest;
    assert ToLower(w[0]) == w[0];
    assert [w[0]] + w[1..] == w;
  }

  /** A snake_case name of lower-case words becomes the first word followed by
      the others capitalised: `end_column` becomes `endColumn`. */
  lemma ToCamelCaseSnake(ws: seq<string>)
    requires |ws| > 0 && forall i :: 0 <= i < |ws| ==> IsLowerWord(ws[i])
    ensures ToCamelCase(Join(ws, '_')) == ws[0] + Concat(CapitalizeAll(ws[1..]))
  {
    var text := Join(ws, '_');
    assert IsLowerWord(ws[0]);
    JoinHead(ws);
    FlatTitle(ws);
    CamelFromParts(text[0], Replace(Title(text), "_", ""), ws[0], Concat(CapitalizeAll(ws[1..])));
  }

  lemma {:induction false} TitleKeepsIdentifier(s: string, prev: bool)
    requires IsIdentifier(s)
    ensures IsIdentifier(TitleFrom(s, prev))
    decreases |s|
  {
    if s != [] {
      TitleKeepsIdentifier(s[1..], IsLetter(s[0]));
    }
  }

  /** The title-cased text without underscores has no underscore, and keeps
      a name of letters, digits and underscores one. */
  lemma FlatTitleChars(s: string)
    ensures '_' !in Replace(Title(s), "_", "")
    ensures IsIdentifier(s) ==> IsIdentifier(Replace(Title(s), "_", ""))
  {
    var t := Title(s);
    if IsIdentifier(s) {
      TitleKeepsIdentifier(s, false);
    }
    var r := Replace(t, "_", "");
    forall i | 0 <= i < |r| ensures r[i] != '_' && (IsIdentifier(s) ==> IsIdentChar(r[i])) {
      ReplaceCharChars(t, '_', "", r[i]);
    }
  }
}
