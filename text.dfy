/** The handful of Python string operations the workflow-command code relies on,
    stated on `string` (a `seq<char>`), with the facts about them the other
    modules use. */
module Text {

  /* ---------------------------------------------------------------------- */
  /* str.replace                                                             */
  /* ---------------------------------------------------------------------- */

  /** `s.replace(pat, rep)` for a non-empty `pat`: scan from the left and
      replace every non-overlapping occurrence of `pat` by `rep`. */
  function Replace(s: string, pat: string, rep: string): string
    requires |pat| > 0
    decreases |s|
  {
    if |s| < |pat| then s
    else if s[..|pat|] == pat then rep + Replace(s[|pat|..], pat, rep)
    else [s[0]] + Replace(s[1..], pat, rep)
  }

  /** Replacing a single character distributes over concatenation. */
  lemma {:induction false} ReplaceCharConcat(a: string, b: string, c: char, rep: string)
    ensures Replace(a + b, [c], rep) == Replace(a, [c], rep) + Replace(b, [c], rep)
    decreases |a|
  {
    if a == [] {
      assert a + b == b;
    } else {
      assert (a + b)[1..] == a[1..] + b;
      assert (a + b)[..1] == a[..1];
      ReplaceCharConcat(a[1..], b, c, rep);
    }
  }

  /** Replacing a character that does not occur changes nothing. */
  lemma {:induction false} ReplaceCharAbsent(s: string, c: char, rep: string)
    requires c !in s
    ensures Replace(s, [c], rep) == s
    decreases |s|
  {
    if s != [] {
      assert s[..1] == [s[0]];
      ReplaceCharAbsent(s[1..], c, rep);
      assert [s[0]] + s[1..] == s;
    }
  }

  /** The characters of `Replace(s, [c], rep)` are those of `s` other than `c`,
      and those of `rep`. */
  lemma {:induction false} ReplaceCharChars(s: string, c: char, rep: string, x: char)
    requires x in Replace(s, [c], rep)
    ensures (x in s && x != c) || x in rep
    decreases |s|
  {
    if s != [] {
      assert s[..1] == [s[0]];
      if x !in rep && !(x == s[0] && x != c) {
        ReplaceCharChars(s[1..], c, rep, x);
      }
    }
  }

  /** No occurrence of `pat` can start inside `a`, whatever follows it. */
  predicate NoMatchStarts(a: string, pat: string)
    requires |pat| > 0
  {
    forall i :: 0 <= i < |a| ==> a[i] != pat[0] || (i + |pat| <= |a| && a[i..i + |pat|] != pat)
  }

  lemma NoMatchStartsTail(a: string, pat: string)
    requires |pat| > 0 && a != [] && NoMatchStarts(a, pat)
    ensures NoMatchStarts(a[1..], pat)
  {
    forall i | 0 <= i < |a[1..]| && a[1..][i] == pat[0]
      ensures i + |pat| <= |a[1..]| && a[1..][i..i + |pat|] != pat
    {
      assert a[i + 1] == pat[0];
      assert a[1..][i..i + |pat|] == a[i + 1..i + 1 + |pat|];
    }
  }

  lemma NoMatchStartsHead(a: string, b: string, pat: string)
    requires |pat| > 0 && a != [] && NoMatchStarts(a, pat)
    requires |a + b| >= |pat|
    ensures (a + b)[..|pat|] != pat
  {
    var s := a + b;
    if a[0] == pat[0] {
      assert s[..|pat|] == a[0..|pat|];
    } else {
      assert s[..|pat|][0] == a[0];
    }
  }

  /** A prefix `a` in which no occurrence of `pat` can start is copied unchanged. */
  lemma {:induction false} ReplaceSkip(a: string, b: string, pat: string, rep: string)
    requires |pat| > 0 && NoMatchStarts(a, pat)
    ensures Replace(a + b, pat, rep) == a + Replace(b, pat, rep)
    decreases |a|
  {
    if a == [] {
      assert a + b == b;
    } else {
      var s := a + b;
      if |s| < |pat| {
        assert Replace(b, pat, rep) == b;
      } else {
        NoMatchStartsHead(a, b, pat);
        assert Replace(s, pat, rep) == [a[0]] + Replace(s[1..], pat, rep);
        assert s[1..] == a[1..] + b;
        NoMatchStartsTail(a, pat);
        ReplaceSkip(a[1..], b, pat, rep);
        assert [a[0]] + a[1..] == a;
      }
    }
  }

  /** An occurrence at the front is replaced. */
  lemma ReplaceHit(pat: string, b: string, rep: string)
    requires |pat| > 0
    ensures Replace(pat + b, pat, rep) == rep + Replace(b, pat, rep)
  {
    assert (pat + b)[..|pat|] == pat;
    assert (pat + b)[|pat|..] == b;
  }

  /** A text in which the first character of `pat` never occurs is copied
      unchanged. */
  lemma ReplaceWithoutHead(s: string, pat: string, rep: string)
    requires |pat| > 0 && pat[0] !in s
    ensures Replace(s, pat, rep) == s
  {
    ReplaceSkip(s, [], pat, rep);
    assert s + [] == s;
  }

  /* ---------------------------------------------------------------------- */
  /* `pat in s` and `s.split(pat)[0]`                                        */
  /* ---------------------------------------------------------------------- */

  /** `pat in s` for strings. */
  predicate Contains(s: string, pat: string)
    decreases |s|
  {
    if |s| < |pat| then false
    else s[..|pat|] == pat || Contains(s[1..], pat)
  }

  lemma {:induction false} ContainsMiddle(a: string, pat: string, b: string)
    ensures Contains(a + pat + b, pat)
    decreases |a|
  {
    var s := a + pat + b;
    if a == [] {
      assert s[..|pat|] == pat;
    } else {
      assert s[1..] == a[1..] + pat + b;
      ContainsMiddle(a[1..], pat, b);
    }
  }

  /** `pat` occurs in `s` at position `i`. */
  predicate OccursAt(s: string, pat: string, i: nat)
  {
    i + |pat| <= |s| && s[i..i + |pat|] == pat
  }

  /** An occurrence one position further in `s` is an occurrence in its tail. */
  lemma OccursShift(s: string, pat: string, i: nat)
    requires s != []
    ensures OccursAt(s, pat, i + 1) <==> OccursAt(s[1..], pat, i)
  {
    if i + 1 + |pat| <= |s| {
      assert s[i + 1..i + 1 + |pat|] == s[1..][i..i + |pat|];
    }
  }

  /** `Contains` finds `pat` exactly when it occurs at some position. */
  lemma {:induction false} ContainsAt(s: string, pat: string)
    ensures Contains(s, pat) <==> exists i: nat :: OccursAt(s, pat, i)
    decreases |s|
  {
    if |s| >= |pat| && s == [] {
      assert OccursAt(s, pat, 0);
    } else if |s| >= |pat| {
      ContainsAt(s[1..], pat);
      if Contains(s[1..], pat) {
        var i: nat :| OccursAt(s[1..], pat, i);
        OccursShift(s, pat, i);
      } else if s[..|pat|] != pat && exists i: nat :: OccursAt(s, pat, i) {
        var i: nat :| OccursAt(s, pat, i);
        assert i > 0;
        OccursShift(s, pat, i - 1);
        assert false;
      } else if s[..|pat|] == pat {
        assert OccursAt(s, pat, 0);
      }
    }
  }

  /** A text without the first character of `pat` does not contain `pat`. */
  lemma {:induction false} ContainsNeedsHead(s: string, pat: string)
    requires |pat| > 0 && pat[0] !in s
    ensures !Contains(s, pat)
    decreases |s|
  {
    if |s| >= |pat| {
      assert s[..|pat|][0] == s[0];
      ContainsNeedsHead(s[1..], pat);
    }
  }

  /** `s.split(pat)[0]`: the text before the first occurrence of `pat`. */
  function BeforeFirst(s: string, pat: string): (r: string)
    requires |pat| > 0
    ensures r <= s
    ensures r == s || OccursAt(s, pat, |r|)
    ensures forall i: nat :: i < |r| ==> !OccursAt(s, pat, i)
    decreases |s|
  {
    if |s| < |pat| then s
    else if s[..|pat|] == pat then []
    else
      var t := BeforeFirst(s[1..], pat);
      forall i: nat | i < |t| + 1 ensures !OccursAt(s, pat, i) {
        if i > 0 {
          OccursShift(s, pat, i - 1);
        }
      }
      OccursShift(s, pat, |t|);
      assert t == s[1..] ==> [s[0]] + t == s;
      [s[0]] + t
  }

  lemma {:induction false} BeforeFirstAt(a: string, b: string, pat: string)
    requires |pat| > 0 && pat[0] !in a
    requires |b| >= |pat| && b[..|pat|] == pat
    ensures BeforeFirst(a + b, pat) == a
    decreases |a|
  {
    var s := a + b;
    if a == [] {
      assert s == b;
    } else {
      assert s[..|pat|][0] == a[0];
      assert s[1..] == a[1..] + b;
      BeforeFirstAt(a[1..], b, pat);
      assert [a[0]] + a[1..] == a;
    }
  }

  /* ---------------------------------------------------------------------- */
  /* str.strip                                                               */
  /* ---------------------------------------------------------------------- */

  /** The characters Python's `str.strip()` removes (`str.isspace`). */
  predicate IsSpace(c: char)
  {
    var n := c as int;
    (9 <= n <= 13) || (28 <= n <= 32) || n == 0x85 || n == 0xA0 || n == 0x1680
    || (0x2000 <= n <= 0x200A) || n == 0x2028 || n == 0x2029 || n == 0x202F
    || n == 0x205F || n == 0x3000
  }

  /** Neither end of `s` is whitespace, so `strip` leaves it alone. */
  predicate NoEdgeSpace(s: string)
  {
    s == [] || (!IsSpace(s[0]) && !IsSpace(s[|s| - 1]))
  }

  function StripStart(s: string): string
    decreases |s|
  {
    if s != [] && IsSpace(s[0]) then StripStart(s[1..]) else s
  }

  function StripEnd(s: string): string
    decreases |s|
  {
    if s != [] && IsSpace(s[|s| - 1]) then StripEnd(s[..|s| - 1]) else s
  }

  /** `s.strip()`. */
  function Strip(s: string): string
  {
    StripEnd(StripStart(s))
  }

  lemma StripPlain(s: string)
    requires NoEdgeSpace(s)
    ensures Strip(s) == s
  {
  }

  /** A line read with its terminator strips back to its text. */
  lemma StripLine(s: string)
    requires NoEdgeSpace(s)
    ensures Strip(s + "\n") == s
  {
    var t := s + "\n";
    if s == [] {
      assert StripStart(t) == StripStart(t[1..]);
      assert t[1..] == [];
    } else {
      assert StripStart(t) == t;
      assert t[..|t| - 1] == s;
      assert StripEnd(t) == StripEnd(s);
    }
  }

  /** Stripping the front of a concatenation: once the first part has
      something left, the second part is untouched. */
  lemma {:induction false} StripStartConcat(a: string, b: string)
    ensures StripStart(a) != [] ==> StripStart(a + b) == StripStart(a) + b
    ensures StripStart(a) == [] ==> StripStart(a + b) == StripStart(b)
    decreases |a|
  {
    if a == [] {
      assert a + b == b;
    } else if IsSpace(a[0]) {
      assert (a + b)[1..] == a[1..] + b;
      StripStartConcat(a[1..], b);
    }
  }

  /** Stripping the front only drops characters. */
  lemma {:induction false} StripStartWithin(s: string, c: char)
    requires c !in s
    ensures c !in StripStart(s)
    decreases |s|
  {
    if s != [] && IsSpace(s[0]) {
      StripStartWithin(s[1..], c);
    }
  }

  /** A trailing whitespace character changes nothing `strip` returns. */
  lemma StripTrailingSpace(s: string, c: char)
    requires IsSpace(c)
    ensures Strip(s + [c]) == Strip(s)
  {
    StripStartConcat(s, [c]);
    var t := StripStart(s);
    if t == [] {
      assert StripStart([c]) == StripStart([]);
    } else {
      assert (t + [c])[..|t|] == t;
    }
  }

  /** A header line `k + m + "\n"` whose marker `m` has no whitespace at
      either end strips to `k` less its leading whitespace, then `m`. */
  lemma StripHeader(k: string, m: string)
    requires m != [] && !IsSpace(m[0]) && !IsSpace(m[|m| - 1])
    ensures Strip(k + m + "\n") == StripStart(k) + m
  {
    StripTrailingSpace(k + m, '\n');
    StripStartConcat(k, m);
    if StripStart(k) == [] {
      assert StripStart(m) == m;
      assert StripStart(k) + m == m;
    }
    var t := StripStart(k) + m;
    assert t[|t| - 1] == m[|m| - 1];
  }

  /* ---------------------------------------------------------------------- */
  /* Iterating over the lines of a file opened in binary mode                */
  /* ---------------------------------------------------------------------- */

  /** A line break as the command protocol counts one: a CR or an LF ends
      a command line, which is why command data escapes both. */
  predicate HasBreak(s: string)
  {
    '\r' in s || '\n' in s
  }

  /** Length of the first line of `s`, its '\n' included. */
  function LineEnd(s: string): (n: nat)
    ensures n <= |s|
    ensures s != [] ==> n > 0
    decreases |s|
  {
    if s == [] then 0 else if s[0] == '\n' then 1 else 1 + LineEnd(s[1..])
  }

  /** The lines `for line in file` yields: each keeps its '\n'; the last one
      may lack it; an empty file has none. */
  function Lines(s: string): seq<string>
    decreases |s|
  {
    if s == [] then [] else [s[..LineEnd(s)]] + Lines(s[LineEnd(s)..])
  }

  lemma {:induction false} LineEndAt(x: string, rest: string)
    requires '\n' !in x
    ensures LineEnd(x + "\n" + rest) == |x| + 1
    decreases |x|
  {
    if x != [] {
      assert (x + "\n" + rest)[1..] == x[1..] + "\n" + rest;
      LineEndAt(x[1..], rest);
    }
  }

  lemma {:induction false} LineEndNoBreak(x: string)
    requires '\n' !in x
    ensures LineEnd(x) == |x|
    decreases |x|
  {
    if x != [] {
      LineEndNoBreak(x[1..]);
    }
  }

  /** A last line without its '\n' is still one line. */
  lemma LinesUnterminated(x: string)
    requires x != [] && '\n' !in x
    ensures Lines(x) == [x]
  {
    LineEndNoBreak(x);
    assert x[..|x|] == x && x[|x|..] == [];
    assert Lines(x) == [x[..LineEnd(x)]] + Lines(x[LineEnd(x)..]);
  }

  lemma LinesCons(x: string, rest: string)
    requires '\n' !in x
    ensures Lines(x + "\n" + rest) == [x + "\n"] + Lines(rest)
  {
    var s := x + "\n" + rest;
    LineEndAt(x, rest);
    assert s[..|x| + 1] == x + "\n";
    assert s[|x| + 1..] == rest;
  }

  /** Two newline-terminated lines, then the rest of the file. */
  lemma LinesTwoThen(y: string, z: string, r3: string)
    requires '\n' !in y && '\n' !in z
    ensures Lines(y + "\n" + (z + "\n" + r3)) == [y + "\n", z + "\n"] + Lines(r3)
  {
    LinesCons(z, r3);
    LinesCons(y, z + "\n" + r3);
  }

  /** Three newline-terminated lines, then the rest of the file. */
  lemma LinesThreeThen(x: string, y: string, z: string, rest: string)
    requires '\n' !in x && '\n' !in y && '\n' !in z
    ensures Lines(x + "\n" + y + "\n" + z + "\n" + rest) == [x + "\n", y + "\n", z + "\n"] + Lines(rest)
  {
    var r2 := y + "\n" + (z + "\n" + rest);
    LinesTwoThen(y, z, rest);
    LinesCons(x, r2);
    assert Lines(x + "\n" + r2) == [x + "\n"] + ([y + "\n", z + "\n"] + Lines(rest));
    assert x + "\n" + y + "\n" + z + "\n" + rest == x + "\n" + r2 by {
      assert x + "\n" + y + "\n" == x + "\n" + (y + "\n");
      assert x + "\n" + (y + "\n") + z + "\n" == x + "\n" + (y + "\n" + (z + "\n"));
    }
  }

  /** Three newline-terminated lines read back as those three lines. */
  lemma LinesThree(x: string, y: string, z: string)
    requires '\n' !in x && '\n' !in y && '\n' !in z
    ensures Lines(x + "\n" + y + "\n" + z + "\n") == [x + "\n", y + "\n", z + "\n"]
  {
    var r3 := z + "\n";
    var r2 := y + "\n" + r3;
    LinesCons(z, []);
    assert z + "\n" + [] == r3;
    LinesCons(y, r3);
    LinesCons(x, r2);
    assert x + "\n" + y + "\n" + z + "\n" == x + "\n" + r2;
  }

  /** A text with no line break is a single line. */
  lemma LinesWithoutBreak(s: string)
    requires s != [] && '\n' !in s
    ensures Lines(s) == [s]
  {
    LineEndWhole(s);
    assert s[..|s|] == s;
    assert s[|s|..] == [];
  }

  lemma {:induction false} LineEndWhole(s: string)
    requires '\n' !in s
    ensures LineEnd(s) == |s|
    decreases |s|
  {
    if s != [] {
      LineEndWhole(s[1..]);
    }
  }

  /** The first line of `a + b` lies in `a` when `a` ends with a line break. */
  lemma {:induction false} LineEndPrefix(a: string, b: string)
    requires a != [] && a[|a| - 1] == '\n'
    ensures LineEnd(a + b) == LineEnd(a)
    decreases |a|
  {
    if a[0] != '\n' {
      assert (a + b)[1..] == a[1..] + b;
      LineEndPrefix(a[1..], b);
    }
  }

  /** Appending to a text that is empty or ends with a line break adds the
      lines of the appended text after the existing ones. */
  lemma {:induction false} LinesAppend(a: string, b: string)
    requires a == [] || a[|a| - 1] == '\n'
    ensures Lines(a + b) == Lines(a) + Lines(b)
    decreases |a|
  {
    if a == [] {
      assert a + b == b;
    } else {
      var n := LineEnd(a);
      var ab := a + b;
      LineEndPrefix(a, b);
      assert ab[..n] == a[..n];
      assert ab[n..] == a[n..] + b;
      var tail := a[n..];
      assert tail == [] || tail[|tail| - 1] == '\n';
      LinesAppend(tail, b);
      calc {
        Lines(ab);
        [ab[..n]] + Lines(ab[n..]);
        [a[..n]] + Lines(tail + b);
        [a[..n]] + (Lines(tail) + Lines(b));
        ([a[..n]] + Lines(tail)) + Lines(b);
        Lines(a) + Lines(b);
      }
    }
  }

  /* ---------------------------------------------------------------------- */
  /* sep.join(parts) and s.split(sep)                                        */
  /* ---------------------------------------------------------------------- */

  /** `sep.join(parts)` for a one-character separator. */
  function Join(parts: seq<string>, sep: char): string
    decreases |parts|
  {
    if parts == [] then []
    else if |parts| == 1 then parts[0]
    else parts[0] + [sep] + Join(parts[1..], sep)
  }

  /** A character other than the separator occurs in a join only if it occurs
      in one of the parts. */
  lemma {:induction false} JoinAvoids(parts: seq<string>, sep: char, c: char)
    requires c != sep && forall i :: 0 <= i < |parts| ==> c !in parts[i]
    ensures c !in Join(parts, sep)
    decreases |parts|
  {
    if |parts| > 1 {
      JoinAvoids(parts[1..], sep, c);
    }
  }

  /** `s.split(sep)` for a one-character separator: never empty. */
  function Split(s: string, sep: char): (parts: seq<string>)
    ensures |parts| > 0
    decreases |s|
  {
    if s == [] then [[]]
    else if s[0] == sep then [[]] + Split(s[1..], sep)
    else var rest := Split(s[1..], sep); [[s[0]] + rest[0]] + rest[1..]
  }

  lemma {:induction false} SplitPlain(a: string, sep: char)
    requires sep !in a
    ensures Split(a, sep) == [a]
    decreases |a|
  {
    if a != [] {
      SplitPlain(a[1..], sep);
      assert [a[0]] + a[1..] == a;
    }
  }

  lemma {:induction false} SplitAtSep(a: string, b: string, sep: char)
    requires sep !in a
    ensures Split(a + [sep] + b, sep) == [a] + Split(b, sep)
    decreases |a|
  {
    var s := a + [sep] + b;
    if a == [] {
      assert s[1..] == b;
    } else {
      assert s[1..] == a[1..] + [sep] + b;
      SplitAtSep(a[1..], b, sep);
      assert [a[0]] + a[1..] == a;
    }
  }

  /** Splitting a join gives the parts back when no part holds the separator. */
  lemma {:induction false} SplitJoin(parts: seq<string>, sep: char)
    requires |parts| > 0
    requires forall i :: 0 <= i < |parts| ==> sep !in parts[i]
    ensures Split(Join(parts, sep), sep) == parts
    decreases |parts|
  {
    if |parts| == 1 {
      SplitPlain(parts[0], sep);
    } else {
      SplitJoin(parts[1..], sep);
      SplitAtSep(parts[0], Join(parts[1..], sep), sep);
      assert [parts[0]] + parts[1..] == parts;
    }
  }

  /** `s.partition(sep)` without the separator: the text before the first
      `sep` and the text after it (everything and nothing if absent). */
  function SplitFirst(s: string, sep: char): (string, string)
    decreases |s|
  {
    if s == [] then ([], [])
    else if s[0] == sep then ([], s[1..])
    else var (h, t) := SplitFirst(s[1..], sep); ([s[0]] + h, t)
  }

  lemma {:induction false} SplitFirstAt(a: string, b: string, sep: char)
    requires sep !in a
    ensures SplitFirst(a + [sep] + b, sep) == (a, b)
    decreases |a|
  {
    var s := a + [sep] + b;
    if a == [] {
      assert s[1..] == b;
    } else {
      assert s[1..] == a[1..] + [sep] + b;
      SplitFirstAt(a[1..], b, sep);
      assert [a[0]] + a[1..] == a;
    }
  }

  /* ---------------------------------------------------------------------- */
  /* ASCII letters and decimal numerals                                      */
  /* ---------------------------------------------------------------------- */

  predicate IsUpper(c: char) { 'A' <= c <= 'Z' }

  predicate IsLower(c: char) { 'a' <= c <= 'z' }

  predicate IsLetter(c: char) { IsUpper(c) || IsLower(c) }

  predicate IsDigit(c: char) { '0' <= c <= '9' }

  function ToLower(c: char): char
  {
    if IsUpper(c) then (c as int + 32) as char else c
  }

  function ToUpper(c: char): char
  {
    if IsLower(c) then (c as int - 32) as char else c
  }

  function DigitChar(d: nat): char
    requires d < 10
  {
    ('0' as int + d) as char
  }

  /** `str(n)` for a natural number. */
  function NatToString(n: nat): string
    decreases n
  {
    if n < 10 then [DigitChar(n)] else NatToString(n / 10) + [DigitChar(n % 10)]
  }

  /** `str(i)` for a Python int. */
  function IntToString(i: int): string
  {
    if i < 0 then "-" + NatToString(-i) else NatToString(i)
  }

  /** `str(n)` is made of decimal digits only. */
  lemma {:induction false} NatToStringDigits(n: nat)
    ensures forall i :: 0 <= i < |NatToString(n)| ==> IsDigit(NatToString(n)[i])
    decreases n
  {
    if n >= 10 {
      NatToStringDigits(n / 10);
    }
  }

  /** `str(i)` is made of decimal digits and a leading minus sign. */
  lemma IntToStringChars(i: int)
    ensures forall k :: 0 <= k < |IntToString(i)| ==> IsDigit(IntToString(i)[k]) || IntToString(i)[k] == '-'
  {
    if i < 0 {
      NatToStringDigits(-i);
    } else {
      NatToStringDigits(i);
    }
  }

  /* ---------------------------------------------------------------------- */
  /* Reading a decimal numeral back                                          */
  /* ---------------------------------------------------------------------- */

  predicate AllDigits(d: string)
  {
    forall k :: 0 <= k < |d| ==> IsDigit(d[k])
  }

  /** A numeral as `str` writes a natural number: digits, and no leading
      zero unless the numeral is "0" itself. */
  predicate IsNumeral(d: string)
  {
    d != [] && AllDigits(d) && (d[0] == '0' ==> |d| == 1)
  }

  /** The form `str` gives an int: a numeral, after a '-' when negative;
      there is no "-0". */
  predicate IsDecimal(s: string)
  {
    if s != [] && s[0] == '-' then IsNumeral(s[1..]) && s[1..] != "0" else IsNumeral(s)
  }

  function DigitValue(c: char): int
  {
    c as int - '0' as int
  }

  /** The value of a string of decimal digits, read left to right. */
  function NumeralValue(d: string): int
    decreases |d|
  {
    if d == [] then 0 else 10 * NumeralValue(d[..|d| - 1]) + DigitValue(d[|d| - 1])
  }

  /** `int(s)` for a decimal numeral with an optional leading '-'. */
  function DecimalValue(s: string): int
  {
    if s != [] && s[0] == '-' then -NumeralValue(s[1..]) else NumeralValue(s)
  }

  /** `str(n)` is a numeral, and it reads back as `n`. */
  lemma {:induction false} NatToStringNumeral(n: nat)
    ensures IsNumeral(NatToString(n)) && NumeralValue(NatToString(n)) == n
    decreases n
  {
    var s := NatToString(n);
    if n < 10 {
      assert s[..|s| - 1] == [];
    } else {
      var p := NatToString(n / 10);
      NatToStringNumeral(n / 10);
      assert s == p + [DigitChar(n % 10)];
      assert s[..|s| - 1] == p;
      assert s[0] == p[0];
      assert |p| == 1 ==> p == [p[0]];
    }
  }

  /** `str(i)` has the form of a Python int, and `int` reads it back as `i`. */
  lemma IntToStringDecimal(i: int)
    ensures IsDecimal(IntToString(i)) && DecimalValue(IntToString(i)) == i
  {
    var s := IntToString(i);
    if i < 0 {
      NatToStringNumeral(-i);
      assert s[1..] == NatToString(-i);
    } else {
      NatToStringNumeral(i);
      assert IsDigit(s[0]);
    }
  }

  /** A numeral with a first digit other than '0' is worth at least one. */
  lemma {:induction false} NumeralPositive(d: string)
    requires d != [] && AllDigits(d) && d[0] != '0'
    ensures NumeralValue(d) > 0
    decreases |d|
  {
    var p := d[..|d| - 1];
    if p != [] {
      assert p[0] == d[0];
      NumeralPositive(p);
    }
  }

  /** A numeral is what `str` writes for its value. */
  lemma {:induction false} NumeralToString(d: string)
    requires IsNumeral(d)
    ensures NumeralValue(d) >= 0 && NatToString(NumeralValue(d)) == d
    decreases |d|
  {
    var p, c := d[..|d| - 1], d[|d| - 1];
    assert IsDigit(c);
    assert DigitChar(DigitValue(c)) == c;
    if p == [] {
      assert d == [c];
    } else {
      assert p[0] == d[0] && d[0] != '0';
      assert IsNumeral(p);
      NumeralPositive(p);
      NumeralToString(p);
      var m := NumeralValue(p);
      var n := 10 * m + DigitValue(c);
      assert n / 10 == m && n % 10 == DigitValue(c);
      assert NatToString(n) == NatToString(m) + [DigitChar(DigitValue(c))];
      assert p + [c] == d;
    }
  }

  /** Every string in the form of a Python int is what `str` writes for the
      value `int` reads from it: the two are inverse on that form. */
  lemma DecimalToString(s: string)
    requires IsDecimal(s)
    ensures IntToString(DecimalValue(s)) == s
  {
    if s != [] && s[0] == '-' {
      var d := s[1..];
      NumeralToString(d);
      assert |d| == 1 ==> d == [d[0]];
      NumeralPositive(d);
      assert s == "-" + d;
    } else {
      NumeralToString(s);
    }
  }
}
