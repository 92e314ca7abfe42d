/** Small value types and string helpers shared by the generator models:
    Option/Result, ASCII character classes, Python-style strip, split/join on
    one separator character, and substring search. */
module Common {

  datatype Option<+T> = None | Some(value: T)

  datatype Result<+T, +E> = Success(value: T) | Failure(error: E)

  function Min(a: int, b: int): int { if a <= b then a else b }

  // ---------------------------------------------------------------------------
  // Character classes (ASCII only)

  predicate IsDigit(c: char) { '0' <= c <= '9' }

  predicate IsLowerAlnum(c: char) { 'a' <= c <= 'z' || IsDigit(c) }

  predicate IsUpper(c: char) { 'A' <= c <= 'Z' }

  /** What Python's str.isspace accepts in the ASCII range: tab, line feed,
      vertical tab, form feed, carriage return, the four information
      separators 0x1C-0x1F, and space. */
  predicate IsSpace(c: char) {
    c == ' ' || (9 <= c as int <= 13) || (28 <= c as int <= 31)
  }

  predicate IsDigits(s: string) {
    |s| > 0 && forall i :: 0 <= i < |s| ==> IsDigit(s[i])
  }

  // ---------------------------------------------------------------------------
  // str.strip()

  /** Number of leading whitespace characters. */
  function LeadingSpaces(s: string): (k: nat)
    ensures k <= |s|
    ensures forall i :: 0 <= i < k ==> IsSpace(s[i])
    ensures k < |s| ==> !IsSpace(s[k])
  {
    if |s| == 0 || !IsSpace(s[0]) then 0 else 1 + LeadingSpaces(s[1..])
  }

  /** Index at which the trailing run of whitespace starts. */
  function TrailingStart(s: string): (k: nat)
    ensures k <= |s|
    ensures forall i :: k <= i < |s| ==> IsSpace(s[i])
    ensures k > 0 ==> !IsSpace(s[k - 1])
  {
    if |s| == 0 || !IsSpace(s[|s| - 1]) then |s| else TrailingStart(s[..|s| - 1])
  }

  /** Python's str.strip() with no argument, on ASCII whitespace: the slice
      between the leading and the trailing whitespace runs. */
  function Strip(s: string): (r: string)
    ensures |r| <= |s|
  {
    var a := LeadingSpaces(s);
    if a == |s| then []
    else
      assert !IsSpace(s[a]);
      s[a..TrailingStart(s)]
  }

  /** The stripped string is the slice of `s` left after dropping the leading
      and the trailing whitespace runs; it neither starts nor ends with
      whitespace, and it is empty exactly when `s` is all whitespace. */
  lemma StripSpec(s: string)
    ensures |Strip(s)| <= |s|
    ensures var a, r := LeadingSpaces(s), Strip(s);
      a + |r| <= |s| && r == s[a..a + |r|] &&
      forall i :: a + |r| <= i < |s| ==> IsSpace(s[i])
    ensures Strip(s) != [] ==> !IsSpace(Strip(s)[0]) && !IsSpace(Strip(s)[|Strip(s)| - 1])
    ensures Strip(s) == [] <==> forall i :: 0 <= i < |s| ==> IsSpace(s[i])
  {
    StripShape(s);
    StripEmptyIff(s);
  }

  lemma StripShape(s: string)
    ensures var a, r := LeadingSpaces(s), Strip(s);
      a + |r| <= |s| && r == s[a..a + |r|] &&
      forall i :: a + |r| <= i < |s| ==> IsSpace(s[i])
    ensures Strip(s) != [] ==> !IsSpace(Strip(s)[0]) && !IsSpace(Strip(s)[|Strip(s)| - 1])
  {
    var a := LeadingSpaces(s);
    if a < |s| {
      StripCut(s);
      var e := TrailingStart(s);
      assert a + |Strip(s)| == e;
    }
  }

  /** When `s` is not all whitespace, Strip is the slice from the first to
      just past the last non-whitespace character. */
  lemma StripCut(s: string)
    requires LeadingSpaces(s) < |s|
    ensures LeadingSpaces(s) < TrailingStart(s)
    ensures Strip(s) == s[LeadingSpaces(s)..TrailingStart(s)]
    ensures Strip(s)[0] == s[LeadingSpaces(s)] && Strip(s)[|Strip(s)| - 1] == s[TrailingStart(s) - 1]
  {
    var a := LeadingSpaces(s);
    assert !IsSpace(s[a]);
  }

  lemma StripEmptyIff(s: string)
    ensures Strip(s) == [] <==> forall i :: 0 <= i < |s| ==> IsSpace(s[i])
  {
    var a := LeadingSpaces(s);
    if a < |s| {
      assert !IsSpace(s[a]);
      assert a < TrailingStart(s);
    }
  }

  lemma StripKeepsTrimmed(s: string)
    requires s != [] && !IsSpace(s[0]) && !IsSpace(s[|s| - 1])
    ensures Strip(s) == s
  {
    StripSpec(s);
    assert LeadingSpaces(s) == 0;
    assert s[0..] == s;
  }

  /** Strip removes exactly the whitespace padding around a trimmed core. */
  lemma StripPadded(pre: string, core: string, post: string)
    requires forall i :: 0 <= i < |pre| ==> IsSpace(pre[i])
    requires forall i :: 0 <= i < |post| ==> IsSpace(post[i])
    requires core != [] && !IsSpace(core[0]) && !IsSpace(core[|core| - 1])
    ensures Strip(pre + core + post) == core
  {
    var s := pre + core + post;
    StripSpec(s);
    var a := LeadingSpaces(s);
    assert s[|pre|] == core[0];
    assert a == |pre|;
    var r := Strip(s);
    assert s[|pre| + |core| - 1] == core[|core| - 1];
    assert r != [];
    assert r[|r| - 1] == s[a + |r| - 1];
    assert |r| == |core|;
    assert r == s[|pre|..|pre| + |core|];
  }

  // ---------------------------------------------------------------------------
  // str.split(sep) / strings.Split(s, sep) and the matching join

  /** Split on every occurrence of `sep`, keeping empty fields, exactly as
      Python's str.split(sep) and Go's strings.Split do for a one-character
      separator: the empty string gives [""]. */
  function Split(s: string, sep: char): (fields: seq<string>)
    ensures |fields| >= 1
    ensures forall i :: 0 <= i < |fields| ==> sep !in fields[i]
    decreases |s|
  {
    if |s| == 0 then [""]
    else
      var rest := Split(s[1..], sep);
      if s[0] == sep then [""] + rest
      else [[s[0]] + rest[0]] + rest[1..]
  }

  function Join(fields: seq<string>, sep: char): string
    requires |fields| >= 1
    decreases |fields|
  {
    if |fields| == 1 then fields[0] else fields[0] + [sep] + Join(fields[1..], sep)
  }

  /** Joining the fields back with the separator gives the original string. */
  lemma {:induction false} JoinSplit(s: string, sep: char)
    ensures Join(Split(s, sep), sep) == s
    decreases |s|
  {
    if |s| > 0 {
      var rest := Split(s[1..], sep);
      JoinSplit(s[1..], sep);
      if s[0] == sep {
        assert Split(s, sep)[1..] == rest;
      } else {
        var f := Split(s, sep);
        assert f[1..] == rest[1..];
        if |rest| == 1 {
          assert f == [[s[0]] + rest[0]];
        } else {
          assert Join(rest, sep) == rest[0] + [sep] + Join(rest[1..], sep);
        }
        assert s == [s[0]] + s[1..];
      }
    }
  }

  /** A field free of the separator splits to itself. */
  lemma {:induction false} SplitField(a: string, sep: char)
    requires sep !in a
    ensures Split(a, sep) == [a]
    decreases |a|
  {
    if |a| > 0 {
      assert sep !in a[1..];
      SplitField(a[1..], sep);
      assert [a[0]] + a[1..] == a;
    }
  }

  lemma {:induction false} SplitFieldThenSep(a: string, rest: string, sep: char)
    requires sep !in a
    ensures Split(a + [sep] + rest, sep) == [a] + Split(rest, sep)
    decreases |a|
  {
    var s := a + [sep] + rest;
    if |a| == 0 {
      assert s[1..] == rest;
    } else {
      assert s[1..] == a[1..] + [sep] + rest;
      assert sep !in a[1..];
      SplitFieldThenSep(a[1..], rest, sep);
      assert [a[0]] + a[1..] == a;
    }
  }

  /** Splitting a join of separator-free fields gives those fields back. */
  lemma {:induction false} SplitJoin(fields: seq<string>, sep: char)
    requires |fields| >= 1
    requires forall i :: 0 <= i < |fields| ==> sep !in fields[i]
    ensures Split(Join(fields, sep), sep) == fields
    decreases |fields|
  {
    if |fields| == 1 {
      SplitField(fields[0], sep);
    } else {
      SplitJoin(fields[1..], sep);
      SplitFieldThenSep(fields[0], Join(fields[1..], sep), sep);
      assert fields == [fields[0]] + fields[1..];
    }
  }

  // ---------------------------------------------------------------------------
  // Substring search, as the shell's glob test and Python's `in` do it

  predicate Contains(s: string, t: string)
    decreases |s|
  {
    t <= s || (|s| > 0 && Contains(s[1..], t))
  }

  /** A string containing `t` contains every prefix of `t`. */
  lemma {:induction false} ContainsPrefix(s: string, t: string, p: string)
    requires p <= t && Contains(s, t)
    ensures Contains(s, p)
    decreases |s|
  {
    if !(t <= s) {
      ContainsPrefix(s[1..], t, p);
    }
  }

  // ---------------------------------------------------------------------------
  // Environment lookup

  /** Python's os.getenv(key, fallback) and os.environ.get(key, fallback):
      the fallback is used only when the variable is unset; a variable set
      to the empty string reads as "". */
  function EnvironGet(env: map<string, string>, key: string, fallback: string): string {
    if key in env then env[key] else fallback
  }
}
