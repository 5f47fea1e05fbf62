/** Python string operations on sequences of code points. */
module Text {
  import opened Base

  predicate StartsWith(s: string, prefix: string) {
    |prefix| <= |s| && s[..|prefix|] == prefix
  }

  predicate EndsWith(s: string, suffix: string) {
    |suffix| <= |s| && s[|s| - |suffix|..] == suffix
  }

  /** `needle in s`, for a non-empty needle. */
  predicate Contains(s: string, needle: string)
    requires needle != ""
  {
    s != "" && (StartsWith(s, needle) || Contains(s[1..], needle))
  }

  /** `s.replace(old, new)`: left to right, without overlaps. */
  function Replace(s: string, needle: string, replacement: string): string
    requires needle != ""
  {
    if s == "" then ""
    else if StartsWith(s, needle) then replacement + Replace(s[|needle|..], needle, replacement)
    else [s[0]] + Replace(s[1..], needle, replacement)
  }

  lemma DiffersAt(s: string, prefix: string, k: nat)
    requires k < |prefix| && k < |s| && s[k] != prefix[k]
    ensures !StartsWith(s, prefix)
  {
    assert |prefix| <= |s| ==> s[..|prefix|][k] == s[k];
  }

  lemma ReplaceCharHead(c: char, s: string, needle: char, replacement: string)
    ensures Replace([c] + s, [needle], replacement) ==
            (if c == needle then replacement else [c]) + Replace(s, [needle], replacement)
  {
    assert ([c] + s)[1..] == s;
    assert ([c] + s)[..1] == [c];
  }

  lemma {:induction false} ReplaceCharAppend(s: string, t: string, needle: char, replacement: string)
    ensures Replace(s + t, [needle], replacement) ==
            Replace(s, [needle], replacement) + Replace(t, [needle], replacement)
  {
    if s == "" {
      assert s + t == t;
    } else {
      assert s == [s[0]] + s[1..];
      assert s + t == [s[0]] + (s[1..] + t);
      ReplaceCharHead(s[0], s[1..], needle, replacement);
      ReplaceCharHead(s[0], s[1..] + t, needle, replacement);
      ReplaceCharAppend(s[1..], t, needle, replacement);
    }
  }

  lemma Unreplaced(s: string, needle: char, replacement: string)
    requires needle !in s
    ensures Replace(s, [needle], replacement) == s
  {
    if s != "" {
      assert s == [s[0]] + s[1..];
      ReplaceCharHead(s[0], s[1..], needle, replacement);
      Unreplaced(s[1..], needle, replacement);
    }
  }

  /** `"\n".join(lines)`. */
  function JoinLines(lines: seq<string>): string {
    if lines == [] then "" else if |lines| == 1 then lines[0] else lines[0] + "\n" + JoinLines(lines[1..])
  }

  /** `s.split(sep)`. */
  function Split(s: string, sep: char): (parts: seq<string>)
    ensures parts != []
  {
    if s == "" then [""]
    else
      var rest := Split(s[1..], sep);
      if s[0] == sep then [""] + rest else [[s[0]] + rest[0]] + rest[1..]
  }

  function Newlines(s: string): nat {
    if s == "" then 0 else (if s[0] == '\n' then 1 else 0) + Newlines(s[1..])
  }

  lemma {:induction false} NewlinesAppend(s: string, t: string)
    ensures Newlines(s + t) == Newlines(s) + Newlines(t)
  {
    if s == "" {
      assert s + t == t;
    } else {
      NewlinesAppend(s[1..], t);
      assert (s + t)[1..] == s[1..] + t;
    }
  }

  lemma {:induction false} NoNewlines(s: string)
    ensures Newlines(s) == 0 <==> '\n' !in s
  {
    if s != "" { NoNewlines(s[1..]); }
  }

  lemma {:induction false} SplitCount(s: string)
    ensures |Split(s, '\n')| == Newlines(s) + 1
  {
    if s != "" { SplitCount(s[1..]); }
  }

  lemma {:induction false} SplitFirst(line: string, s: string)
    requires '\n' !in line
    ensures Split(line, '\n') == [line]
    ensures Split(line + "\n" + s, '\n') == [line] + Split(s, '\n')
  {
    if line == "" {
      assert line + "\n" + s == "\n" + s;
      assert ("\n" + s)[1..] == s;
    } else {
      SplitFirst(line[1..], s);
      assert (line + "\n" + s)[1..] == line[1..] + "\n" + s;
      assert line == [line[0]] + line[1..];
    }
  }

  /** Splitting undoes joining exactly when no line holds a newline of its own; otherwise it yields
      more lines than were joined. */
  lemma {:induction false} SplitJoin(lines: seq<string>)
    requires lines != []
    ensures |Split(JoinLines(lines), '\n')| >= |lines|
    ensures (forall l :: l in lines ==> '\n' !in l) <==> |Split(JoinLines(lines), '\n')| == |lines|
    ensures (forall l :: l in lines ==> '\n' !in l) ==> Split(JoinLines(lines), '\n') == lines
  {
    SplitCount(JoinLines(lines));
    NoNewlines(lines[0]);
    if |lines| == 1 {
      assert lines == [lines[0]];
      if '\n' !in lines[0] { SplitFirst(lines[0], ""); }
    } else {
      var rest := lines[1..];
      SplitJoin(rest);
      SplitCount(JoinLines(rest));
      NewlinesAppend(lines[0] + "\n", JoinLines(rest));
      NewlinesAppend(lines[0], "\n");
      assert lines == [lines[0]] + rest;
      if '\n' !in lines[0] { SplitFirst(lines[0], JoinLines(rest)); }
    }
  }

  /** The longest prefix of `s` whose characters can occur in a printed integer. */
  function IntPrefix(s: string): (n: nat)
    ensures n <= |s|
    ensures forall i :: 0 <= i < n ==> s[i] in "-0123456789"
    ensures n < |s| ==> s[n] !in "-0123456789"
  {
    if s == "" || s[0] !in "-0123456789" then 0 else 1 + IntPrefix(s[1..])
  }

  function ParseInt(s: string): int {
    if s != "" && s[0] == '-' then -(DigitsValue(s[1..]) as int) else DigitsValue(s)
  }

  lemma DecimalRoundTrip(n: int)
    ensures ParseInt(Decimal(n)) == n
    ensures Decimal(n) != "" && forall i :: 0 <= i < |Decimal(n)| ==> Decimal(n)[i] in "-0123456789"
  {
    DigitsRoundTrip(if n < 0 then -n else n);
    var d := Digits(if n < 0 then -n else n);
    forall i | 0 <= i < |d| ensures d[i] in "0123456789" && d[i] != '-' {
      DigitListed(d[i]);
    }
    if n < 0 { assert Decimal(n)[1..] == d; }
  }

  lemma DigitListed(c: char)
    requires '0' <= c <= '9'
    ensures c in "0123456789"
  {
    var k := c as int - '0' as int;
    assert "0123456789"[k] == c;
  }

  /** A printed integer followed by anything that cannot continue it is read back whole. */
  lemma {:induction false} IntPrefixOfDecimal(digits: string, rest: string)
    requires forall i :: 0 <= i < |digits| ==> digits[i] in "-0123456789"
    requires rest == "" || rest[0] !in "-0123456789"
    ensures IntPrefix(digits + rest) == |digits|
  {
    if digits == "" {
      assert digits + rest == rest;
    } else {
      IntPrefixOfDecimal(digits[1..], rest);
      assert (digits + rest)[1..] == digits[1..] + rest;
    }
  }
}
