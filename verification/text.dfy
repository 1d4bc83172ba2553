/** The pieces of Python's string and text-file behaviour that both programs
    rely on: `str.strip()`, the substring test `p in s`, `readline()` and
    `readlines()` on a text file, and the zero-padded decimal fields that
    `strftime` and `logging` print. Text is `seq<char>`, after the newline
    translation of text mode. */
module Text {

  /** Python's `str.isspace()` for one character: what `str.strip()` removes. */
  predicate IsSpace(c: char) {
    || c == ' '
    || ('\t' <= c <= '\r')
    || ('\U{1C}' <= c <= '\U{1F}')
    || c == '\U{85}' || c == '\U{A0}' || c == '\U{1680}'
    || ('\U{2000}' <= c <= '\U{200A}')
    || c == '\U{2028}' || c == '\U{2029}' || c == '\U{202F}'
    || c == '\U{205F}' || c == '\U{3000}'
  }

  /** Number of whitespace characters at the front of `s`. */
  function LeadingSpaces(s: string): (k: nat)
    ensures k <= |s|
    ensures forall i :: 0 <= i < k ==> IsSpace(s[i])
    ensures k < |s| ==> !IsSpace(s[k])
  {
    if |s| > 0 && IsSpace(s[0]) then 1 + LeadingSpaces(s[1..]) else 0
  }

  /** Number of whitespace characters at the back of `s`. */
  function TrailingSpaces(s: string): (k: nat)
    ensures k <= |s|
    ensures forall i :: |s| - k <= i < |s| ==> IsSpace(s[i])
    ensures k < |s| ==> !IsSpace(s[|s| - 1 - k])
  {
    if |s| > 0 && IsSpace(s[|s| - 1]) then 1 + TrailingSpaces(s[..|s| - 1]) else 0
  }

  /** Python's `s.strip()`: the slice of `s` left after dropping the
      whitespace at both ends; it is empty or starts and ends with a
      non-space, and everything dropped is whitespace. */
  function Strip(s: string): (r: string)
    ensures LeadingSpaces(s) + |r| <= |s|
    ensures r == s[LeadingSpaces(s)..LeadingSpaces(s) + |r|]
    ensures forall i :: LeadingSpaces(s) + |r| <= i < |s| ==> IsSpace(s[i])
    ensures r == [] || (!IsSpace(r[0]) && !IsSpace(r[|r| - 1]))
  {
    var t := s[LeadingSpaces(s)..];
    t[..|t| - TrailingSpaces(t)]
  }

  /** A line whose ends are not whitespace survives `strip()` of itself
      followed by its newline. */
  lemma StripLine(e: string)
    requires |e| > 0 && !IsSpace(e[0]) && !IsSpace(e[|e| - 1])
    ensures Strip(e + "\n") == e
  {
    var s := e + "\n";
    assert s[0] == e[0];
    assert LeadingSpaces(s) == 0;
    assert s[..|s| - 1] == e;
    assert TrailingSpaces(s) == 1 + TrailingSpaces(e);
    assert TrailingSpaces(e) == 0;
  }

  /** `p` occurs in `s` starting at index `i`. */
  predicate OccursAt(p: string, s: string, i: int) {
    0 <= i && i + |p| <= |s| && s[i..i + |p|] == p
  }

  /** Python's case-sensitive substring test `p in s`. */
  function Contains(p: string, s: string): (b: bool)
    ensures b <==> exists i :: OccursAt(p, s, i)
    decreases |s|
  {
    if |p| > |s| then false
    else if s[..|p|] == p then assert OccursAt(p, s, 0); true
    else ContainsShift(p, s); Contains(p, s[1..])
  }

  /** When `p` is not a prefix of `s`, its occurrences in `s` are those in `s[1..]`. */
  lemma ContainsShift(p: string, s: string)
    requires |p| <= |s| && s[..|p|] != p
    ensures (exists i :: OccursAt(p, s, i)) <==> (exists i :: OccursAt(p, s[1..], i))
  {
    if i :| OccursAt(p, s, i) {
      assert s[0..|p|] == s[..|p|];
      assert i != 0;
      assert s[1..][i - 1..i - 1 + |p|] == s[i..i + |p|];
      assert OccursAt(p, s[1..], i - 1);
    }
    if i :| OccursAt(p, s[1..], i) {
      assert s[i + 1..i + 1 + |p|] == s[1..][i..i + |p|];
      assert OccursAt(p, s, i + 1);
    }
  }

  /** A text whose characters never start `p` cannot hold an occurrence of
      `p`, so putting it in front of `b` does not change whether `p` occurs. */
  lemma ContainsAfterPrefix(p: string, a: string, b: string)
    requires |p| > 0 && p[0] !in a
    ensures Contains(p, a + b) == Contains(p, b)
  {
    if i :| OccursAt(p, a + b, i) {
      assert (a + b)[i..i + |p|][0] == p[0];
      assert (a + b)[i] == p[0];
      assert i >= |a|;
      assert (a + b)[i..i + |p|] == b[i - |a|..i - |a| + |p|];
      assert OccursAt(p, b, i - |a|);
    }
    if i :| OccursAt(p, b, i) {
      assert (a + b)[i + |a|..i + |a| + |p|] == b[i..i + |p|];
      assert OccursAt(p, a + b, i + |a|);
    }
  }

  /** A text that does not hold the first character of `p` does not contain `p`. */
  lemma NotContainsWithoutHead(p: string, s: string)
    requires |p| > 0 && p[0] !in s
    ensures !Contains(p, s)
  {
    ContainsAfterPrefix(p, s, []);
    assert s + [] == s;
  }

  /** Joins a list of strings, as `''.join(ls)`. */
  function Concat(ls: seq<string>): string {
    if ls == [] then [] else ls[0] + Concat(ls[1..])
  }

  lemma ConcatAppend(a: seq<string>, b: seq<string>)
    ensures Concat(a + b) == Concat(a) + Concat(b)
  {
    if a != [] {
      assert (a + b)[1..] == a[1..] + b;
    } else {
      assert a + b == b;
    }
  }

  /** Python's `readline()` on a text file holding `s`: everything up to and
      including the first newline, or all of `s` when it has none. */
  function FirstLine(s: string): (r: string)
    ensures |r| <= |s| && (s != [] ==> |r| > 0)
  {
    if s == [] then []
    else if s[0] == '\n' then [s[0]]
    else [s[0]] + FirstLine(s[1..])
  }

  /** The first line is a prefix with no newline before its end, and it
      is the whole text or ends in a newline. */
  lemma {:induction false} FirstLineShape(s: string)
    ensures var r := FirstLine(s);
      && r <= s
      && (forall i :: 0 <= i < |r| - 1 ==> r[i] != '\n')
      && (r == s || (|r| > 0 && r[|r| - 1] == '\n'))
  {
    if s != [] && s[0] != '\n' {
      FirstLineShape(s[1..]);
      var r := FirstLine(s);
      var t := FirstLine(s[1..]);
      assert r == [s[0]] + t;
      forall i | 0 <= i < |r| - 1
        ensures r[i] != '\n'
      {
        if i > 0 {
          assert r[i] == t[i - 1];
        }
      }
    }
  }

  /** Python's `readlines()` on a text file holding `s` (its shape is
      stated by `LinesShape`, and joining the lines gives back `s`: see
      `LinesJoin`). */
  function Lines(s: string): (ls: seq<string>)
    ensures s == [] <==> ls == []
    decreases |s|
  {
    if s == [] then []
    else
      var l := FirstLine(s);
      [l] + Lines(s[|l|..])
  }

  /** No line `readlines()` returns is empty, only the last may lack its
      newline, and no line holds a newline before its end. */
  lemma {:induction false} LinesShape(s: string)
    ensures var ls := Lines(s);
      && (forall k :: 0 <= k < |ls| ==> ls[k] != [])
      && (forall k :: 0 <= k < |ls| - 1 ==> ls[k][|ls[k]| - 1] == '\n')
      && (forall k, i :: 0 <= k < |ls| && 0 <= i < |ls[k]| - 1 ==> ls[k][i] != '\n')
    decreases |s|
  {
    if s != [] {
      var l := FirstLine(s);
      var rest := s[|l|..];
      FirstLineShape(s);
      LinesShape(rest);
      LinesUnfold(s);
      var ls := Lines(s);
      assert ls[0] == l && ls[1..] == Lines(rest);
      if |ls| > 1 {
        assert rest != [];
        assert l != s;
      }
      forall k | 1 <= k < |ls|
        ensures ls[k] == Lines(rest)[k - 1]
      {
      }
    }
  }

  /** Joining the lines `readlines()` returns gives back the whole text. */
  lemma {:induction false} LinesJoin(s: string)
    ensures Concat(Lines(s)) == s
    decreases |s|
  {
    if s != [] {
      var l := FirstLine(s);
      FirstLineShape(s);
      LinesJoin(s[|l|..]);
      LinesUnfold(s);
      assert ([l] + Lines(s[|l|..]))[1..] == Lines(s[|l|..]);
      assert s == l + s[|l|..];
    }
  }

  /** `readlines()` of a non-empty text: its first line, then the lines of the rest. */
  lemma LinesUnfold(s: string)
    requires s != []
    ensures Lines(s) == [FirstLine(s)] + Lines(s[|FirstLine(s)|..])
  {
  }

  /** Extending a text does not change a first line that is already complete. */
  lemma {:induction false} FirstLineExtend(s: string, x: string)
    requires |FirstLine(s)| > 0 && FirstLine(s)[|FirstLine(s)| - 1] == '\n'
    ensures FirstLine(s + x) == FirstLine(s)
    decreases |s|
  {
    if s[0] != '\n' {
      assert (s + x)[1..] == s[1..] + x;
      FirstLineExtend(s[1..], x);
    }
  }

  /** A newline-free text followed by a newline is one whole line. */
  lemma {:induction false} FirstLineOfLine(e: string)
    requires '\n' !in e
    ensures FirstLine(e + "\n") == e + "\n"
    decreases |e|
  {
    if e != [] {
      assert (e + "\n")[1..] == e[1..] + "\n";
      FirstLineOfLine(e[1..]);
    }
  }

  /** A newline-free text followed by a newline reads back as that one line. */
  lemma LinesOfLine(e: string)
    requires '\n' !in e
    ensures Lines(e + "\n") == [e + "\n"]
  {
    var line := e + "\n";
    FirstLineOfLine(e);
    LinesUnfold(line);
    assert line[|line|..] == [];
  }

  /** Appending one complete line to a text made of complete lines adds
      exactly that line to the end of `readlines()`. */
  lemma {:induction false} LinesAppendLine(prev: string, e: string)
    requires prev == [] || prev[|prev| - 1] == '\n'
    requires '\n' !in e
    ensures Lines(prev + (e + "\n")) == Lines(prev) + [e + "\n"]
    decreases |prev|
  {
    if prev == [] {
      LinesOfLine(e);
      assert prev + (e + "\n") == e + "\n";
    } else {
      var line := e + "\n";
      CompleteFirstLine(prev);
      var l := FirstLine(prev);
      var rest := prev[|l|..];
      LinesAppendLine(rest, e);
      LinesAfterFirst(prev, line);
      LinesUnfold(prev);
      ConsSnoc(l, Lines(rest), line);
    }
  }

  /** A text that starts with a whole line keeps that line first whatever
      follows, and the rest is read on with what follows. */
  lemma LinesAfterFirst(prev: string, line: string)
    requires prev != [] && FirstLine(prev) <= prev
    requires |FirstLine(prev)| > 0 && FirstLine(prev)[|FirstLine(prev)| - 1] == '\n'
    ensures Lines(prev + line) == [FirstLine(prev)] + Lines(prev[|FirstLine(prev)|..] + line)
  {
    LinesUnfold(prev + line);
    FirstLineExtend(prev, line);
    AfterPrefix(prev, FirstLine(prev), line);
  }

  lemma ConsSnoc(a: string, xs: seq<string>, b: string)
    ensures [a] + (xs + [b]) == ([a] + xs) + [b]
  {
  }

  /** In a text of whole lines the first line is whole, and so is the rest. */
  lemma CompleteFirstLine(s: string)
    requires s != [] && s[|s| - 1] == '\n'
    ensures FirstLine(s) <= s
    ensures |FirstLine(s)| > 0 && FirstLine(s)[|FirstLine(s)| - 1] == '\n'
    ensures var rest := s[|FirstLine(s)|..]; rest == [] || rest[|rest| - 1] == '\n'
  {
    FirstLineShape(s);
  }

  lemma AfterPrefix(s: string, p: string, x: string)
    requires p <= s
    ensures (s + x)[|p|..] == s[|p|..] + x
  {
  }

  predicate IsDigit(c: char) {
    '0' <= c <= '9'
  }

  function Pow10(n: nat): (p: nat)
    ensures p >= 1
  {
    if n == 0 then 1 else 10 * Pow10(n - 1)
  }

  function DigitChar(d: nat): (c: char)
    requires d < 10
    ensures IsDigit(c)
  {
    ('0' as int + d) as char
  }

  /** The number a string of decimal digits spells. */
  function DigitsValue(s: string): nat
    requires forall i :: 0 <= i < |s| ==> IsDigit(s[i])
  {
    if s == [] then 0
    else
      var d := s[|s| - 1];
      assert IsDigit(d);
      10 * DigitsValue(s[..|s| - 1]) + (d as int - '0' as int)
  }

  /** The zero-padded decimal field of width `w` that `%02d`, `%04d` and
      strftime's `%m`, `%d`, `%f`, ... print: exactly `w` digits that spell `n`. */
  function Pad(n: nat, w: nat): (s: string)
    requires n < Pow10(w)
    ensures |s| == w
    ensures forall i :: 0 <= i < w ==> IsDigit(s[i])
    ensures DigitsValue(s) == n
  {
    if w == 0 then []
    else
      var s := Pad(n / 10, w - 1) + [DigitChar(n % 10)];
      assert s[..|s| - 1] == Pad(n / 10, w - 1);
      s
  }

  /** Two fields of the same width are equal exactly when their numbers are. */
  lemma PadInjective(m: nat, n: nat, w: nat)
    requires m < Pow10(w) && n < Pow10(w)
    ensures Pad(m, w) == Pad(n, w) <==> m == n
  {
  }

  /** Dropping the last digit of a field leaves the field of the number divided by ten. */
  lemma {:induction false} PadDropDigit(n: nat, w: nat)
    requires n < Pow10(w + 1)
    ensures n / 10 < Pow10(w)
    ensures Pad(n, w + 1)[..w] == Pad(n / 10, w)
  {
  }

  /** Python's `s[:-3]`: `s` without its last three characters. */
  function DropLast3(s: string): (r: string)
    ensures |s| >= 3 ==> |r| == |s| - 3 && r + s[|s| - 3..] == s
    ensures |s| < 3 ==> r == []
  {
    if |s| >= 3 then s[..|s| - 3] else []
  }

  /** Truncating a six-digit microsecond field by three characters leaves
      the three-digit millisecond field. */
  lemma MicrosToMillis(us: nat)
    requires us < 1000000
    ensures us / 1000 < 1000
    ensures DropLast3(Pad(us, 6)) == Pad(us / 1000, 3)
  {
    PadDropDigit(us, 5);
    PadDropDigit(us / 10, 4);
    PadDropDigit(us / 10 / 10, 3);
    assert us / 10 / 10 / 10 == us / 1000;
    var s := Pad(us, 6);
    assert s[..3] == s[..5][..4][..3];
  }

  /** If `a + b == c + d` and the first parts have the same length, both parts agree. */
  lemma SplitEqual(a: string, b: string, c: string, d: string)
    requires a + b == c + d && |a| == |c|
    ensures a == c && b == d
  {
    assert a == (a + b)[..|a|];
    assert c == (c + d)[..|c|];
    assert b == (a + b)[|a|..];
    assert d == (c + d)[|c|..];
  }
}
