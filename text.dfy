/** String operations of Python's `str` that the checks rely on, over `seq<char>`. */
module Text {

  /** ASCII whitespace as `str.strip()` with no argument removes it. */
  const WHITESPACE: set<char> := {' ', '\t', '\n', '\r', '\U{0b}', '\U{0c}', '\U{1c}', '\U{1d}', '\U{1e}', '\U{1f}'}

  /** `str.lower()` on one character, restricted to ASCII letters. */
  function LowerChar(c: char): char {
    if 'A' <= c <= 'Z' then (c as int + 32) as char else c
  }

  /** `str.lower()`, restricted to ASCII letters. */
  function Lower(s: string): string {
    seq(|s|, i requires 0 <= i < |s| => LowerChar(s[i]))
  }

  /** Python's `a <= b` on strings: lexicographic by code point. */
  predicate Le(a: string, b: string) {
    |a| == 0 || (|b| > 0 && (a[0] < b[0] || (a[0] == b[0] && Le(a[1..], b[1..]))))
  }

  lemma {:induction false} LeReflexive(a: string)
    ensures Le(a, a)
  {
    if |a| > 0 {
      LeReflexive(a[1..]);
    }
  }

  lemma {:induction false} LeTotal(a: string, b: string)
    ensures Le(a, b) || Le(b, a)
  {
    if |a| > 0 && |b| > 0 && a[0] == b[0] {
      LeTotal(a[1..], b[1..]);
    }
  }

  lemma {:induction false} LeTransitive(a: string, b: string, c: string)
    requires Le(a, b) && Le(b, c)
    ensures Le(a, c)
  {
    if |a| > 0 && a[0] == b[0] && b[0] == c[0] {
      LeTransitive(a[1..], b[1..], c[1..]);
    }
  }

  lemma {:induction false} LeAntisymmetric(a: string, b: string)
    requires Le(a, b) && Le(b, a)
    ensures a == b
  {
    if |a| > 0 {
      LeAntisymmetric(a[1..], b[1..]);
      assert a == [a[0]] + a[1..];
      assert b == [b[0]] + b[1..];
    }
  }

  /** `sep.join(parts)`. */
  function Join(sep: string, parts: seq<string>): string {
    if |parts| == 0 then ""
    else if |parts| == 1 then parts[0]
    else Join(sep, parts[..|parts| - 1]) + sep + parts[|parts| - 1]
  }

  /** Every part followed by `sep`, concatenated. */
  function Terminated(parts: seq<string>, sep: string): string {
    if |parts| == 0 then "" else Terminated(parts[..|parts| - 1], sep) + parts[|parts| - 1] + sep
  }

  /** Joining with a separator and then writing one more separator puts the separator after every part. */
  lemma {:induction false} JoinThenSeparator(sep: string, parts: seq<string>)
    requires |parts| > 0
    ensures Join(sep, parts) + sep == Terminated(parts, sep)
  {
    if |parts| > 1 {
      JoinThenSeparator(sep, parts[..|parts| - 1]);
    } else {
      assert parts[..0] == [];
    }
  }

  /** The lines of `text` with their line ends kept: `text.splitlines(keepends=True)` for `\n` line ends. */
  function SplitLines(text: string): (r: seq<string>)
    ensures |text| > 0 <==> |r| > 0
  {
    if |text| == 0 then [] else AddChar(SplitLines(text[..|text| - 1]), text[|text| - 1])
  }

  /** The lines of a text with one more character: a new line after a line end, else the last line grows. */
  function AddChar(lines: seq<string>, c: char): (r: seq<string>)
    ensures |r| > 0
  {
    if |lines| == 0 || EndsLine(lines[|lines| - 1]) then lines + [[c]]
    else lines[..|lines| - 1] + [lines[|lines| - 1] + [c]]
  }

  predicate EndsLine(line: string) {
    |line| > 0 && line[|line| - 1] == '\n'
  }

  /** The concatenation of a sequence of strings. */
  function Concat(parts: seq<string>): string {
    if |parts| == 0 then "" else Concat(parts[..|parts| - 1]) + parts[|parts| - 1]
  }

  lemma {:induction false} ConcatSnoc(parts: seq<string>, x: string)
    ensures Concat(parts + [x]) == Concat(parts) + x
  {
    assert (parts + [x])[..|parts|] == parts;
  }

  lemma {:induction false} ConcatExtendLast(parts: seq<string>, x: string)
    requires |parts| > 0
    ensures Concat(parts[..|parts| - 1] + [parts[|parts| - 1] + x]) == Concat(parts) + x
  {
    var k := |parts| - 1;
    ConcatSnoc(parts[..k], parts[k] + x);
    assert Concat(parts) == Concat(parts[..k]) + parts[k];
  }

  lemma ConcatAddChar(lines: seq<string>, c: char)
    ensures Concat(AddChar(lines, c)) == Concat(lines) + [c]
  {
    if |lines| == 0 || EndsLine(lines[|lines| - 1]) {
      ConcatSnoc(lines, [c]);
    } else {
      ConcatExtendLast(lines, [c]);
    }
  }

  lemma {:induction false} SplitLinesConcat(text: string)
    ensures Concat(SplitLines(text)) == text
  {
    if |text| > 0 {
      var t, c := text[..|text| - 1], text[|text| - 1];
      SplitLinesConcat(t);
      ConcatAddChar(SplitLines(t), c);
      assert text == t + [c];
    }
  }

  /** `textwrap.indent(text, prefix)`: the prefix goes before every line that is not whitespace only. */
  function Indent(text: string, prefix: string): string {
    IndentLines(SplitLines(text), prefix)
  }

  function IndentLines(lines: seq<string>, prefix: string): string {
    if |lines| == 0 then ""
    else
      var line := lines[|lines| - 1];
      IndentLines(lines[..|lines| - 1], prefix) + (if Strip(line, WHITESPACE) != "" then prefix + line else line)
  }

  /** Indenting with the empty prefix gives the text back. */
  lemma {:induction false} IndentEmptyPrefix(text: string)
    ensures Indent(text, "") == text
  {
    SplitLinesConcat(text);
    IndentLinesEmptyPrefix(SplitLines(text));
  }

  lemma {:induction false} IndentLinesEmptyPrefix(lines: seq<string>)
    ensures IndentLines(lines, "") == Concat(lines)
  {
    if |lines| > 0 {
      IndentLinesEmptyPrefix(lines[..|lines| - 1]);
    }
  }

  /** `s.split(sep)` for a one-character separator. */
  function Split(s: string, sep: char): (r: seq<string>)
    ensures |r| > 0
  {
    if |s| == 0 then [""]
    else
      var init := Split(s[..|s| - 1], sep);
      var c := s[|s| - 1];
      if c == sep then init + [""] else init[..|init| - 1] + [init[|init| - 1] + [c]]
  }

  lemma {:induction false} JoinSnoc(sep: string, parts: seq<string>, x: string)
    requires |parts| > 0
    ensures Join(sep, parts + [x]) == Join(sep, parts) + sep + x
  {
    assert (parts + [x])[..|parts|] == parts;
  }

  lemma {:induction false} JoinExtendLast(sep: string, parts: seq<string>, x: string)
    requires |parts| > 0
    ensures Join(sep, parts[..|parts| - 1] + [parts[|parts| - 1] + x]) == Join(sep, parts) + x
  {
    var k := |parts| - 1;
    if k > 0 {
      JoinSnoc(sep, parts[..k], parts[k] + x);
      JoinSnoc(sep, parts[..k], parts[k]);
      assert parts == parts[..k] + [parts[k]];
    }
  }

  /** Splitting and joining back with the same separator is the identity. */
  lemma {:induction false} SplitJoin(s: string, sep: char)
    ensures Join([sep], Split(s, sep)) == s
  {
    if |s| > 0 {
      var t, c := s[..|s| - 1], s[|s| - 1];
      SplitJoin(t, sep);
      if c == sep {
        JoinSnoc([sep], Split(t, sep), "");
      } else {
        JoinExtendLast([sep], Split(t, sep), [c]);
      }
      assert s == t + [c];
    }
  }

  /** No piece of a split holds the separator. */
  lemma {:induction false} SplitPiecesFree(s: string, sep: char)
    ensures forall p :: p in Split(s, sep) ==> sep !in p
  {
    if |s| > 0 {
      SplitPiecesFree(s[..|s| - 1], sep);
      var init := Split(s[..|s| - 1], sep);
      var c := s[|s| - 1];
      if c != sep {
        var k := |init| - 1;
        assert init[k] in init;
        forall p | p in init[..k] ensures p in init {
        }
      }
    }
  }

  /** `s.lstrip(chars)`. */
  function StripLeft(s: string, chars: set<char>): (r: string)
    ensures |r| <= |s| && r == s[|s| - |r|..]
    ensures r == [] || r[0] !in chars
    ensures forall i :: 0 <= i < |s| - |r| ==> s[i] in chars
  {
    if |s| > 0 && s[0] in chars then StripLeft(s[1..], chars) else s
  }

  /** `s.rstrip(chars)`. */
  function StripRight(s: string, chars: set<char>): (r: string)
    ensures |r| <= |s| && r == s[..|r|]
    ensures r == [] || r[|r| - 1] !in chars
    ensures forall i :: |r| <= i < |s| ==> s[i] in chars
  {
    if |s| > 0 && s[|s| - 1] in chars then StripRight(s[..|s| - 1], chars) else s
  }

  /** `s.strip(chars)`. */
  function Strip(s: string, chars: set<char>): string {
    StripRight(StripLeft(s, chars), chars)
  }

  /** Stripping a string that neither starts nor ends with a stripped character changes nothing. */
  lemma StripUnchanged(s: string, chars: set<char>)
    requires s == [] || (s[0] !in chars && s[|s| - 1] !in chars)
    ensures Strip(s, chars) == s
  {
  }

  /** Stripping a text framed by one stripped character on each side gives the text inside. */
  lemma StripFraming(inner: string, c: char, chars: set<char>)
    requires c in chars
    requires |inner| > 0 && inner[0] !in chars && inner[|inner| - 1] !in chars
    ensures Strip([c] + inner + [c], chars) == inner
  {
    var framed := [c] + inner + [c];
    assert framed[1..] == inner + [c];
    assert (inner + [c])[..|inner|] == inner;
  }

  /** Python's `sub in s`. */
  predicate Contains(s: string, sub: string) {
    if |sub| > |s| then false
    else s[..|sub|] == sub || Contains(s[1..], sub)
  }
}
