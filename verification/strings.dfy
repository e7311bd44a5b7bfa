/**
 Character searching, splitting and joining as the two programs use them:
 `std::string::find`/`rfind`, Python's `str.split(sep)` and `str.split()`,
 and decimal rendering of integers (`std::to_string`).
 */
module Strings {
  import opened Wrappers

  /** The smaller of `a` and `b` (`std::min`, Python's `min`). */
  function Min(a: int, b: int): int
  {
    if a <= b then a else b
  }

  /** Index of the first `c` in `s`, or None when there is none. */
  function Find(s: string, c: char): (r: Option<nat>)
    ensures r.None? <==> c !in s
    ensures r.Some? ==> r.value < |s| && s[r.value] == c && c !in s[..r.value]
  {
    if |s| == 0 then None
    else if s[0] == c then Some(0)
    else match Find(s[1..], c)
      case None => None
      case Some(i) => Some(i + 1)
  }

  /** Index of the last `c` in `s`, or None when there is none. */
  function RFind(s: string, c: char): (r: Option<nat>)
    ensures r.None? <==> c !in s
    ensures r.Some? ==> r.value < |s| && s[r.value] == c && c !in s[r.value + 1..]
  {
    if |s| == 0 then None
    else if s[|s| - 1] == c then Some(|s| - 1)
    else
      assert s == s[..|s| - 1] + [s[|s| - 1]];
      RFind(s[..|s| - 1], c)
  }

  /** The first `c` is at `i` when `s[i]` is `c` and no earlier character is. */
  lemma FindAt(s: string, c: char, i: nat)
    requires i < |s| && s[i] == c && c !in s[..i]
    ensures Find(s, c) == Some(i)
  {
  }

  /** The last `c` is at `i` when `s[i]` is `c` and no later character is. */
  lemma RFindAt(s: string, c: char, i: nat)
    requires i < |s| && s[i] == c && c !in s[i + 1..]
    ensures RFind(s, c) == Some(i)
  {
  }

  /** `parts` glued together with `c` between neighbours (Python's `c.join(parts)`). */
  function Join(parts: seq<string>, c: char): string
  {
    if |parts| == 0 then []
    else if |parts| == 1 then parts[0]
    else parts[0] + [c] + Join(parts[1..], c)
  }

  /** Python's `s.split(c)` for a one-character separator: every piece, empty ones included. */
  function Split(s: string, c: char): (parts: seq<string>)
    ensures |parts| >= 1
    ensures forall i :: 0 <= i < |parts| ==> c !in parts[i]
    decreases |s|
  {
    match Find(s, c)
    case None => [s]
    case Some(i) => [s[..i]] + Split(s[i + 1..], c)
  }

  /** Joining the pieces of a split with the separator gives back the string. */
  lemma {:induction false} JoinSplit(s: string, c: char)
    ensures Join(Split(s, c), c) == s
    decreases |s|
  {
    match Find(s, c)
    case None =>
    case Some(i) =>
      var rest := Split(s[i + 1..], c);
      JoinSplit(s[i + 1..], c);
      assert Split(s, c) == [s[..i]] + rest;
      assert Join(Split(s, c), c) == s[..i] + [c] + Join(rest, c);
      assert s == s[..i] + [c] + s[i + 1..];
  }

  /** Splitting a joined sequence gives back its pieces when no piece contains the separator. */
  lemma {:induction false} SplitJoin(parts: seq<string>, c: char)
    requires |parts| >= 1
    requires forall i :: 0 <= i < |parts| ==> c !in parts[i]
    ensures Split(Join(parts, c), c) == parts
    decreases |parts|
  {
    if |parts| > 1 {
      var rest := parts[1..];
      assert Join(parts, c) == parts[0] + [c] + Join(rest, c);
      SplitCons(parts[0], c, Join(rest, c));
      SplitJoin(rest, c);
      assert parts == [parts[0]] + rest;
    } else {
      assert Find(parts[0], c).None?;
    }
  }

  /** Splitting text that starts with a separator-free piece and a separator. */
  lemma SplitCons(p: string, c: char, tail: string)
    requires c !in p
    ensures Split(p + [c] + tail, c) == [p] + Split(tail, c)
  {
    var s := p + [c] + tail;
    assert s[..|p|] == p && s[|p|] == c;
    FindAt(s, c, |p|);
    assert s[|p| + 1..] == tail;
  }

  /** A string with exactly one separator splits into the text before and after it. */
  lemma SplitTwo(a: string, b: string, c: char)
    requires c !in a && c !in b
    ensures Split(a + [c] + b, c) == [a, b]
  {
    SplitCons(a, c, b);
    assert Split(b, c) == [b];
  }

  /** A string that splits into two pieces is those pieces around one separator. */
  lemma SplitOfTwo(s: string, c: char)
    requires |Split(s, c)| == 2
    ensures s == Split(s, c)[0] + [c] + Split(s, c)[1]
  {
    var i := Find(s, c).value;
    assert Split(s[i + 1..], c) == [s[i + 1..]];
    assert s == s[..i] + [c] + s[i + 1..];
  }

  /** A character missing from `a + [sep] + b` is missing from both pieces. */
  lemma NotInPieces(a: string, b: string, sep: char, c: char)
    requires c !in a + [sep] + b
    ensures c !in a && c !in b
  {
    var s := a + [sep] + b;
    forall j | 0 <= j < |b|
      ensures b[j] != c
    {
      assert s[|a| + 1 + j] == b[j];
    }
    forall j | 0 <= j < |a|
      ensures a[j] != c
    {
      assert s[j] == a[j];
    }
  }

  /** The whitespace characters of Python 2's `str.split()`. */
  predicate IsSpace(ch: char)
  {
    ch == ' ' || ch == '\t' || ch == '\n' || ch == '\r' || ch == '\U{000B}' || ch == '\U{000C}'
  }

  /** A field of `str.split()`: non-empty, no whitespace. */
  predicate IsWord(w: string)
  {
    |w| > 0 && forall i :: 0 <= i < |w| ==> !IsSpace(w[i])
  }

  lemma WordConcat(a: string, b: string)
    requires IsWord(a) && IsWord(b)
    ensures IsWord(a + b)
  {
  }

  /** Length of the run of non-whitespace characters at the start of `s`. */
  function WordLength(s: string): (n: nat)
    ensures n <= |s|
    ensures forall i :: 0 <= i < n ==> !IsSpace(s[i])
    ensures n < |s| ==> IsSpace(s[n])
  {
    if |s| == 0 || IsSpace(s[0]) then 0 else 1 + WordLength(s[1..])
  }

  /** Python's `s.split()`: the maximal runs of non-whitespace, in order. */
  function SplitWhitespace(s: string): (words: seq<string>)
    ensures forall i :: 0 <= i < |words| ==> IsWord(words[i])
    decreases |s|
  {
    if |s| == 0 then []
    else if IsSpace(s[0]) then SplitWhitespace(s[1..])
    else
      var n := WordLength(s);
      [s[..n]] + SplitWhitespace(s[n..])
  }

  lemma WordLengthOfWord(w: string, tail: string)
    requires IsWord(w)
    requires |tail| == 0 || IsSpace(tail[0])
    ensures WordLength(w + tail) == |w|
    decreases |w|
  {
    if |w| > 1 {
      assert (w + tail)[1..] == w[1..] + tail;
      WordLengthOfWord(w[1..], tail);
    } else {
      assert (w + tail)[1..] == tail;
    }
  }

  /** `str.split()` recovers the words of a line whose words are separated by single blanks. */
  lemma {:induction false} SplitWhitespaceJoin(words: seq<string>)
    requires forall i :: 0 <= i < |words| ==> IsWord(words[i])
    ensures SplitWhitespace(Join(words, ' ')) == words
    decreases |words|
  {
    if |words| == 1 {
      SplitWhitespaceCons(words[0], []);
      assert words[0] + [] == words[0];
    } else if |words| > 1 {
      var rest := Join(words[1..], ' ');
      assert Join(words, ' ') == words[0] + ([' '] + rest);
      SplitWhitespaceCons(words[0], [' '] + rest);
      assert ([' '] + rest)[1..] == rest;
      SplitWhitespaceJoin(words[1..]);
      assert words == [words[0]] + words[1..];
    }
  }

  /** A word followed by nothing or by white space is the first field of `str.split()`. */
  lemma SplitWhitespaceCons(w: string, tail: string)
    requires IsWord(w)
    requires |tail| == 0 || IsSpace(tail[0])
    ensures SplitWhitespace(w + tail) == [w] + SplitWhitespace(tail)
  {
    var s := w + tail;
    WordLengthOfWord(w, tail);
    assert s[..|w|] == w;
    assert s[|w|..] == tail;
  }

  /** The decimal digit character for `d`. */
  function DigitChar(d: nat): char
    requires d < 10
  {
    ['0', '1', '2', '3', '4', '5', '6', '7', '8', '9'][d]
  }

  predicate IsDigit(ch: char)
  {
    '0' <= ch <= '9'
  }

  /** Value of a decimal digit character. */
  function DigitValue(ch: char): nat
    requires IsDigit(ch)
  {
    (ch as int) - ('0' as int)
  }

  /** `std::to_string` of a non-negative integer: its decimal digits, no sign, no leading zeros. */
  function DecimalString(n: nat): (s: string)
    ensures |s| > 0
    ensures forall i :: 0 <= i < |s| ==> IsDigit(s[i])
  {
    if n < 10 then [DigitChar(n)] else DecimalString(n / 10) + [DigitChar(n % 10)]
  }

  /** Value of a string of decimal digits, most significant first. */
  function DigitsValue(s: string): nat
    requires forall i :: 0 <= i < |s| ==> IsDigit(s[i])
  {
    if |s| == 0 then 0 else 10 * DigitsValue(s[..|s| - 1]) + DigitValue(s[|s| - 1])
  }

  /** Reading back a rendered number gives the number. */
  lemma {:induction false} DecimalStringValue(n: nat)
    ensures DigitsValue(DecimalString(n)) == n
  {
    var s := DecimalString(n);
    if n >= 10 {
      DecimalStringValue(n / 10);
      assert s[..|s| - 1] == DecimalString(n / 10);
    }
  }
}
