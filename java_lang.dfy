/** The pieces of the Java platform the modelled code leans on: exceptions as
    values, 32-bit ints, String.split, BufferedReader line reading,
    Integer.parseInt / Integer.toString, and Guava's CaseFormat conversion
    from lower_underscore to lowerCamel. */
module JavaLang {

  /** Java's `int`. */
  newtype int32 = x: int | -0x8000_0000 <= x < 0x8000_0000

  /** The exceptions the modelled code can raise or let through. */
  datatype Exception =
    | NumberFormatException           // Integer.parseInt on text that is not an int
    | ArrayIndexOutOfBoundsException  // indexing past the end of a split result
    | StringIndexOutOfBoundsException // substring past the end of a string
    | NullPointerException
    | IllegalArgumentException
    | NotImplementedException
    | NoSuchElementException          // a pool that stays exhausted past its wait bound
    | IllegalStateException           // returning an object the pool never lent out
    | BeansException                  // the container could not produce a bean

  datatype Result<+T> = Ok(value: T) | Err(error: Exception)

  datatype Option<+T> = None | Some(value: T)

  /** A statement that returns nothing but may throw. */
  datatype Outcome = Pass | Fail(error: Exception)

  // ---------------------------------------------------------------------------
  // String.split

  /** The separators the code splits on: a single character such as `:`,
      the two-character literal "\r\n", and the regular expression `\r?\n`. */
  datatype Pattern = Char(c: char) | CrLf | OptCrLf

  /** Length of the separator match that starts at index `i` of `s`, 0 when none does. */
  function MatchAt(s: string, p: Pattern, i: nat): (n: nat)
    requires i <= |s|
    ensures i + n <= |s|
  {
    match p
    case Char(c) => if i < |s| && s[i] == c then 1 else 0
    case CrLf => if i + 1 < |s| && s[i] == '\r' && s[i + 1] == '\n' then 2 else 0
    case OptCrLf =>
      if i < |s| && s[i] == '\n' then 1
      else if i + 1 < |s| && s[i] == '\r' && s[i + 1] == '\n' then 2
      else 0
  }

  /** No separator match starts anywhere in `s`. */
  predicate NoMatch(s: string, p: Pattern)
  {
    forall i :: 0 <= i < |s| ==> MatchAt(s, p, i) == 0
  }

  /** Index of the leftmost match at or after `i`, `|s|` when there is none. */
  function NextMatch(s: string, p: Pattern, i: nat): (j: nat)
    requires i <= |s|
    ensures i <= j <= |s|
    ensures j < |s| ==> MatchAt(s, p, j) > 0
    decreases |s| - i
  {
    if i == |s| || MatchAt(s, p, i) > 0 then i else NextMatch(s, p, i + 1)
  }

  /** Every piece of `s` between leftmost, non-overlapping matches, empty
      ones included. */
  function SplitAll(s: string, p: Pattern): (r: seq<string>)
    ensures |r| >= 1
    decreases |s|
  {
    var j := NextMatch(s, p, 0);
    if j == |s| then [s]
    else [s[..j]] + SplitAll(s[j + MatchAt(s, p, j)..], p)
  }

  /** `parts` with its trailing empty strings removed. */
  function DropTrailingEmpty(parts: seq<string>): (r: seq<string>)
    ensures r <= parts
    ensures r == [] || r[|r| - 1] != ""
    ensures forall k :: |r| <= k < |parts| ==> parts[k] == ""
  {
    if parts == [] || parts[|parts| - 1] != "" then parts
    else DropTrailingEmpty(parts[..|parts| - 1])
  }

  /** Java's `String.split` with limit 0: when nothing matches the result is
      the whole string; otherwise trailing empty strings are dropped. */
  function Split(s: string, p: Pattern): (r: seq<string>)
    ensures NextMatch(s, p, 0) == |s| ==> r == [s]
    ensures NextMatch(s, p, 0) < |s| ==> r == [] || r[|r| - 1] != ""
    ensures r <= SplitAll(s, p)
  {
    var parts := SplitAll(s, p);
    if |parts| == 1 then parts else DropTrailingEmpty(parts)
  }

  /** Concatenation of `parts` with `sep` between neighbours. */
  function Join(parts: seq<string>, sep: string): string
  {
    if parts == [] then "" else if |parts| == 1 then parts[0]
    else parts[0] + sep + Join(parts[1..], sep)
  }

  lemma {:induction false} NextMatchNone(s: string, p: Pattern, i: nat)
    requires i <= |s| && NoMatch(s, p)
    ensures NextMatch(s, p, i) == |s|
    decreases |s| - i
  {
    if i < |s| {
      NextMatchNone(s, p, i + 1);
    }
  }

  /** A string in which the separator never occurs splits into itself. */
  lemma SplitNoMatch(s: string, p: Pattern)
    requires NoMatch(s, p)
    ensures SplitAll(s, p) == [s] && Split(s, p) == [s]
  {
    NextMatchNone(s, p, 0);
    assert s[0..] == s;
  }

  /** Without a carriage return there is no CRLF to split at. */
  lemma NoCrNoMatch(s: string)
    requires '\r' !in s
    ensures NoMatch(s, CrLf)
  {
  }

  lemma CharNoMatch(s: string, c: char)
    requires c !in s && '\n' !in s && '\r' !in s
    ensures NoMatch(s, Char(c)) && NoMatch(s, CrLf) && NoMatch(s, OptCrLf)
  {
  }

  /** No match starts before the one NextMatch finds. */
  lemma {:induction false} NextMatchLeftmost(s: string, p: Pattern, i: nat)
    requires i <= |s|
    ensures forall k :: i <= k < NextMatch(s, p, i) ==> MatchAt(s, p, k) == 0
    decreases |s| - i
  {
    if i < |s| && MatchAt(s, p, i) == 0 {
      NextMatchLeftmost(s, p, i + 1);
    }
  }

  /** A match-free prefix is skipped: the search continues in the rest. */
  lemma {:induction false} NextMatchPrefix(x: string, y: string, p: Pattern, i: nat)
    requires i <= |x|
    requires forall k :: i <= k < |x| ==> MatchAt(x + y, p, k) == 0
    ensures NextMatch(x + y, p, i) == NextMatch(x + y, p, |x|)
    decreases |x| - i
  {
    if i < |x| {
      NextMatchPrefix(x, y, p, i + 1);
    }
  }

  /** Splitting on a character that first occurs right after `a`. */
  lemma SplitAtChar(a: string, c: char, b: string)
    requires c !in a
    ensures SplitAll(a + [c] + b, Char(c)) == [a] + SplitAll(b, Char(c))
  {
    var s := a + [c] + b;
    assert forall k :: 0 <= k < |a| ==> MatchAt(s, Char(c), k) == 0 by {
      forall k | 0 <= k < |a| ensures MatchAt(s, Char(c), k) == 0 {
        assert s[k] == a[k];
      }
    }
    assert s == a + ([c] + b);
    NextMatchPrefix(a, [c] + b, Char(c), 0);
    assert s[|a|] == c;
    assert s[..|a|] == a && s[|a| + 1..] == b;
  }

  /** A string with exactly one occurrence of the separator character, not
      at its end, splits into the two sides. */
  lemma SplitTwoParts(a: string, c: char, b: string)
    requires c !in a && c !in b && b != []
    ensures Split(a + [c] + b, Char(c)) == [a, b]
  {
    SplitAtChar(a, c, b);
    assert NoMatch(b, Char(c));
    SplitNoMatch(b, Char(c));
  }

  /** A string with exactly two occurrences of the separator character, the
      last not at its end, splits into the three parts. */
  lemma SplitThreeParts(a: string, c: char, b: string, d: string)
    requires c !in a && c !in b && c !in d && d != []
    ensures Split(a + [c] + b + [c] + d, Char(c)) == [a, b, d]
  {
    assert a + [c] + b + [c] + d == a + [c] + (b + [c] + d);
    SplitAtChar(a, c, b + [c] + d);
    SplitAtChar(b, c, d);
    assert NoMatch(d, Char(c));
    SplitNoMatch(d, Char(c));
  }

  /** No piece of a split on a character contains that character. */
  lemma {:induction false} SplitAllPiecesFree(s: string, c: char)
    ensures forall k :: 0 <= k < |SplitAll(s, Char(c))| ==> c !in SplitAll(s, Char(c))[k]
    decreases |s|
  {
    var j := NextMatch(s, Char(c), 0);
    NextMatchLeftmost(s, Char(c), 0);
    assert forall k :: 0 <= k < j ==> s[..j][k] != c by {
      forall k | 0 <= k < j ensures s[..j][k] != c {
        assert MatchAt(s, Char(c), k) == 0;
      }
    }
    if j < |s| {
      SplitAllPiecesFree(s[j + 1..], c);
    }
  }

  lemma SplitPiecesFree(s: string, c: char)
    ensures forall k :: 0 <= k < |Split(s, Char(c))| ==> c !in Split(s, Char(c))[k]
  {
    SplitAllPiecesFree(s, c);
    var parts := SplitAll(s, Char(c));
    if |parts| != 1 {
      var r := DropTrailingEmpty(parts);
      assert forall k :: 0 <= k < |r| ==> r[k] == parts[k];
    }
  }

  /** Split's pieces, joined back with the separator character, give the input. */
  lemma {:induction false} JoinSplitAll(s: string, c: char)
    ensures Join(SplitAll(s, Char(c)), [c]) == s
    decreases |s|
  {
    var j := NextMatch(s, Char(c), 0);
    if j < |s| {
      var rest := s[j + 1..];
      JoinSplitAll(rest, c);
      var tail := SplitAll(rest, Char(c));
      assert ([s[..j]] + tail)[1..] == tail;
      assert s == s[..j] + [c] + rest;
    }
  }

  // ---------------------------------------------------------------------------
  // BufferedReader.readLine, as used by commons-io IOUtils.readLines

  /** The lines of `s`: a line ends at "\n", "\r" or "\r\n"; a last line
      without a terminator counts only when it is not empty. */
  function ReadLines(s: string): (lines: seq<string>)
    ensures forall k :: 0 <= k < |lines| ==> '\n' !in lines[k] && '\r' !in lines[k]
    ensures s == [] <==> lines == []
  {
    if s == [] then []
    else if s[0] == '\n' then [""] + ReadLines(s[1..])
    else if s[0] == '\r' then [""] + ReadLines(if |s| >= 2 && s[1] == '\n' then s[2..] else s[1..])
    else
      var rest := ReadLines(s[1..]);
      if rest == [] then [[s[0]]] else [[s[0]] + rest[0]] + rest[1..]
  }

  /** The text that ReadLines reads back: each line followed by "\n". */
  function UnixText(lines: seq<string>): string
  {
    if lines == [] then "" else lines[0] + "\n" + UnixText(lines[1..])
  }

  lemma {:induction false} ReadLineAndRest(line: string, rest: seq<string>)
    requires '\n' !in line && '\r' !in line
    ensures ReadLines(line + "\n" + UnixText(rest)) == [line] + ReadLines(UnixText(rest))
    decreases |line|
  {
    var s := line + "\n" + UnixText(rest);
    if line != [] {
      assert s[0] == line[0];
      assert s[1..] == line[1..] + "\n" + UnixText(rest);
      ReadLineAndRest(line[1..], rest);
      assert [line[0]] + line[1..] == line;
    } else {
      assert s[1..] == UnixText(rest);
    }
  }

  /** Reading back newline-terminated lines gives the same lines. */
  lemma {:induction false} ReadLinesUnixText(lines: seq<string>)
    requires forall k :: 0 <= k < |lines| ==> '\n' !in lines[k] && '\r' !in lines[k]
    ensures ReadLines(UnixText(lines)) == lines
  {
    if lines != [] {
      ReadLineAndRest(lines[0], lines[1..]);
      ReadLinesUnixText(lines[1..]);
    }
  }

  // ---------------------------------------------------------------------------
  // Integer.parseInt and Integer.toString, ASCII digits only

  predicate IsDigit(c: char) { '0' <= c <= '9' }

  predicate AllDigits(s: string) { forall k :: 0 <= k < |s| ==> IsDigit(s[k]) }

  function DigitsValue(ds: string): nat
    requires AllDigits(ds)
  {
    if ds == [] then 0
    else DigitsValue(ds[..|ds| - 1]) * 10 + ((ds[|ds| - 1] as int) - ('0' as int))
  }

  function DigitChar(d: nat): (c: char)
    requires d < 10
    ensures IsDigit(c)
  {
    ('0' as int + d) as char
  }

  /** Decimal digits of `n`, without leading zeros. */
  function NatToDigits(n: nat): (ds: string)
    ensures ds != [] && AllDigits(ds)
  {
    if n < 10 then [DigitChar(n)] else NatToDigits(n / 10) + [DigitChar(n % 10)]
  }

  /** Integer.toString. */
  function IntToString(n: int32): (r: string)
    ensures r != [] && (r[0] == '-' <==> n < 0)
    ensures forall k :: (if n < 0 then 1 else 0) <= k < |r| ==> IsDigit(r[k])
  {
    if n < 0 then "-" + NatToDigits(-(n as int)) else NatToDigits(n as nat)
  }

  /** Integer.parseInt(s, 10): an optional sign, then at least one digit,
      with a value that fits in an int. None stands for NumberFormatException. */
  function ParseInt(s: string): (r: Option<int32>)
    ensures r.Some? ==> s != [] && (s[0] == '-' || s[0] == '+' || IsDigit(s[0]))
  {
    if s == [] then None
    else
      var signed := s[0] == '-' || s[0] == '+';
      var ds := if signed then s[1..] else s;
      if ds == [] || !AllDigits(ds) then None
      else
        var v: int := if s[0] == '-' then -(DigitsValue(ds) as int) else DigitsValue(ds);
        if -0x8000_0000 <= v < 0x8000_0000 then Some(v as int32) else None
  }

  lemma {:induction false} DigitsRoundTrip(n: nat)
    ensures DigitsValue(NatToDigits(n)) == n
  {
    if n >= 10 {
      var ds := NatToDigits(n);
      assert ds[..|ds| - 1] == NatToDigits(n / 10);
      DigitsRoundTrip(n / 10);
    }
  }

  /** Integer.parseInt reads back what Integer.toString writes. */
  lemma ParseIntToString(n: int32)
    ensures ParseInt(IntToString(n)) == Some(n)
  {
    var s := IntToString(n);
    if n < 0 {
      DigitsRoundTrip(-(n as int));
      assert s[1..] == NatToDigits(-(n as int));
    } else {
      DigitsRoundTrip(n as nat);
    }
  }

  /** Text produced by Integer.toString holds nothing but a sign and digits,
      and is never empty. */
  lemma IntToStringChars(n: int32, c: char)
    requires c != '-' && !IsDigit(c)
    ensures c !in IntToString(n) && IntToString(n) != []
  {
    var ds := NatToDigits(if n < 0 then -(n as int) else n as int);
    assert c !in ds by {
      forall k | 0 <= k < |ds| ensures ds[k] != c {
        assert IsDigit(ds[k]);
      }
    }
  }

  // ---------------------------------------------------------------------------
  // Guava CaseFormat.LOWER_UNDERSCORE.to(CaseFormat.LOWER_CAMEL, s)

  function ToLowerAscii(c: char): char
  {
    if 'A' <= c <= 'Z' then (c as int + 32) as char else c
  }

  function ToUpperAscii(c: char): char
  {
    if 'a' <= c <= 'z' then (c as int - 32) as char else c
  }

  function LowerAscii(s: string): (r: string)
    ensures |r| == |s| && forall k :: 0 <= k < |s| ==> r[k] == ToLowerAscii(s[k])
  {
    if s == [] then [] else [ToLowerAscii(s[0])] + LowerAscii(s[1..])
  }

  /** First character upper-cased, the rest lower-cased; "" stays "". */
  function Capitalize(word: string): string
  {
    if word == [] then [] else [ToUpperAscii(word[0])] + LowerAscii(word[1..])
  }

  function CapitalizeAll(words: seq<string>): string
  {
    if words == [] then [] else Capitalize(words[0]) + CapitalizeAll(words[1..])
  }

  /** The words are the pieces between underscores; the first is lower-cased,
      every later one capitalized, and they are joined with no separator. */
  function LowerUnderscoreToLowerCamel(s: string): (r: string)
    ensures '_' !in s ==> r == LowerAscii(s)
  {
    var words := SplitAll(s, Char('_'));
    assert '_' !in s ==> words == [s] by {
      if '_' !in s {
        assert NoMatch(s, Char('_'));
        SplitNoMatch(s, Char('_'));
      }
    }
    LowerAscii(words[0]) + CapitalizeAll(words[1..])
  }

  predicate LowerWord(s: string)
  {
    forall k :: 0 <= k < |s| ==> 'a' <= s[k] <= 'z'
  }

  lemma LowerAsciiOfLower(s: string)
    requires LowerWord(s)
    ensures LowerAscii(s) == s
  {
  }

  lemma LowerWordNoMatch(s: string)
    requires LowerWord(s)
    ensures NoMatch(s, Char('_'))
  {
  }

  /** A name that is already one lower-case word is its own translation. */
  lemma LowerCamelOneWord(s: string)
    requires LowerWord(s)
    ensures LowerUnderscoreToLowerCamel(s) == s
  {
    LowerWordNoMatch(s);
    SplitNoMatch(s, Char('_'));
    LowerAsciiOfLower(s);
  }

  lemma SplitTwoWords(a: string, b: string)
    requires LowerWord(a) && LowerWord(b)
    ensures SplitAll(a + ['_'] + b, Char('_')) == [a, b]
  {
    SplitAtChar(a, '_', b);
    LowerWordNoMatch(b);
    SplitNoMatch(b, Char('_'));
  }

  lemma CapitalizeLower(b: string)
    requires LowerWord(b) && b != []
    ensures CapitalizeAll([b]) == [ToUpperAscii(b[0])] + b[1..]
  {
    LowerAsciiOfLower(b[1..]);
    assert CapitalizeAll([b]) == Capitalize(b) + CapitalizeAll([]);
  }

  /** Two lower-case words joined by one underscore become lowerCamel. */
  lemma LowerCamelTwoWords(a: string, b: string)
    requires LowerWord(a) && LowerWord(b) && b != []
    ensures LowerUnderscoreToLowerCamel(a + ['_'] + b) == a + [ToUpperAscii(b[0])] + b[1..]
  {
    var s := a + ['_'] + b;
    SplitTwoWords(a, b);
    var words := SplitAll(s, Char('_'));
    assert words[0] == a && words[1..] == [b];
    LowerAsciiOfLower(a);
    CapitalizeLower(b);
    var tail := [ToUpperAscii(b[0])] + b[1..];
    assert LowerUnderscoreToLowerCamel(s) == a + tail;
    assert a + tail == a + [ToUpperAscii(b[0])] + b[1..];
  }
}
