/**
 * The few pieces of Python's `str` that the bot's parsers rely on: `lower`, `upper`, `strip`,
 * `split()`, `in`, `startswith`, `replace(p, '')`, `' '.join`, `isdigit` and `int`.
 * Strings are sequences of Unicode code points.
 */
module Text {
  import opened Common

  /**
   * `str.isspace` on the first 256 code points: the blank, tab to carriage return, the
   * separators U+001C to U+001F, U+0085 and the no-break space U+00A0.
   */
  predicate IsSpace(c: char) {
    c == ' ' || '\t' <= c <= '\r' || '\U{1C}' <= c <= '\U{1F}' || c == '\U{85}' || c == '\U{A0}'
  }

  /** `str.isdigit` on the ASCII digits. */
  predicate IsDigit(c: char) {
    '0' <= c <= '9'
  }

  /** Upper-case letters of the Latin and the basic Cyrillic alphabets. */
  predicate IsUpper(c: char) {
    'A' <= c <= 'Z' || 'А' <= c <= 'Я' || c == 'Ё'
  }

  /** `str.lower` on one character. */
  function LowerChar(c: char): (r: char)
    ensures !IsUpper(r)
    ensures !IsUpper(c) ==> r == c
  {
    if 'A' <= c <= 'Z' || 'А' <= c <= 'Я' then (c as int + 32) as char
    else if c == 'Ё' then 'ё'
    else c
  }

  /** `str.lower`: each capital becomes the small letter whose capital it is. */
  function Lower(s: string): (r: string)
    ensures |r| == |s| && forall i :: 0 <= i < |r| ==> !IsUpper(r[i])
    ensures forall i :: 0 <= i < |s| && !IsUpper(s[i]) ==> r[i] == s[i]
    ensures forall i :: 0 <= i < |s| && IsUpper(s[i]) ==> IsLower(r[i]) && UpperChar(r[i]) == s[i]
  {
    seq(|s|, i requires 0 <= i < |s| => LowerChar(s[i]))
  }

  /** Lowering leaves a string without capitals untouched. */
  lemma LowerWithoutCapitals(s: string)
    requires forall i :: 0 <= i < |s| ==> !IsUpper(s[i])
    ensures Lower(s) == s
  {
  }

  /** Lowering never leaves a capital behind, so it is idempotent. */
  lemma LowerIdempotent(s: string)
    ensures forall i :: 0 <= i < |Lower(s)| ==> !IsUpper(Lower(s)[i])
    ensures Lower(Lower(s)) == Lower(s)
  {
    LowerWithoutCapitals(Lower(s));
  }

  /** Lower-case letters of the Latin and the basic Cyrillic alphabets. */
  predicate IsLower(c: char) {
    'a' <= c <= 'z' || 'а' <= c <= 'я' || c == 'ё'
  }

  /** `str.upper` on one character. */
  function UpperChar(c: char): (r: char)
    ensures !IsLower(r)
    ensures !IsLower(c) ==> r == c
  {
    if 'a' <= c <= 'z' || 'а' <= c <= 'я' then (c as int - 32) as char
    else if c == 'ё' then 'Ё'
    else c
  }

  /** `str.upper`: each small letter becomes the capital whose small letter it is. */
  function Upper(s: string): (r: string)
    ensures |r| == |s| && forall i :: 0 <= i < |r| ==> !IsLower(r[i])
    ensures forall i :: 0 <= i < |s| && !IsLower(s[i]) ==> r[i] == s[i]
    ensures forall i :: 0 <= i < |s| && IsLower(s[i]) ==> IsUpper(r[i]) && LowerChar(r[i]) == s[i]
  {
    seq(|s|, i requires 0 <= i < |s| => UpperChar(s[i]))
  }

  predicate StartsWith(s: string, p: string) {
    |p| <= |s| && s[..|p|] == p
  }

  /** Python's `p in s` for strings: `p` occurs in `s` as a contiguous piece. */
  predicate Contains(s: string, p: string)
    decreases |s|
  {
    StartsWith(s, p) || (|s| > 0 && Contains(s[1..], p))
  }

  /** `Contains` is exactly "occurs at some position". */
  lemma {:induction false} ContainsAt(s: string, p: string, i: nat)
    requires i + |p| <= |s| && s[i..i + |p|] == p
    ensures Contains(s, p)
  {
    if i > 0 {
      assert s[1..][i - 1..i - 1 + |p|] == s[i..i + |p|];
      ContainsAt(s[1..], p, i - 1);
    }
  }

  /** A piece containing a character the text lacks cannot occur in the text. */
  lemma {:induction false} NotContainsMissingChar(s: string, p: string, c: char)
    requires c in p && c !in s
    ensures !Contains(s, p)
    decreases |s|
  {
    if |s| > 0 {
      assert forall x :: x in s[1..] ==> x in s;
      NotContainsMissingChar(s[1..], p, c);
    }
  }

  /** `s.lstrip()`: drops the leading whitespace and nothing else. */
  function TrimLeft(s: string): string {
    if |s| > 0 && IsSpace(s[0]) then TrimLeft(s[1..]) else s
  }

  /** `lstrip` keeps a suffix, cuts only whitespace, and leaves no leading whitespace. */
  lemma {:induction false} TrimLeftShape(s: string)
    ensures var r := TrimLeft(s);
      && |r| <= |s| && r == s[|s| - |r|..]
      && (forall i :: 0 <= i < |s| - |r| ==> IsSpace(s[i]))
      && (r == [] || !IsSpace(r[0]))
  {
    if |s| > 0 && IsSpace(s[0]) {
      TrimLeftShape(s[1..]);
    }
  }

  /** `s.rstrip()`: drops the trailing whitespace and nothing else. */
  function TrimRight(s: string): string {
    if |s| > 0 && IsSpace(s[|s| - 1]) then TrimRight(s[..|s| - 1]) else s
  }

  /** `rstrip` keeps a prefix, cuts only whitespace, and leaves no trailing whitespace. */
  lemma {:induction false} TrimRightShape(s: string)
    ensures var r := TrimRight(s);
      && |r| <= |s| && r == s[..|r|]
      && (forall i :: |r| <= i < |s| ==> IsSpace(s[i]))
      && (r == [] || !IsSpace(r[|r| - 1]))
  {
    if |s| > 0 && IsSpace(s[|s| - 1]) {
      TrimRightShape(s[..|s| - 1]);
    }
  }

  /** `s.strip()`. */
  function Strip(s: string): string {
    TrimRight(TrimLeft(s))
  }

  /** A leading blank makes no difference once stripped. */
  lemma StripLeadingBlank(s: string)
    ensures Strip(" " + s) == Strip(s)
  {
    assert (" " + s)[1..] == s;
  }

  /** `strip` returns a contiguous piece of its argument, with whitespace (and only whitespace) cut from both ends. */
  lemma StripIsTrimmedSlice(s: string)
    ensures exists i, j :: (0 <= i <= j <= |s| && Strip(s) == s[i..j]
      && (forall k :: 0 <= k < i ==> IsSpace(s[k]))
      && (forall k :: j <= k < |s| ==> IsSpace(s[k])))
    ensures Strip(s) == [] || (!IsSpace(Strip(s)[0]) && !IsSpace(Strip(s)[|Strip(s)| - 1]))
  {
    var t := TrimLeft(s);
    TrimLeftShape(s);
    TrimRightShape(t);
    var i := |s| - |t|;
    var j := i + |TrimRight(t)|;
    assert Strip(s) == s[i..j];
    assert forall k :: j <= k < |s| ==> s[k] == t[k - i];
  }

  /** A string that neither starts nor ends with whitespace is its own `strip`. */
  lemma StripUntrimmed(s: string)
    requires s != [] && !IsSpace(s[0]) && !IsSpace(s[|s| - 1])
    ensures Strip(s) == s
  {
  }

  /** `strip` never invents characters. */
  lemma StripChars(s: string, c: char)
    requires c in Strip(s)
    ensures c in s
  {
    StripIsTrimmedSlice(s);
  }

  /** A word of `split()`: a non-empty run without whitespace. */
  predicate IsWord(w: string) {
    w != [] && forall i :: 0 <= i < |w| ==> !IsSpace(w[i])
  }

  /** The length of the leading run of non-whitespace characters. */
  function WordLength(s: string): (n: nat)
    ensures n <= |s|
    ensures forall i :: 0 <= i < n ==> !IsSpace(s[i])
    ensures n < |s| ==> IsSpace(s[n])
  {
    if |s| == 0 || IsSpace(s[0]) then 0 else 1 + WordLength(s[1..])
  }

  /** `s.split()` with no separator: the maximal whitespace-free runs, in order. */
  function Words(s: string): seq<string>
    decreases |s|
  {
    var t := TrimLeft(s);
    TrimLeftShape(s);
    if t == [] then []
    else
      var n := WordLength(t);
      [t[..n]] + Words(t[n..])
  }

  /** The characters of `s` that are not whitespace. */
  function NonSpace(s: string): string {
    if s == [] then []
    else if IsSpace(s[0]) then NonSpace(s[1..])
    else [s[0]] + NonSpace(s[1..])
  }

  function Concat(ws: seq<string>): string {
    if ws == [] then [] else ws[0] + Concat(ws[1..])
  }

  lemma {:induction false} NonSpaceAppend(a: string, b: string)
    ensures NonSpace(a + b) == NonSpace(a) + NonSpace(b)
  {
    if a == [] {
      assert a + b == b;
    } else {
      assert (a + b)[0] == a[0];
      assert (a + b)[1..] == a[1..] + b;
      NonSpaceAppend(a[1..], b);
    }
  }

  lemma {:induction false} NonSpaceOfSpaces(s: string)
    requires forall i :: 0 <= i < |s| ==> IsSpace(s[i])
    ensures NonSpace(s) == []
  {
    if s != [] {
      NonSpaceOfSpaces(s[1..]);
    }
  }

  lemma {:induction false} NonSpaceOfWord(s: string)
    requires forall i :: 0 <= i < |s| ==> !IsSpace(s[i])
    ensures NonSpace(s) == s
  {
    if s != [] {
      NonSpaceOfWord(s[1..]);
    }
  }

  /** Leading whitespace contributes nothing to `NonSpace`. */
  lemma {:induction false} NonSpaceTrimLeft(s: string)
    ensures NonSpace(TrimLeft(s)) == NonSpace(s)
  {
    if |s| > 0 && IsSpace(s[0]) {
      NonSpaceTrimLeft(s[1..]);
    }
  }

  /** The leading word of a text passes through `NonSpace` whole. */
  lemma NonSpaceLeadingWord(t: string)
    ensures NonSpace(t) == t[..WordLength(t)] + NonSpace(t[WordLength(t)..])
  {
    var n := WordLength(t);
    assert t == t[..n] + t[n..];
    NonSpaceAppend(t[..n], t[n..]);
    NonSpaceOfWord(t[..n]);
  }

  /** `split()` loses only whitespace: gluing the words back together gives the text with its whitespace removed. */
  lemma {:induction false} WordsCoverText(s: string)
    ensures Concat(Words(s)) == NonSpace(s)
    decreases |s|
  {
    var t := TrimLeft(s);
    TrimLeftShape(s);
    NonSpaceTrimLeft(s);
    if t != [] {
      var n := WordLength(t);
      NonSpaceLeadingWord(t);
      WordsCoverText(t[n..]);
      assert Words(s) == [t[..n]] + Words(t[n..]);
    }
  }

  lemma {:induction false} WordLengthOfWord(w: string)
    requires forall i :: 0 <= i < |w| ==> !IsSpace(w[i])
    ensures WordLength(w) == |w|
  {
    if w != [] {
      WordLengthOfWord(w[1..]);
    }
  }

  /** A single word splits to itself. */
  lemma WordsOfWord(w: string)
    requires IsWord(w)
    ensures Words(w) == [w]
  {
    assert TrimLeft(w) == w;
    WordLengthOfWord(w);
    assert w[..|w|] == w;
    assert TrimLeft(w[|w|..]) == [];
  }

  /** A word followed by a blank and more text splits into that word and the words of the rest. */
  lemma WordsOfWordThen(w: string, rest: string)
    requires IsWord(w)
    ensures Words(w + " " + rest) == [w] + Words(rest)
  {
    var s := w + " " + rest;
    assert TrimLeft(s) == s;
    WordLengthThen(w, " " + rest);
    assert s == w + (" " + rest);
    assert s[..|w|] == w;
    assert s[|w|..] == " " + rest;
    assert TrimLeft(" " + rest) == TrimLeft(rest) by {
      assert (" " + rest)[1..] == rest;
    }
  }

  /** Two words joined by a blank split back into those two words. */
  lemma WordsOfTwo(x: string, y: string)
    requires IsWord(x) && IsWord(y)
    ensures Words(x + " " + y) == [x] + [y]
  {
    WordsOfWord(y);
    WordsOfWordThen(x, y);
  }

  /** Three words joined by blanks split back into those three words. */
  lemma WordsOfThree(x: string, y: string, z: string)
    requires IsWord(x) && IsWord(y) && IsWord(z)
    ensures Words(x + " " + y + " " + z) == [x] + ([y] + [z])
  {
    var yz := y + " " + z;
    JoinThree(x, y, z);
    WordsOfTwo(y, z);
    WordsOfWordThen(x, yz);
  }

  lemma JoinThree(x: string, y: string, z: string)
    ensures x + " " + y + " " + z == x + " " + (y + " " + z)
  {
  }

  lemma SecondOfThree<T>(ws: seq<T>, x: T, y: T, z: T)
    requires ws == [x] + ([y] + [z])
    ensures |ws| == 3 && ws[1] == y
  {
  }

  lemma {:induction false} WordLengthThen(w: string, rest: string)
    requires forall i :: 0 <= i < |w| ==> !IsSpace(w[i])
    requires rest != [] && IsSpace(rest[0])
    ensures WordLength(w + rest) == |w|
  {
    if w != [] {
      assert (w + rest)[1..] == w[1..] + rest;
      WordLengthThen(w[1..], rest);
    } else {
      assert w + rest == rest;
    }
  }

  /** `s.replace(p, '')`: removes the occurrences of `p` found scanning left to right, without re-scanning what was removed. */
  function RemoveAll(s: string, p: string): (r: string)
    requires p != []
    ensures |r| <= |s|
    decreases |s|
  {
    if |s| < |p| then s
    else if s[..|p|] == p then RemoveAll(s[|p|..], p)
    else [s[0]] + RemoveAll(s[1..], p)
  }

  /** Removing a piece that does not occur changes nothing. */
  lemma {:induction false} RemoveAllAbsent(s: string, p: string)
    requires p != [] && !Contains(s, p)
    ensures RemoveAll(s, p) == s
    decreases |s|
  {
    if |s| >= |p| {
      assert s[..|p|] != p;
      RemoveAllAbsent(s[1..], p);
      assert s == [s[0]] + s[1..];
    }
  }

  /** An occurrence at the very start is cut: removing `p` from `p + s` is removing it from `s`. */
  lemma RemoveAllPrefix(p: string, s: string)
    requires p != []
    ensures RemoveAll(p + s, p) == RemoveAll(s, p)
  {
    assert (p + s)[..|p|] == p && (p + s)[|p|..] == s;
  }

  /** A piece whose first character is not in `a` does not occur in `a + s` unless it occurs in `s`. */
  lemma {:induction false} AbsentAfterPrefix(a: string, s: string, p: string)
    requires p != [] && p[0] !in a && !Contains(s, p)
    ensures !Contains(a + s, p)
    decreases |a|
  {
    if a == [] {
      assert a + s == s;
    } else {
      assert (a + s)[0] == a[0] != p[0];
      assert (a + s)[1..] == a[1..] + s;
      AbsentAfterPrefix(a[1..], s, p);
    }
  }

  /** Removing never brings in a character that was not there. */
  lemma {:induction false} RemoveAllChars(s: string, p: string, c: char)
    requires p != [] && c in RemoveAll(s, p)
    ensures c in s
    decreases |s|
  {
    if |s| >= |p| {
      if s[..|p|] == p {
        RemoveAllChars(s[|p|..], p, c);
      } else if c != s[0] {
        RemoveAllChars(s[1..], p, c);
      }
    }
  }

  /** `sep.join(parts)`. */
  function Join(parts: seq<string>, sep: string): string {
    if parts == [] then []
    else if |parts| == 1 then parts[0]
    else parts[0] + sep + Join(parts[1..], sep)
  }

  /** `''.join(filter(str.isdigit, s))`. */
  function DigitsOf(s: string): (ds: string)
    ensures forall i :: 0 <= i < |ds| ==> IsDigit(ds[i])
  {
    if s == [] then []
    else if IsDigit(s[0]) then [s[0]] + DigitsOf(s[1..])
    else DigitsOf(s[1..])
  }

  function DigitValue(c: char): nat
    requires IsDigit(c)
  {
    c as int - '0' as int
  }

  /** The number a string of decimal digits denotes (leading zeros allowed, as `int` allows them). */
  function DecimalValue(ds: string): nat
    requires forall i :: 0 <= i < |ds| ==> IsDigit(ds[i])
  {
    if ds == [] then 0 else 10 * DecimalValue(ds[..|ds| - 1]) + DigitValue(ds[|ds| - 1])
  }

  /** Appending a digit shifts the value one decimal place. */
  lemma DecimalValueSnoc(ds: string, c: char)
    requires forall i :: 0 <= i < |ds| ==> IsDigit(ds[i])
    requires IsDigit(c)
    ensures DecimalValue(ds + [c]) == 10 * DecimalValue(ds) + DigitValue(c)
  {
    assert (ds + [c])[..|ds|] == ds;
  }

  /** `int(''.join(filter(str.isdigit, s)))`, where `int('')` raises. */
  function DigitRunValue(s: string): Option<nat> {
    var ds := DigitsOf(s);
    if ds == [] then None else Some(DecimalValue(ds))
  }

  function DigitChar(d: nat): (c: char)
    requires d < 10
    ensures IsDigit(c) && DigitValue(c) == d
  {
    ('0' as int + d) as char
  }

  /** `str(n)` for a natural number. */
  function NatToString(n: nat): (s: string)
    ensures s != []
    ensures forall i :: 0 <= i < |s| ==> IsDigit(s[i])
  {
    if n < 10 then [DigitChar(n)] else NatToString(n / 10) + [DigitChar(n % 10)]
  }

  /** Reading back a printed number gives the number. */
  lemma {:induction false} NatToStringValue(n: nat)
    ensures DecimalValue(NatToString(n)) == n
  {
    if n >= 10 {
      var s := NatToString(n);
      assert s[..|s| - 1] == NatToString(n / 10);
      NatToStringValue(n / 10);
    }
  }

  /** Filtering the digits of an all-digit string keeps it whole. */
  lemma {:induction false} DigitsOfDigits(s: string)
    requires forall i :: 0 <= i < |s| ==> IsDigit(s[i])
    ensures DigitsOf(s) == s
  {
    if s != [] {
      DigitsOfDigits(s[1..]);
      assert s == [s[0]] + s[1..];
    }
  }
}
