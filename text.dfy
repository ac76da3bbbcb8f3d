/** The handful of Python string operations the vault relies on, written out
    over `seq<char>`: digit filtering, `strip`, `split`, `lower`, `title`,
    substring search, `str(int)` and the code-point order SQLite uses to
    compare TEXT values.  Only ASCII whitespace and digits are modelled; the
    letters folded by `lower` are ASCII and Cyrillic. */
module Text {
  import opened Wrappers

  // ---------------------------------------------------------------------
  // Character classes

  predicate IsDigit(c: char) { '0' <= c <= '9' }

  predicate IsAsciiUpper(c: char) { 'A' <= c <= 'Z' }
  predicate IsAsciiLower(c: char) { 'a' <= c <= 'z' }
  predicate IsAsciiLetter(c: char) { IsAsciiUpper(c) || IsAsciiLower(c) }

  /** Cyrillic capitals А..Я and Ё. */
  predicate IsCyrillicUpper(c: char) { ('А' <= c <= 'Я') || c == 'Ё' }
  /** Cyrillic small letters а..я and ё. */
  predicate IsCyrillicLower(c: char) { ('а' <= c <= 'я') || c == 'ё' }

  /** The ASCII characters for which Python's `str.isspace` holds. */
  predicate IsSpace(c: char) {
    c == ' ' || c == '\t' || c == '\n' || c == '\r' || c == '\U{B}' || c == '\U{C}'
    || ('\U{1C}' <= c <= '\U{1F}')
  }

  /** Python `s.isdigit()` restricted to ASCII digits: non-empty and all digits. */
  predicate IsDecimal(s: string) { |s| > 0 && forall i :: 0 <= i < |s| ==> IsDigit(s[i]) }

  // ---------------------------------------------------------------------
  // Filtering and searching

  /** `"".join(filter(str.isdigit, s))`. */
  function Digits(s: string): (r: string)
    ensures |r| <= |s|
    ensures forall i :: 0 <= i < |r| ==> IsDigit(r[i])
    ensures forall c :: c in s && IsDigit(c) ==> c in r
    ensures forall c :: c in r ==> c in s
  {
    if s == [] then []
    else (if IsDigit(s[0]) then [s[0]] else []) + Digits(s[1..])
  }

  /** The filter keeps every digit as often as it occurs in `s`, and
      nothing else: the count `len(digits)` is the number of digits. */
  lemma {:induction false} DigitsCounts(s: string)
    ensures forall c :: IsDigit(c) ==> multiset(Digits(s))[c] == multiset(s)[c]
    ensures forall c :: !IsDigit(c) ==> multiset(Digits(s))[c] == 0
  {
    if s != [] {
      DigitsCounts(s[1..]);
      assert s == [s[0]] + s[1..];
      assert multiset(s) == multiset([s[0]]) + multiset(s[1..]);
    }
  }

  /** One character is kept exactly when it is a digit. */
  lemma DigitsSingle(c: char)
    ensures Digits([c]) == if IsDigit(c) then [c] else []
  {
    assert [c][1..] == [];
  }

  lemma {:induction false} DigitsAppend(a: string, b: string)
    ensures Digits(a + b) == Digits(a) + Digits(b)
  {
    if a == [] {
      assert a + b == b;
    } else {
      assert (a + b)[1..] == a[1..] + b;
      DigitsAppend(a[1..], b);
    }
  }

  /** Every character of an all-digit string survives the filter. */
  lemma {:induction false} DigitsOfDecimal(s: string)
    requires forall i :: 0 <= i < |s| ==> IsDigit(s[i])
    ensures Digits(s) == s
  {
    if s != [] { DigitsOfDecimal(s[1..]); }
  }

  /** Python `sub in s`. */
  predicate Contains(s: string, sub: string) {
    exists i | 0 <= i <= |s| - |sub| :: OccursAt(s, sub, i)
  }

  /** `sub` occurs in `s` starting at index `i`. */
  predicate OccursAt(s: string, sub: string, i: int)
    requires 0 <= i <= |s| - |sub|
  {
    s[i..i + |sub|] == sub
  }

  lemma ContainsEmpty(s: string)
    ensures Contains(s, [])
  {
    assert OccursAt(s, [], 0);
  }

  lemma ContainsSelf(s: string)
    ensures Contains(s, s)
  {
    assert OccursAt(s, s, 0);
  }

  /** Python `s.startswith(p)`. */
  predicate StartsWith(s: string, p: string) { |p| <= |s| && s[..|p|] == p }

  /** Python `s.replace(c, "")` for a single character. */
  function RemoveChar(s: string, c: char): (r: string)
    ensures c !in r
    ensures forall x :: x in r <==> x in s && x != c
    ensures |r| <= |s|
  {
    if s == [] then [] else (if s[0] == c then [] else [s[0]]) + RemoveChar(s[1..], c)
  }

  /** Every other character is kept as often as it occurs; `c` not at all. */
  lemma {:induction false} RemoveCharCounts(s: string, c: char)
    ensures multiset(RemoveChar(s, c)) == multiset(s)[c := 0]
  {
    if s != [] {
      assert s == [s[0]] + s[1..];
      assert multiset(s) == multiset([s[0]]) + multiset(s[1..]);
      RemoveCharCounts(s[1..], c);
    }
  }

  /** The other characters keep their order: removing from a concatenation
      concatenates what is left of each part. */
  lemma {:induction false} RemoveCharAppend(a: string, b: string, c: char)
    ensures RemoveChar(a + b, c) == RemoveChar(a, c) + RemoveChar(b, c)
  {
    if a == [] {
      assert a + b == b;
      assert RemoveChar(a, c) == [];
      assert [] + RemoveChar(b, c) == RemoveChar(b, c);
    } else {
      assert (a + b)[0] == a[0] && (a + b)[1..] == a[1..] + b;
      var head := if a[0] == c then [] else [a[0]];
      var x, y := RemoveChar(a[1..], c), RemoveChar(b, c);
      assert RemoveChar(a + b, c) == head + RemoveChar(a[1..] + b, c);
      RemoveCharAppend(a[1..], b, c);
      assert RemoveChar(a, c) == head + x;
      assert head + (x + y) == (head + x) + y;
    }
  }

  /** A text without `c` is left as it is. */
  lemma {:induction false} RemoveCharAbsent(s: string, c: char)
    requires c !in s
    ensures RemoveChar(s, c) == s
  {
    if s != [] {
      assert c !in s[1..];
      RemoveCharAbsent(s[1..], c);
    }
  }

  /** Python `s.replace(a, b)` for single characters. */
  function ReplaceChar(s: string, a: char, b: char): (r: string)
    ensures |r| == |s|
    ensures a != b ==> a !in r
    ensures forall i :: 0 <= i < |s| ==> r[i] == s[i] || (s[i] == a && r[i] == b)
  {
    seq(|s|, i requires 0 <= i < |s| => if s[i] == a then b else s[i])
  }

  // ---------------------------------------------------------------------
  // strip and split

  function TrimStart(s: string): (r: string)
    ensures |r| <= |s| && r == s[|s| - |r|..]
    ensures r != [] ==> !IsSpace(r[0])
    ensures forall i :: 0 <= i < |s| - |r| ==> IsSpace(s[i])
  {
    if s != [] && IsSpace(s[0]) then TrimStart(s[1..]) else s
  }

  function TrimEnd(s: string): (r: string)
    ensures |r| <= |s| && r == s[..|r|]
    ensures r != [] ==> !IsSpace(r[|r| - 1])
    ensures forall i :: |r| <= i < |s| ==> IsSpace(s[i])
  {
    if s != [] && IsSpace(s[|s| - 1]) then TrimEnd(s[..|s| - 1]) else s
  }

  /** Python `s.strip()`: a piece of `s` that neither starts nor ends with
      whitespace; `StripCutsOnlySpace` says which piece. */
  function Strip(s: string): (r: string)
    ensures r != [] ==> !IsSpace(r[0]) && !IsSpace(r[|r| - 1])
  {
    TrimEnd(TrimStart(s))
  }

  /** The stripped text is a piece of the text. */
  lemma StripContained(s: string)
    ensures Contains(s, Strip(s))
  {
    var t := TrimStart(s);
    var w := TrimEnd(t);
    assert |t| <= |s| && t == s[|s| - |t|..];
    assert |w| <= |t| && w == t[..|w|];
    PrefixOfSuffix(s, t, w);
  }

  lemma StripShorter(s: string)
    ensures |Strip(s)| <= |s|
  {
    var t := TrimStart(s);
    assert |TrimEnd(t)| <= |t|;
  }

  /** `r` is the slice of `s` from index `k` on, everything before `k`
      and everything after the slice is whitespace, and the character at
      `k` is not. */
  predicate CutAt(s: string, r: string, k: nat) {
    k + |r| <= |s| && r == s[k..k + |r|]
    && (forall i :: 0 <= i < k ==> IsSpace(s[i]))
    && (forall i :: k + |r| <= i < |s| ==> IsSpace(s[i]))
    && (k < |s| ==> !IsSpace(s[k]))
  }

  /** Only whitespace is cut: `Strip(s)` is `s` cut at some `k`. */
  lemma StripCutsOnlySpace(s: string) returns (k: nat)
    ensures CutAt(s, Strip(s), k)
  {
    k := TrimCuts(s);
  }

  /** `StripCutsOnlySpace` on the two trims. */
  lemma TrimCuts(s: string) returns (k: nat)
    ensures CutAt(s, TrimEnd(TrimStart(s)), k)
  {
    var t := TrimStart(s);
    k := |s| - |t|;
    CutOfTrims(s, t, TrimEnd(t));
  }

  /** Cutting leading whitespace off `s` and then trailing whitespace off
      the rest cuts `s` at the end of the leading run. */
  lemma CutOfTrims(s: string, t: string, u: string)
    requires |t| <= |s| && t == s[|s| - |t|..] && (t != [] ==> !IsSpace(t[0]))
    requires forall i :: 0 <= i < |s| - |t| ==> IsSpace(s[i])
    requires |u| <= |t| && u == t[..|u|]
    requires forall i :: |u| <= i < |t| ==> IsSpace(t[i])
    ensures CutAt(s, u, |s| - |t|)
  {
    var k := |s| - |t|;
    forall i | k + |u| <= i < |s|
      ensures IsSpace(s[i])
    {
      assert s[i] == t[i - k];
    }
    if k < |s| {
      assert s[k] == t[0];
    }
    assert u == s[k..k + |u|];
  }

  /** One space before a character is cut. */
  lemma StripSpaceThen(c: char, d: char)
    requires IsSpace(c) && !IsSpace(d)
    ensures Strip([c, d]) == [d]
  {
    assert [c, d][1..] == [d];
    assert TrimStart([c, d]) == TrimStart([d]) == [d];
    assert TrimEnd([d]) == [d];
  }
  /** One space after a character is cut. */
  lemma StripThenSpace(d: char, c: char)
    requires !IsSpace(d) && IsSpace(c)
    ensures Strip([d, c]) == [d]
  {
    assert [d, c][..1] == [d];
  }

  /** An empty Entry and an empty Text box (which reads as one newline)
      both strip to nothing. */
  lemma StripBlank()
    ensures Strip("") == "" && Strip("\n") == ""
  {
    assert TrimStart("\n") == [];
  }

  /** A string with no whitespace at either end is its own strip. */
  lemma StripIdempotent(s: string)
    ensures Strip(Strip(s)) == Strip(s)
  {
    var r := Strip(s);
    assert TrimStart(r) == r;
    assert TrimEnd(r) == r;
  }

  /** `s.split()[0]`: the first whitespace-separated token, or None where
      Python would find no token. */
  function FirstToken(s: string): (r: Option<string>)
    ensures r.Some? ==> r.value != []
    ensures r.Some? ==> forall i :: 0 <= i < |r.value| ==> !IsSpace(r.value[i])
    ensures r.None? <==> forall i :: 0 <= i < |s| ==> IsSpace(s[i])
  {
    var t := TrimStart(s);
    if t == [] then None
    else
      assert s[|s| - |t|] == t[0];
      Some(Word(t))
  }

  /** The token is a piece of the text. */
  lemma FirstTokenContained(s: string)
    requires FirstToken(s).Some?
    ensures Contains(s, FirstToken(s).value)
  {
    var t := TrimStart(s);
    PrefixOfSuffix(s, t, Word(t));
  }

  /** The token is the first one: only whitespace comes before it, and it
      runs up to whitespace or to the end of the text. */
  lemma FirstTokenIsFirst(s: string) returns (k: nat)
    requires FirstToken(s).Some?
    ensures var w := FirstToken(s).value;
      k + |w| <= |s| && w == s[k..k + |w|]
      && (forall i :: 0 <= i < k ==> IsSpace(s[i]))
      && (k + |w| < |s| ==> IsSpace(s[k + |w|]))
  {
    var t := TrimStart(s);
    var w := Word(t);
    assert FirstToken(s) == Some(w);
    k := |s| - |t|;
    SliceOfSuffix(s, k, |w|);
    if k + |w| < |s| {
      assert s[k + |w|] == t[|w|];
    }
  }

  /** A prefix of a suffix of `s` occurs in `s`. */
  lemma PrefixOfSuffix(s: string, t: string, w: string)
    requires |t| <= |s| && t == s[|s| - |t|..] && |w| <= |t| && w == t[..|w|]
    ensures Contains(s, w)
  {
    var k := |s| - |t|;
    SliceOfSuffix(s, k, |w|);
    OccursContains(s, w, k);
  }

  lemma OccursContains(s: string, sub: string, k: int)
    requires 0 <= k <= |s| - |sub| && s[k..k + |sub|] == sub
    ensures Contains(s, sub)
  {
    assert OccursAt(s, sub, k);
  }

  lemma SliceOfSuffix(s: string, k: nat, n: nat)
    requires k + n <= |s|
    ensures s[k..][..n] == s[k..k + n]
  {
  }

  /** The longest prefix without whitespace. */
  function Word(s: string): (r: string)
    ensures |r| <= |s| && r == s[..|r|]
    ensures forall i :: 0 <= i < |r| ==> !IsSpace(s[i])
    ensures |r| < |s| ==> IsSpace(s[|r|])
    ensures s != [] && !IsSpace(s[0]) ==> r != []
  {
    if s == [] || IsSpace(s[0]) then [] else [s[0]] + Word(s[1..])
  }

  /** `s.split(c)[0]`: everything before the first `c`. */
  function BeforeFirst(s: string, c: char): (r: string)
    ensures |r| <= |s| && r == s[..|r|]
    ensures c !in r
    ensures |r| < |s| ==> s[|r|] == c
  {
    if s == [] || s[0] == c then [] else [s[0]] + BeforeFirst(s[1..], c)
  }

  // ---------------------------------------------------------------------
  // Case mapping

  /** Python `str.lower` on one character, for ASCII and Cyrillic letters. */
  function PyLowerChar(c: char): char {
    if IsAsciiUpper(c) then (c as int + 32) as char
    else if 'А' <= c <= 'Я' then (c as int + 32) as char
    else if c == 'Ё' then 'ё'
    else c
  }

  /** SQLite's built-in `lower()`: only ASCII letters are folded. */
  function SqlLowerChar(c: char): char {
    if IsAsciiUpper(c) then (c as int + 32) as char else c
  }

  /** Python `s.lower()`: no ASCII or Cyrillic capital is left, each one
      became its own small letter (32 code points on for A..Z and А..Я, ё
      for Ё), and every other character is unchanged. */
  function PyLower(s: string): (r: string)
    ensures |r| == |s|
    ensures forall i :: 0 <= i < |s| ==> !IsAsciiUpper(r[i]) && !IsCyrillicUpper(r[i])
    ensures forall i :: 0 <= i < |s| && !IsAsciiUpper(s[i]) && !IsCyrillicUpper(s[i]) ==> r[i] == s[i]
    ensures forall i :: 0 <= i < |s| && IsAsciiUpper(s[i]) ==> IsAsciiLower(r[i])
    ensures forall i :: 0 <= i < |s| && IsCyrillicUpper(s[i]) ==> IsCyrillicLower(r[i])
    ensures forall i :: 0 <= i < |s| && (IsAsciiUpper(s[i]) || 'А' <= s[i] <= 'Я') ==> r[i] as int == s[i] as int + 32
    ensures forall i :: 0 <= i < |s| && s[i] == 'Ё' ==> r[i] == 'ё'
  {
    seq(|s|, i requires 0 <= i < |s| => PyLowerChar(s[i]))
  }

  /** SQLite's `lower(s)`: no ASCII capital is left, each one became its
      own small letter (32 code points on), and every other character,
      Cyrillic capitals included, is unchanged. */
  function SqlLower(s: string): (r: string)
    ensures |r| == |s|
    ensures forall i :: 0 <= i < |s| ==> !IsAsciiUpper(r[i])
    ensures forall i :: 0 <= i < |s| && !IsAsciiUpper(s[i]) ==> r[i] == s[i]
    ensures forall i :: 0 <= i < |s| && IsAsciiUpper(s[i]) ==> IsAsciiLower(r[i])
    ensures forall i :: 0 <= i < |s| && IsAsciiUpper(s[i]) ==> r[i] as int == s[i] as int + 32
  {
    seq(|s|, i requires 0 <= i < |s| => SqlLowerChar(s[i]))
  }

  lemma PyLowerIdempotent(s: string)
    ensures PyLower(PyLower(s)) == PyLower(s)
  {
  }

  function UpperChar(c: char): char {
    if IsAsciiLower(c) then (c as int - 32) as char else c
  }

  function LowerAsciiChar(c: char): char {
    if IsAsciiUpper(c) then (c as int + 32) as char else c
  }

  /** Python `str.title` on ASCII text: only the case of letters changes;
      a letter that starts a word is a capital afterwards, and a letter that
      follows a letter is not. */
  function Title(s: string): (r: string)
    ensures |r| == |s|
    ensures forall i :: 0 <= i < |s| && !IsAsciiLetter(s[i]) ==> r[i] == s[i]
    ensures forall i :: 0 <= i < |s| && IsAsciiLetter(s[i]) ==> IsAsciiLetter(r[i]) && UpperChar(r[i]) == UpperChar(s[i])
    ensures forall i :: 0 <= i < |s| && IsAsciiLetter(r[i]) && (i == 0 || !IsAsciiLetter(r[i - 1])) ==> IsAsciiUpper(r[i])
    ensures forall i :: 0 < i < |s| && IsAsciiLetter(r[i]) && IsAsciiLetter(r[i - 1]) ==> IsAsciiLower(r[i])
  {
    seq(|s|, i requires 0 <= i < |s| =>
      if !IsAsciiLetter(s[i]) then s[i]
      else if i == 0 || !IsAsciiLetter(s[i - 1]) then UpperChar(s[i])
      else LowerAsciiChar(s[i]))
  }

  /** Title-casing a title-cased text changes nothing. */
  lemma TitleIdempotent(s: string)
    ensures Title(Title(s)) == Title(s)
  {
    var r := Title(s);
    var t := Title(r);
    forall i | 0 <= i < |s|
      ensures t[i] == r[i]
    {
      if IsAsciiLetter(r[i]) {
        if i == 0 || !IsAsciiLetter(r[i - 1]) {
          assert IsAsciiUpper(r[i]);
        } else {
          assert IsAsciiLower(r[i]);
        }
      }
    }
  }

  /** SQLite's `lower()` leaves every character outside ASCII as it is. */
  lemma SqlLowerKeepsNonAscii(s: string, i: nat)
    requires i < |s| && s[i] as int >= 128
    ensures SqlLower(s)[i] == s[i]
  {
  }

  // ---------------------------------------------------------------------
  // Numbers

  function DigitChar(d: nat): char
    requires d < 10
  {
    "0123456789"[d]
  }

  /** Python `str(n)` for a natural number. */
  function NatToString(n: nat): (r: string)
    ensures |r| > 0 && forall i :: 0 <= i < |r| ==> IsDigit(r[i])
    ensures n < 10 ==> |r| == 1
  {
    if n < 10 then [DigitChar(n)] else NatToString(n / 10) + [DigitChar(n % 10)]
  }

  function DigitValue(c: char): nat
    requires IsDigit(c)
  {
    c as int - '0' as int
  }

  /** The value of a string of decimal digits. */
  function DecimalValue(s: string): nat
    requires forall i :: 0 <= i < |s| ==> IsDigit(s[i])
  {
    if s == [] then 0 else DecimalValue(s[..|s| - 1]) * 10 + DigitValue(s[|s| - 1])
  }

  /** `str` and `int` are inverse on natural numbers. */
  lemma {:induction false} NatToStringRoundTrip(n: nat)
    ensures DecimalValue(NatToString(n)) == n
  {
    if n >= 10 {
      var s := NatToString(n / 10) + [DigitChar(n % 10)];
      assert s[..|s| - 1] == NatToString(n / 10);
      NatToStringRoundTrip(n / 10);
    }
  }

  /** Python `str(i)` for any integer. */
  function IntToString(i: int): string {
    if i < 0 then "-" + NatToString(-i) else NatToString(i)
  }

  /** Python `int(s)` on text: surrounding whitespace, an optional sign and
      at least one ASCII digit; None where Python raises.  Underscores
      between digits and non-ASCII digits are not accepted here. */
  function ParseInt(s: string): (r: Option<int>)
    ensures r.Some? ==> Strip(s) != []
  {
    SignedDecimal(Strip(s))
  }

  /** What `int()` accepts once the text is stripped: decimal digits,
      optionally after one sign, with the digits' value (negated after
      '-'). */
  function SignedDecimal(t: string): (r: Option<int>)
    ensures r.Some? <==> IsDecimal(t) || (|t| > 1 && (t[0] == '-' || t[0] == '+') && IsDecimal(t[1..]))
    ensures IsDecimal(t) ==> r == Some(DecimalValue(t))
    ensures |t| > 1 && t[0] == '-' && IsDecimal(t[1..]) ==> r == Some(0 - DecimalValue(t[1..]))
    ensures |t| > 1 && t[0] == '+' && IsDecimal(t[1..]) ==> r == Some(DecimalValue(t[1..]))
  {
    if t == [] then None
    else if t[0] == '-' && IsDecimal(t[1..]) then Some(0 - DecimalValue(t[1..]) as int)
    else if t[0] == '+' && IsDecimal(t[1..]) then Some(DecimalValue(t[1..]))
    else if IsDecimal(t) then Some(DecimalValue(t))
    else None
  }

  /** `int(str(i)) == i`. */
  lemma ParseIntRoundTrip(i: int)
    ensures ParseInt(IntToString(i)) == Some(i)
  {
    var n: nat := if i < 0 then -i else i;
    NatToStringRoundTrip(n);
    if i < 0 {
      ParseNegative(NatToString(n), n);
    } else {
      ParseUnsigned(NatToString(n));
    }
  }

  /** `int("-" + digits)` is the negated value of the digits. */
  lemma ParseNegative(digits: string, n: nat)
    requires IsDecimal(digits) && DecimalValue(digits) == n
    ensures ParseInt("-" + digits) == Some(0 - n)
  {
    var s := "-" + digits;
    assert s[1..] == digits;
    ParseSigned(s);
  }

  /** A minus sign followed by digits parses as the negated value. */
  lemma ParseSigned(t: string)
    requires |t| > 1 && t[0] == '-' && IsDecimal(t[1..]) && !IsSpace(t[|t| - 1])
    ensures ParseInt(t) == Some(0 - DecimalValue(t[1..]) as int)
  {
    assert t[|t| - 1] == t[1..][|t| - 2];
    StripUnchanged(t);
  }

  /** Digits alone parse as their value. */
  lemma ParseUnsigned(t: string)
    requires IsDecimal(t)
    ensures ParseInt(t) == Some(DecimalValue(t))
  {
    StripUnchanged(t);
    assert !IsDigit('-') && !IsDigit('+');
  }

  /** Text without whitespace at either end strips to itself. */
  lemma StripUnchanged(s: string)
    requires s != [] && !IsSpace(s[0]) && !IsSpace(s[|s| - 1])
    ensures Strip(s) == s
  {
    assert TrimStart(s) == s;
    assert TrimEnd(s) == s;
  }

  /** Text that is not a number, such as an empty field, does not parse. */
  lemma ParseIntRejects(s: string)
    requires forall i :: 0 <= i < |s| ==> !IsDigit(s[i])
    ensures ParseInt(s) == None
  {
    var t := Strip(s);
    StripContained(s);
    if t != [] {
      var k :| 0 <= k <= |s| - |t| && OccursAt(s, t, k);
      assert t[0] == s[k];
      if |t| > 1 {
        assert t[1] == s[k + 1];
      }
    }
  }

  // ---------------------------------------------------------------------
  // Code-point order (SQLite BINARY collation on UTF-8 TEXT)

  /** Three-way lexicographic comparison by code point: -1, 0 or 1. */
  function StrCmp(a: string, b: string): (r: int)
    ensures -1 <= r <= 1
    ensures r == 0 <==> a == b
  {
    if a == [] && b == [] then 0
    else if a == [] then -1
    else if b == [] then 1
    else if a[0] < b[0] then -1
    else if a[0] > b[0] then 1
    else
      assert a == [a[0]] + a[1..] && b == [b[0]] + b[1..];
      StrCmp(a[1..], b[1..])
  }

  lemma {:induction false} StrCmpAntisym(a: string, b: string)
    ensures StrCmp(a, b) == -StrCmp(b, a)
  {
    if a != [] && b != [] && a[0] == b[0] { StrCmpAntisym(a[1..], b[1..]); }
  }

  lemma {:induction false} StrCmpTrans(a: string, b: string, c: string)
    requires StrCmp(a, b) <= 0 && StrCmp(b, c) <= 0
    ensures StrCmp(a, c) <= 0
  {
    if a != [] && b != [] && c != [] && a[0] == b[0] && b[0] == c[0] {
      StrCmpTrans(a[1..], b[1..], c[1..]);
    }
  }
}
