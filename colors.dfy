/** `darken` in src/utils.py: the pressed-button shade of a `#rrggbb`
    colour.  The float factor is an exact fraction `num/den`; the default
    0.8 is 4/5. */
module Colors {
  import opened Wrappers
  import opened Text

  /** Returned for a colour that does not start with '#'. */
  const Fallback: string := "#cccccc"

  /** The default factor 0.8 as a fraction. */
  const DefaultNum: nat := 4
  const DefaultDen: nat := 5

  /** The value of one hexadecimal digit, either case. */
  function HexValue(c: char): (r: Option<nat>)
    ensures r.Some? ==> r.value < 16
  {
    if '0' <= c <= '9' then Some(c as int - '0' as int)
    else if 'a' <= c <= 'f' then Some(c as int - 'a' as int + 10)
    else if 'A' <= c <= 'F' then Some(c as int - 'A' as int + 10)
    else None
  }

  /** The lower-case digit `format` writes for `n`. */
  function HexDigit(n: nat): (c: char)
    requires n < 16
    ensures HexValue(c) == Some(n)
    ensures IsLowerHex(c)
  {
    if n < 10 then ('0' as int + n) as char else ('a' as int + n - 10) as char
  }

  predicate IsLowerHex(c: char) { '0' <= c <= '9' || 'a' <= c <= 'f' }

  /** Non-empty text made of hexadecimal digits of either case. */
  predicate IsHexText(t: string) { t != [] && forall i :: 0 <= i < |t| ==> HexValue(t[i]).Some? }

  /** The value of at most two hexadecimal digits; None for the empty text
      or a character that is not a hex digit. */
  function HexDigits(t: string): (r: Option<nat>)
    requires |t| <= 2
    ensures r.Some? <==> IsHexText(t)
    ensures r.Some? ==> r.value < 256
    ensures r.Some? && |t| == 1 ==> r.value == HexValue(t[0]).value
    ensures r.Some? && |t| == 2 ==> r.value == 16 * HexValue(t[0]).value + HexValue(t[1]).value
  {
    if t == [] then None
    else if |t| == 1 then HexValue(t[0])
    else if HexValue(t[0]).Some? && HexValue(t[1]).Some? then
      Some(16 * HexValue(t[0]).value + HexValue(t[1]).value)
    else None
  }

  /** `int(t, 16)` on stripped text: one '+' or '-' may come first, and
      at least one hex digit must follow. */
  function SignedHex(t: string): (r: Option<int>)
    requires |t| <= 2
    ensures r.Some? ==> -16 < r.value < 256
    ensures r.Some? <==> IsHexText(t) || (|t| > 1 && (t[0] == '-' || t[0] == '+') && IsHexText(t[1..]))
    ensures IsHexText(t) ==> r == HexDigits(t)
  {
    if |t| > 1 && (t[0] == '-' || t[0] == '+') then
      match HexDigits(t[1..])
      case Some(n) => Some(if t[0] == '-' then 0 - n else n)
      case None => None
    else
      HexDigits(t)
  }

  /** `int(s, 16)` on a slice of at most two characters: surrounding
      whitespace is ignored, then `SignedHex` decides; None where Python
      raises.  The `0x` prefix and underscores need more characters than a
      slice holds. */
  function ParseHex(s: string): (r: Option<int>)
    requires |s| <= 2
    ensures r.Some? ==> -16 < r.value < 256
  {
    StripShorter(s);
    SignedHex(Strip(s))
  }

  /** A slice of hex digits alone parses as their value. */
  lemma ParseHexOfDigits(s: string)
    requires |s| <= 2 && IsHexText(s)
    ensures ParseHex(s) == HexDigits(s)
  {
    StripUnchanged(s);
  }

  /** Lower-case hexadecimal without padding. */
  function ToHex(n: nat): (r: string)
    ensures |r| >= 1
    ensures n < 256 ==> |r| <= 2
    ensures forall i :: 0 <= i < |r| ==> IsLowerHex(r[i])
    decreases n
  {
    if n < 16 then [HexDigit(n)] else ToHex(n / 16) + [HexDigit(n % 16)]
  }

  /** `format(n, '02x')`: lower-case hexadecimal padded with zeros to two
      characters; a negative number is '-' and its digits, which already
      fill the width. */
  function Hex2(n: int): (r: string)
    ensures |r| >= 2
    ensures n >= 0 ==> forall i :: 0 <= i < |r| ==> IsLowerHex(r[i])
    ensures n < 0 ==> r[0] == '-' && forall i :: 1 <= i < |r| ==> IsLowerHex(r[i])
    ensures HexOrMinus(r)
    ensures -16 < n < 256 ==> |r| == 2
  {
    if n < 0 then "-" + ToHex(-n)
    else if n < 16 then ['0', HexDigit(n)] else ToHex(n)
  }

  /** Formatting a number `int(s, 16)` of a slice can give, and parsing it
      back, gives the number. */
  lemma Hex2RoundTrip(n: int)
    requires -16 < n < 256
    ensures ParseHex(Hex2(n)) == Some(n)
  {
    if n < 0 {
      NegativeHex2(-n);
    } else {
      Hex2Digits(n);
      ParseHexOfDigits(Hex2(n));
    }
  }

  lemma NegativeHex2(m: nat)
    requires 0 < m < 16
    ensures ParseHex(Hex2(0 - m)) == Some(0 - m)
  {
    var h := Hex2(0 - m);
    assert h == ['-', HexDigit(m)];
    StripUnchanged(h);
    assert h[1..] == [HexDigit(m)];
  }

  /** Parsing a lower-case two-digit pair and formatting it back gives the pair. */
  lemma ParseHexRoundTrip(s: string)
    requires |s| == 2 && IsLowerHex(s[0]) && IsLowerHex(s[1])
    ensures ParseHex(s).Some? && Hex2(ParseHex(s).value) == s
  {
    var hi := HexValue(s[0]).value;
    var lo := HexValue(s[1]).value;
    assert IsHexText(s);
    ParseHexOfDigits(s);
    HexDigitOfValue(s[0]);
    HexDigitOfValue(s[1]);
    Hex2OfPair(hi, lo);
    assert s == [s[0], s[1]];
  }

  /** `format(16 * hi + lo, '02x')` writes the digit of `hi`, then that of `lo`. */
  lemma Hex2OfPair(hi: nat, lo: nat)
    requires hi < 16 && lo < 16
    ensures Hex2(16 * hi + lo) == [HexDigit(hi), HexDigit(lo)]
  {
    var n := 16 * hi + lo;
    assert n / 16 == hi && n % 16 == lo;
    if hi > 0 {
      assert ToHex(hi) == [HexDigit(hi)];
    }
  }

  /** A space before or after a digit is ignored: " a" and "a " are 10. */
  lemma ParseSpaced(s: string, d: char)
    requires |s| == 2 && HexValue(d).Some?
    requires (s[0] == ' ' && s[1] == d) || (s[0] == d && s[1] == ' ')
    ensures ParseHex(s) == Some(HexValue(d).value)
  {
    if s[0] == ' ' {
      assert s == [' ', d];
      ParseSpaceThenDigit(d);
    } else {
      assert s == [d, ' '];
      ParseDigitThenSpace(d);
    }
  }

  lemma ParseSpaceThenDigit(d: char)
    requires HexValue(d).Some?
    ensures ParseHex([' ', d]) == Some(HexValue(d).value)
  {
    StripSpaceThen(' ', d);
    SingleHexDigit(d);
  }

  lemma ParseDigitThenSpace(d: char)
    requires HexValue(d).Some?
    ensures ParseHex([d, ' ']) == Some(HexValue(d).value)
  {
    StripThenSpace(d, ' ');
    SingleHexDigit(d);
  }

  lemma SingleHexDigit(d: char)
    requires HexValue(d).Some?
    ensures SignedHex([d]) == Some(HexValue(d).value)
  {
    assert IsHexText([d]);
  }

  /** A sign before a digit is taken: "-f" is -15 and "+a" is 10. */
  lemma ParseSigned(s: string, d: char)
    requires |s| == 2 && (s[0] == '-' || s[0] == '+') && s[1] == d && HexValue(d).Some?
    ensures ParseHex(s) == Some(if s[0] == '-' then 0 - HexValue(d).value else HexValue(d).value)
  {
    StripUnchanged(s);
    assert s[1..] == [d];
  }

  /** Blanks raise. */
  lemma ParseBlank(s: string)
    requires |s| <= 2 && forall i :: 0 <= i < |s| ==> IsSpace(s[i])
    ensures ParseHex(s) == None
  {
    var k := StripCutsOnlySpace(s);
  }

  /** A sign without a digit raises, and so does "0x". */
  lemma ParseSignOrPrefixAlone(s: string)
    requires s == "-" || s == "+" || s == "0x"
    ensures ParseHex(s) == None
  {
    if s == "0x" {
      assert s[0] == '0' && s[1] == 'x';
    } else {
      assert |s| == 1 && (s[0] == '-' || s[0] == '+');
    }
    EndsInNonDigit(s);
  }

  /** A short text with no surrounding space, no sign before a second
      character and a last character that is not a hex digit raises. */
  lemma EndsInNonDigit(s: string)
    requires 0 < |s| <= 2 && !IsSpace(s[0]) && !IsSpace(s[|s| - 1]) && HexValue(s[|s| - 1]).None?
    requires !(|s| > 1 && (s[0] == '-' || s[0] == '+'))
    ensures ParseHex(s) == None
  {
    StripUnchanged(s);
    assert !IsHexText(s);
  }

  lemma HexDigitOfValue(c: char)
    requires IsLowerHex(c)
    ensures HexDigit(HexValue(c).value) == c
  {
  }

  /** `s.lstrip(c)`. */
  function LStrip(s: string, c: char): (r: string)
    ensures |r| <= |s| && r == s[|s| - |r|..]
    ensures r == [] || r[0] != c
    ensures forall i :: 0 <= i < |s| - |r| ==> s[i] == c
  {
    if s != [] && s[0] == c then
      var r := LStrip(s[1..], c);
      assert s[1..][|s| - 1 - |r|..] == s[|s| - |r|..];
      assert forall i :: 1 <= i < |s| - |r| ==> s[i] == s[1..][i - 1];
      r
    else s
  }

  /** Python `s[i:j]` for 0 <= i <= j: the bounds are clipped to the length. */
  function Slice(s: string, i: nat, j: nat): (r: string)
    requires i <= j
    ensures |r| <= j - i
    ensures j <= |s| ==> r == s[i..j]
  {
    var hi := if j <= |s| then j else |s|;
    var lo := if i <= hi then i else hi;
    s[lo..hi]
  }

  /** `int(c * factor)` for a channel: the float product truncated toward
      zero, so the floor for a non-negative channel and the negated floor
      of `-c` for a negative one. */
  function Scale(c: int, num: nat, den: nat): (r: int)
    requires den > 0
    ensures c >= 0 ==> r >= 0 && r * den <= c * num < (r + 1) * den
    ensures c < 0 ==> r <= 0 && (-r) * den <= (-c) * num < (-r + 1) * den
    ensures num <= den ==> -c <= r <= c || c <= r <= -c
  {
    if c >= 0 then Floor(c, num, den) else 0 - Floor(-c, num, den)
  }

  /** `c * num / den` on a non-negative channel: the floor of the product,
      never above `c` for a factor at most 1. */
  function Floor(c: nat, num: nat, den: nat): (r: nat)
    requires den > 0
    ensures num <= den ==> r <= c
    ensures r * den <= c * num < (r + 1) * den
  {
    c * num / den
  }

  /** The three channels `darken` reads after stripping the '#'s. */
  function Channels(color: string): (r: Option<(int, int, int)>)
  {
    var h := LStrip(color, '#');
    var r := ParseHex(Slice(h, 0, 2));
    var g := ParseHex(Slice(h, 2, 4));
    var b := ParseHex(Slice(h, 4, 6));
    if r.Some? && g.Some? && b.Some? then Some((r.value, g.value, b.value)) else None
  }

  /** Lower-case hex digits and minus signs only. */
  predicate HexOrMinus(t: string) { forall i :: 0 <= i < |t| ==> IsLowerHex(t[i]) || t[i] == '-' }

  /** `f"#{r:02x}{g:02x}{b:02x}"`: '#' and three formatted channels. */
  function Format(r: int, g: int, b: int): (out: string)
    ensures |out| >= 7 && out[0] == '#' && HexOrMinus(out[1..])
  {
    var body := Hex2(r) + Hex2(g) + Hex2(b);
    HexOrMinusConcat(Hex2(r), Hex2(g));
    HexOrMinusConcat(Hex2(r) + Hex2(g), Hex2(b));
    assert ("#" + body)[1..] == body;
    "#" + body
  }

  lemma HexOrMinusConcat(a: string, b: string)
    requires HexOrMinus(a) && HexOrMinus(b)
    ensures HexOrMinus(a + b)
  {
    forall i | 0 <= i < |a + b|
      ensures IsLowerHex((a + b)[i]) || (a + b)[i] == '-'
    {
      if i < |a| { assert (a + b)[i] == a[i]; } else { assert (a + b)[i] == b[i - |a|]; }
    }
  }

  /** `darken(color, num/den)`: None where `int(..., 16)` raises. */
  function Darken(color: string, num: nat, den: nat): (r: Option<string>)
    requires den > 0
    ensures !StartsWith(color, "#") ==> r == Some(Fallback)
    ensures StartsWith(color, "#") ==> (r.None? <==> Channels(color).None?)
    ensures r.Some? ==> |r.value| >= 7 && r.value[0] == '#'
    ensures r.Some? ==> HexOrMinus(r.value[1..])
  {
    if !StartsWith(color, "#") then Some(Fallback)
    else match Channels(color)
      case None => None
      case Some((red, green, blue)) =>
        Some(Format(Scale(red, num, den), Scale(green, num, den), Scale(blue, num, den)))
  }

  /** A well-formed `#rrggbb`: '#' and six hex digits of either case. */
  predicate IsColor(s: string) {
    |s| == 7 && s[0] == '#' && forall i :: 1 <= i < 7 ==> HexValue(s[i]).Some?
  }

  function PairValue(s: string, i: nat): nat
    requires IsColor(s) && 1 <= i <= 5
  {
    16 * HexValue(s[i]).value + HexValue(s[i + 1]).value
  }

  /** For "#RRGGBB" each channel comes from its own digit pair. */
  lemma ChannelsOfColor(s: string)
    requires IsColor(s)
    ensures Channels(s) == Some((PairValue(s, 1), PairValue(s, 3), PairValue(s, 5)))
  {
    assert HexValue(s[1]).Some?;
    ChannelsOfPairs(s);
    PairParses(s, 1);
    PairParses(s, 3);
    PairParses(s, 5);
  }

  lemma PairParses(s: string, i: nat)
    requires IsColor(s) && 1 <= i <= 5
    ensures ParseHex(s[i..i + 2]) == Some(PairValue(s, i))
  {
    var p := s[i..i + 2];
    assert p[0] == s[i] && p[1] == s[i + 1];
    assert IsHexText(p);
    ParseHexOfDigits(p);
  }

  /** On a well-formed colour with factor at most 1, the result is again a
      well-formed colour in lower case, and each channel is the scaled input
      channel, never brighter than it. */
  lemma DarkenColor(s: string, num: nat, den: nat)
    requires IsColor(s) && 0 < den && num <= den
    ensures Darken(s, num, den).Some?
    ensures IsColor(Darken(s, num, den).value)
    ensures Channels(Darken(s, num, den).value)
         == Some((Scale(PairValue(s, 1), num, den), Scale(PairValue(s, 3), num, den),
                  Scale(PairValue(s, 5), num, den)))
    ensures Scale(PairValue(s, 1), num, den) <= PairValue(s, 1)
    ensures Scale(PairValue(s, 3), num, den) <= PairValue(s, 3)
    ensures Scale(PairValue(s, 5), num, den) <= PairValue(s, 5)
  {
    DarkenChannels(s, num, den);
  }

  /** The darkened colour is well formed and carries the scaled channels. */
  lemma DarkenChannels(s: string, num: nat, den: nat)
    requires IsColor(s) && 0 < den && num <= den
    ensures Darken(s, num, den).Some?
    ensures IsColor(Darken(s, num, den).value)
    ensures Channels(Darken(s, num, den).value)
         == Some((Scale(PairValue(s, 1), num, den), Scale(PairValue(s, 3), num, den),
                  Scale(PairValue(s, 5), num, den)))
  {
    var r := Scale(PairValue(s, 1), num, den);
    var g := Scale(PairValue(s, 3), num, den);
    var b := Scale(PairValue(s, 5), num, den);
    assert 0 <= r < 256 && 0 <= g < 256 && 0 <= b < 256;
    DarkenFormats(s, num, den);
    FormatPairs(r, g, b);
    ChannelsOfColor(Format(r, g, b));
  }

  /** A well-formed colour is darkened channel by channel and formatted. */
  lemma DarkenFormats(s: string, num: nat, den: nat)
    requires IsColor(s) && 0 < den
    ensures Darken(s, num, den)
         == Some(Format(Scale(PairValue(s, 1), num, den), Scale(PairValue(s, 3), num, den),
                        Scale(PairValue(s, 5), num, den)))
  {
    var r, g, b := PairValue(s, 1), PairValue(s, 3), PairValue(s, 5);
    assert Channels(s) == Some((r, g, b)) by { ChannelsOfColor(s); }
    assert StartsWith(s, "#") by { assert s[..1] == "#"; }
    DarkenOfChannels(s, num, den, r, g, b);
  }

  lemma DarkenOfChannels(color: string, num: nat, den: nat, r: int, g: int, b: int)
    requires 0 < den && StartsWith(color, "#") && Channels(color) == Some((r, g, b))
    ensures Darken(color, num, den) == Some(Format(Scale(r, num, den), Scale(g, num, den), Scale(b, num, den)))
  {
  }

  lemma FormatPairs(r: nat, g: nat, b: nat)
    requires r < 256 && g < 256 && b < 256
    ensures IsColor(Format(r, g, b))
    ensures PairValue(Format(r, g, b), 1) == r
    ensures PairValue(Format(r, g, b), 3) == g
    ensures PairValue(Format(r, g, b), 5) == b
  {
    var s := Format(r, g, b);
    Hex2Digits(r);
    Hex2Digits(g);
    Hex2Digits(b);
    assert s[1..3] == Hex2(r);
    assert s[3..5] == Hex2(g);
    assert s[5..7] == Hex2(b);
  }

  /** The two digits `format(n, '02x')` writes for a channel read back as
      the channel. */
  lemma Hex2Digits(n: nat)
    requires n < 256
    ensures |Hex2(n)| == 2 && IsHexText(Hex2(n))
    ensures 16 * HexValue(Hex2(n)[0]).value + HexValue(Hex2(n)[1]).value == n
  {
    if n >= 16 {
      assert ToHex(n / 16) == [HexDigit(n / 16)];
    }
  }

  /** With factor 1 a lower-case colour is returned unchanged. */
  lemma DarkenByOne(s: string)
    requires IsColor(s) && forall i :: 1 <= i < 7 ==> IsLowerHex(s[i])
    ensures Darken(s, 1, 1) == Some(s)
  {
    ChannelsOfColor(s);
    FormatOfPairs(s);
    var r, g, b := PairValue(s, 1), PairValue(s, 3), PairValue(s, 5);
    assert Scale(r, 1, 1) == r && Scale(g, 1, 1) == g && Scale(b, 1, 1) == b;
    assert s[..1] == "#";
    assert Darken(s, 1, 1) == Some(Format(r, g, b));
  }

  lemma FormatOfPairs(s: string)
    requires IsColor(s) && forall i :: 1 <= i < 7 ==> IsLowerHex(s[i])
    ensures Format(PairValue(s, 1), PairValue(s, 3), PairValue(s, 5)) == s
  {
    PairHex(s, 1);
    PairHex(s, 3);
    PairHex(s, 5);
    assert s == "#" + s[1..3] + s[3..5] + s[5..7];
  }

  lemma PairHex(s: string, i: nat)
    requires IsColor(s) && 1 <= i <= 5 && IsLowerHex(s[i]) && IsLowerHex(s[i + 1])
    ensures Hex2(PairValue(s, i)) == s[i..i + 2]
  {
    var p := s[i..i + 2];
    assert p[0] == s[i] && p[1] == s[i + 1];
    PairParses(s, i);
    ParseHexRoundTrip(p);
  }

  /** A sign inside a pair goes through `int(s, 16)`: "#-f0000" darkens
      to "#-c0000". */
  lemma DarkenSigned(minus: string)
    requires minus == "#-f0000"
    ensures Darken(minus, DefaultNum, DefaultDen) == Some("#-c0000")
  {
    assert minus[1..3] == "-f" && minus[3..5] == "00" && minus[5..7] == "00";
    assert ParseHex(minus[1..3]) == Some(-15) by { ParseSigned("-f", 'f'); }
    assert ParseHex(minus[3..5]) == Some(0) by { ZeroPair(); }
    DarkenOf(minus, "-f", "00", "00", -15, 0, 0);
    ScaledPairs();
  }

  /** So does a space: "# a0000" darkens to "#080000". */
  lemma DarkenSpaced(spaced: string)
    requires spaced == "# a0000"
    ensures Darken(spaced, DefaultNum, DefaultDen) == Some("#080000")
  {
    assert spaced[1..3] == " a" && spaced[3..5] == "00" && spaced[5..7] == "00";
    assert ParseHex(spaced[1..3]) == Some(10) by { ParseSpaced(spaced[1..3], 'a'); }
    assert ParseHex(spaced[3..5]) == Some(0) by { ZeroPair(); }
    DarkenOf(spaced, " a", "00", "00", 10, 0, 0);
    ScaledPairs();
  }

  /** `darken` of '#' and three pairs reads each pair on its own. */
  lemma DarkenOf(color: string, p1: string, p2: string, p3: string, v1: int, v2: int, v3: int)
    requires |color| == 7 && color[0] == '#' && color[1] != '#'
    requires p1 == color[1..3] && p2 == color[3..5] && p3 == color[5..7]
    requires |p1| <= 2 && |p2| <= 2 && |p3| <= 2
    requires ParseHex(p1) == Some(v1) && ParseHex(p2) == Some(v2) && ParseHex(p3) == Some(v3)
    ensures Darken(color, DefaultNum, DefaultDen)
         == Some(Format(Scale(v1, DefaultNum, DefaultDen), Scale(v2, DefaultNum, DefaultDen), Scale(v3, DefaultNum, DefaultDen)))
  {
    ChannelsOfPairs(color);
    assert color[..1] == "#";
  }

  /** -15 and 10 scaled by 0.8 are -12 and 8, written "-c" and "08", and
      the colours these give are "#-c0000" and "#080000". */
  lemma ScaledPairs()
    ensures Scale(-15, DefaultNum, DefaultDen) == -12 && Hex2(-12) == "-c"
    ensures Scale(10, DefaultNum, DefaultDen) == 8 && Hex2(8) == "08"
    ensures Scale(0, DefaultNum, DefaultDen) == 0
    ensures Format(-12, 0, 0) == "#-c0000" && Format(8, 0, 0) == "#080000"
  {
    assert Floor(15, 4, 5) == 12;
    assert ToHex(12) == [HexDigit(12)] == "c";
    assert Floor(10, 4, 5) == 8;
    assert Floor(0, 4, 5) == 0;
    assert Hex2(0) == "00";
  }

  lemma ZeroPair()
    ensures ParseHex("00") == Some(0) && Hex2(0) == "00"
  {
    assert IsHexText("00");
    ParseHexOfDigits("00");
  }

  lemma ChannelsOfPairs(color: string)
    requires |color| == 7 && color[0] == '#' && color[1] != '#'
    ensures var h := LStrip(color, '#');
      Slice(h, 0, 2) == color[1..3] && Slice(h, 2, 4) == color[3..5] && Slice(h, 4, 6) == color[5..7]
  {
    var h := color[1..];
    assert LStrip(h, '#') == h;
    assert LStrip(color, '#') == h;
  }

  /** When fewer than five characters follow the '#'s, the last slice is
      empty and `int('', 16)` raises. */
  lemma DarkenShort(s: string, num: nat, den: nat)
    requires 0 < den && StartsWith(s, "#") && |LStrip(s, '#')| <= 4
    ensures Darken(s, num, den).None?
  {
  }
}
