/** The password generator of src/windows/generator.py: the character set
    built from the check boxes, and a password of the slider's length drawn
    from it.  `random.choice` is the parameter `draw`: the i-th draw picks
    position `draw(i) % |chars|`. */
module Generator {
  import opened Text

  /** `string.ascii_uppercase`, `string.ascii_lowercase`, `string.digits`. */
  const Upper: string := CharRange('A', 26)
  const Lower: string := CharRange('a', 26)
  const Decimal: string := CharRange('0', 10)
  const Symbols: string := "!@#$%^&*"
  /** Characters that are easy to mistake for one another. */
  const Similar: string := "il1|o0O"
  /** Used when every box is cleared (or everything was removed). */
  const Fallback: string := "abc"

  const MinLength: nat := 4
  const MaxLength: nat := 64

  /** The five check boxes. */
  datatype Options = Options(upper: bool, lower: bool, digits: bool, symbols: bool, excludeSimilar: bool)

  /** A new window: every group on, similar characters kept, length 16. */
  const DefaultOptions := Options(true, true, true, true, false)
  const DefaultLength: nat := 16

  /** The `n` consecutive characters from `first` on. */
  function CharRange(first: char, n: nat): (r: string)
    requires first as int + n < 0xD800
    ensures |r| == n
    decreases n
  {
    if n == 0 then [] else [first] + CharRange((first as int + 1) as char, n - 1)
  }

  lemma {:induction false} CharRangeMembers(first: char, n: nat, c: char)
    requires first as int + n < 0xD800
    ensures c in CharRange(first, n) <==> first <= c && (c as int) < first as int + n
    decreases n
  {
    if n > 0 {
      CharRangeMembers((first as int + 1) as char, n - 1, c);
    }
  }

  /** The groups in the order `generate` appends them. */
  function Enabled(o: Options): string {
    Part(o.upper, Upper) + Part(o.lower, Lower) + Part(o.digits, Decimal) + Part(o.symbols, Symbols)
  }

  function Part(on: bool, group: string): string {
    if on then group else ""
  }

  /** Which characters the enabled groups contribute. */
  lemma EnabledMembers(o: Options, c: char)
    ensures c in Enabled(o) <==>
      (o.upper && IsAsciiUpper(c)) || (o.lower && IsAsciiLower(c))
      || (o.digits && IsDigit(c)) || (o.symbols && c in Symbols)
  {
    CharRangeMembers('A', 26, c);
    CharRangeMembers('a', 26, c);
    CharRangeMembers('0', 10, c);
  }

  /** `for char in cs: s = s.replace(char, "")`. */
  function RemoveAll(s: string, cs: string): (r: string)
    ensures |r| <= |s|
    decreases cs
  {
    if cs == [] then s else RemoveAll(RemoveChar(s, cs[0]), cs[1..])
  }

  /** What survives the removals: exactly the characters of `s` not in `cs`. */
  lemma {:induction false} RemoveAllMembers(s: string, cs: string, c: char)
    ensures c in RemoveAll(s, cs) <==> c in s && c !in cs
    decreases cs
  {
    if cs != [] {
      RemoveAllMembers(RemoveChar(s, cs[0]), cs[1..], c);
      assert c in cs <==> c == cs[0] || c in cs[1..];
    }
  }

  /** The set `generate` draws from. */
  function Charset(o: Options): (r: string)
    ensures r != []
  {
    var chars := if o.excludeSimilar then RemoveAll(Enabled(o), Similar) else Enabled(o);
    if chars == [] then Fallback else chars
  }

  /** A character is available iff its group is on and it is not excluded
      as similar; with nothing available the fallback "abc" is used. */
  lemma CharsetMembers(o: Options, c: char)
    ensures Charset(o) == Fallback
         || (c in Charset(o) <==> c in Enabled(o) && !(o.excludeSimilar && c in Similar))
  {
    RemoveAllMembers(Enabled(o), Similar, c);
  }

  /** Excluding similar characters leaves none of them in the set (whose
      fallback contains none either). */
  lemma CharsetAvoidsSimilar(o: Options, c: char)
    requires o.excludeSimilar && c in Similar
    ensures c !in Charset(o)
  {
    var chars := RemoveAll(Enabled(o), Similar);
    RemoveAllMembers(Enabled(o), Similar, c);
    assert c !in chars;
    assert c != 'a' && c != 'b' && c != 'c';
    assert c !in Fallback;
  }

  /** With every box cleared the set is exactly "abc". */
  lemma NothingEnabled(o: Options)
    requires !o.upper && !o.lower && !o.digits && !o.symbols
    ensures Charset(o) == Fallback
  {
  }

  /** The length a slider position gives: Tk keeps it within 4..64. */
  function SliderLength(position: int): (r: nat)
    ensures MinLength <= r <= MaxLength
    ensures MinLength <= position <= MaxLength ==> r == position
  {
    if position < MinLength as int then MinLength
    else if position > MaxLength as int then MaxLength
    else position
  }

  /** `''.join(random.choice(chars) for _ in range(length))`. */
  function Drawn(chars: string, length: nat, draw: nat -> nat): (r: string)
    requires chars != []
    ensures |r| == length
    ensures forall i :: 0 <= i < |r| ==> r[i] in chars
  {
    seq(length, i requires 0 <= i < length => chars[draw(i) % |chars|])
  }

  /** Any password of the right length over the set can be drawn: the
      generator misses none. */
  lemma EveryPasswordReachable(chars: string, pwd: string)
    requires chars != [] && forall i :: 0 <= i < |pwd| ==> pwd[i] in chars
    ensures exists draw: nat -> nat :: Drawn(chars, |pwd|, draw) == pwd
  {
    var pos := seq(|pwd|, i requires 0 <= i < |pwd| => PositionOf(chars, pwd[i]));
    var draw := (i: nat) => if i < |pos| then pos[i] else 0;
    var r := Drawn(chars, |pwd|, draw);
    forall i | 0 <= i < |pwd|
      ensures r[i] == pwd[i]
    {
      var k := PositionOf(chars, pwd[i]);
      assert draw(i) == k;
      SmallMod(k, |chars|);
    }
    assert r == pwd;
  }

  lemma SmallMod(k: nat, n: nat)
    requires k < n
    ensures k % n == k
  {
  }

  function PositionOf(s: string, c: char): (k: nat)
    requires c in s
    ensures k < |s| && s[k] == c
  {
    if s[0] == c then 0 else 1 + PositionOf(s[1..], c)
  }

  /** The entry a generated password is pasted into. */
  class Entry {
    var text: string
    /** Shown as dots (`show='•'`). */
    var masked: bool

    constructor (text: string, masked: bool)
      ensures this.text == text && this.masked == masked
    {
      this.text := text;
      this.masked := masked;
    }
  }

  class GeneratorWindow {
    /** The read-only field showing the last password. */
    var display: string
    /** The entry of the record form that opened the window, if any. */
    const target: Entry?

    /** Opening the window generates a first password at once. */
    constructor (target: Entry?, draw: nat -> nat)
      ensures this.target == target
      ensures display == Drawn(Charset(DefaultOptions), DefaultLength, draw)
    {
      this.target := target;
      display := "";
      new;
      Generate(DefaultLength, DefaultOptions, draw);
    }

    /** `generate`: build the set, then draw `length` characters into the
        display. */
    method Generate(length: nat, o: Options, draw: nat -> nat)
      modifies this`display
      ensures display == Drawn(Charset(o), length, draw)
    {
      var chars := BuildCharset(o);
      var pwd := DrawPassword(chars, length, draw);
      display := pwd;
    }

    /** `apply_password`: the target's whole text becomes the displayed
        password, shown in clear. */
    method ApplyPassword()
      modifies target
      ensures target != null ==> target.text == display && !target.masked
    {
      if target != null {
        target.text := display;
        target.masked := false;
      }
    }
  }

  /** The part of `generate` that builds `chars` with `+=` and `replace`. */
  method BuildCharset(o: Options) returns (chars: string)
    ensures chars == Charset(o)
  {
    chars := EnabledGroups(o);
    if o.excludeSimilar {
      chars := RemoveEach(chars, Similar);
    }
    if chars == [] {
      chars := Fallback;
    }
  }

  /** The four `+=` of `generate`. */
  method EnabledGroups(o: Options) returns (chars: string)
    ensures chars == Enabled(o)
  {
    chars := "";
    chars := AppendIf(chars, o.upper, Upper);
    assert chars == Part(o.upper, Upper);
    chars := AppendIf(chars, o.lower, Lower);
    chars := AppendIf(chars, o.digits, Decimal);
    chars := AppendIf(chars, o.symbols, Symbols);
  }

  /** The `replace` loop: one character of `cs` removed per step. */
  method RemoveEach(s: string, cs: string) returns (r: string)
    ensures r == RemoveAll(s, cs)
  {
    r := s;
    var i := 0;
    assert cs[i..] == cs;
    while i < |cs|
      invariant 0 <= i <= |cs|
      invariant RemoveAll(r, cs[i..]) == RemoveAll(s, cs)
    {
      assert cs[i..][0] == cs[i] && cs[i..][1..] == cs[i + 1..];
      r := RemoveChar(r, cs[i]);
      i := i + 1;
    }
  }

  /** `if on: chars += group`. */
  method AppendIf(chars: string, on: bool, group: string) returns (r: string)
    ensures r == chars + Part(on, group)
  {
    r := chars;
    if on {
      r := r + group;
    }
  }

  /** The drawing loop, one character per step. */
  method DrawPassword(chars: string, length: nat, draw: nat -> nat) returns (pwd: string)
    requires chars != []
    ensures pwd == Drawn(chars, length, draw)
  {
    pwd := "";
    var i := 0;
    while i < length
      invariant 0 <= i <= length && |pwd| == i
      invariant forall j :: 0 <= j < i ==> pwd[j] == chars[draw(j) % |chars|]
    {
      pwd := pwd + [chars[draw(i) % |chars|]];
      i := i + 1;
    }
  }

  /** Generating and pasting: the record's entry ends up holding exactly
      `length` characters of the set. */
  method GenerateAndApply(w: GeneratorWindow, position: int, o: Options, draw: nat -> nat)
    requires w.target != null
    modifies w, w.target
    ensures |w.target.text| == SliderLength(position)
    ensures forall i :: 0 <= i < |w.target.text| ==> w.target.text[i] in Charset(o)
  {
    w.Generate(SliderLength(position), o, draw);
    w.ApplyPassword();
  }
}
