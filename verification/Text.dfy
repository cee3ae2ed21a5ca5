/** Trimming and folding of names and the reading of integers, as several components do them.
    The tables of characters are those of Unicode 15.0. */
module Text {
  /** The characters a trim removes: spaces, or what a strip without arguments removes. */
  datatype Blanks = Spaces | WhiteSpace

  predicate IsBlank(c: char, blanks: Blanks) {
    var n := c as int;
    || c == ' '
    || (blanks.WhiteSpace? &&
        (|| 0x9 <= n <= 0xD || 0x1C <= n <= 0x1F || n == 0x85 || n == 0xA0 || n == 0x1680 || 0x2000 <= n <= 0x200A
         || n == 0x2028 || n == 0x2029 || n == 0x202F || n == 0x205F || n == 0x3000))
  }

  predicate AllIn(s: string, blanks: Blanks) {
    forall k :: 0 <= k < |s| ==> IsBlank(s[k], blanks)
  }

  function TrimLeft(s: string, blanks: Blanks): (r: string)
    ensures r != "" ==> !IsBlank(r[0], blanks)
    ensures r == "" <==> AllIn(s, blanks)
  {
    if s != "" && IsBlank(s[0], blanks) then TrimLeft(s[1..], blanks) else s
  }

  function TrimRight(s: string, blanks: Blanks): (r: string)
    ensures r <= s
    ensures r != "" ==> !IsBlank(r[|r| - 1], blanks)
    ensures r == "" <==> AllIn(s, blanks)
  {
    if s != "" && IsBlank(s[|s| - 1], blanks) then TrimRight(s[..|s| - 1], blanks) else s
  }

  function Trim(s: string, blanks: Blanks): string {
    TrimRight(TrimLeft(s, blanks), blanks)
  }

  /** Trimming every kind of white space. */
  function Strip(s: string): string {
    Trim(s, WhiteSpace)
  }

  predicate Bare(s: string, blanks: Blanks) {
    s == "" || (!IsBlank(s[0], blanks) && !IsBlank(s[|s| - 1], blanks))
  }

  lemma TrimBare(s: string, blanks: Blanks)
    ensures Bare(Trim(s, blanks), blanks)
    ensures Trim(s, blanks) == "" <==> AllIn(s, blanks)
  {
    var t := TrimLeft(s, blanks);
    if t != "" && TrimRight(t, blanks) != "" { assert TrimRight(t, blanks)[0] == t[0]; }
  }

  lemma BareTrimmed(s: string, blanks: Blanks)
    requires Bare(s, blanks)
    ensures Trim(s, blanks) == s
  {
  }

  lemma {:induction false} TrimLeftParts(s: string, blanks: Blanks) returns (a: string)
    ensures s == a + TrimLeft(s, blanks) && AllIn(a, blanks)
  {
    a := "";
    if s != "" && IsBlank(s[0], blanks) {
      var rest := TrimLeftParts(s[1..], blanks);
      a := [s[0]] + rest;
    }
  }

  lemma {:induction false} TrimRightParts(s: string, blanks: Blanks) returns (z: string)
    ensures s == TrimRight(s, blanks) + z && AllIn(z, blanks)
  {
    z := "";
    if s != "" && IsBlank(s[|s| - 1], blanks) {
      var rest := TrimRightParts(s[..|s| - 1], blanks);
      z := rest + [s[|s| - 1]];
      assert s == s[..|s| - 1] + [s[|s| - 1]];
    }
  }

  lemma {:induction false} TrimLeftAround(a: string, s: string, blanks: Blanks)
    requires AllIn(a, blanks)
    ensures TrimLeft(a + s, blanks) == TrimLeft(s, blanks)
  {
    if a == "" {
      assert a + s == s;
    } else {
      assert (a + s)[1..] == a[1..] + s;
      TrimLeftAround(a[1..], s, blanks);
    }
  }

  lemma {:induction false} TrimRightAround(s: string, z: string, blanks: Blanks)
    requires AllIn(z, blanks)
    ensures TrimRight(s + z, blanks) == TrimRight(s, blanks)
  {
    if z == "" {
      assert s + z == s;
    } else {
      assert (s + z)[..|s + z| - 1] == s + z[..|z| - 1];
      TrimRightAround(s, z[..|z| - 1], blanks);
    }
  }

  /** Of the kinds of trimming, the stronger gives the same result exactly when the weaker
      leaves nothing for it. */
  lemma TrimsMeet(s: string, few: Blanks, many: Blanks)
    requires few.Spaces? || many.WhiteSpace?
    ensures Trim(s, few) == Trim(s, many) <==> Bare(Trim(s, few), many)
  {
    TrimBare(s, many);
    var t := Trim(s, few);
    if Bare(t, many) {
      var a := TrimLeftParts(s, few);
      var z := TrimRightParts(TrimLeft(s, few), few);
      assert s == a + (t + z);
      TrimLeftAround(a, t + z, many);
      if t == "" {
        assert t + z == z && AllIn(z, many);
      } else {
        assert (t + z)[0] == t[0];
        assert TrimLeft(t + z, many) == t + z;
        TrimRightAround(t, z, many);
        BareTrimmed(t, many);
      }
    }
  }

  lemma StripTwice(s: string)
    ensures Strip(Strip(s)) == Strip(s)
  {
    TrimBare(s, WhiteSpace);
    BareTrimmed(Strip(s), WhiteSpace);
  }

  // ---- folding ---------------------------------------------------------------------------------

  /** Lower case, for ASCII letters and for the one other character whose lower case is an
      ASCII letter, the Kelvin sign. */
  function Lower(c: char): char {
    if 'A' <= c <= 'Z' then ((c as int) + 32) as char else if c == '\U{212a}' then 'k' else c
  }

  /** Lower case, without underscores, dashes and spaces. */
  function Normalize(name: string): string {
    if name == "" then ""
    else (if name[0] in "_- " then "" else [Lower(name[0])]) + Normalize(name[1..])
  }

  predicate IsSeparator(c: char) {
    c == '_' || c == '-' || c == ' '
  }

  /** c is the letter l of the alphabet, small or capital. */
  predicate IsLetter(c: char, l: char) {
    c == l || c as int + 32 == l as int || (c == '\U{212a}' && l == 'k')
  }

  /** The text has the letters of the word in order, capital or small, and separators anywhere. */
  predicate Spells(text: string, word: string) {
    if text == "" then word == ""
    else if IsSeparator(text[0]) then Spells(text[1..], word)
    else word != "" && IsLetter(text[0], word[0]) && Spells(text[1..], word[1..])
  }

  predicate IsWord(word: string) {
    forall k :: 0 <= k < |word| ==> 'a' <= word[k] <= 'z'
  }

  /** Normalizing gives a word of small letters exactly for the texts that spell it. */
  lemma {:induction false} SpellsMeans(text: string, word: string)
    requires IsWord(word)
    ensures Spells(text, word) <==> Normalize(text) == word
  {
    if text != "" {
      if IsSeparator(text[0]) {
        SpellsMeans(text[1..], word);
      } else {
        assert text[0] !in "_- ";
        var rest := Normalize(text[1..]);
        assert Normalize(text)[1..] == rest;
        if word != "" {
          SpellsMeans(text[1..], word[1..]);
          assert word == [word[0]] + word[1..];
        }
      }
    }
  }

  predicate IsKay(c: char) {
    c == 'k' || c == 'K' || c == '\U{212a}'
  }

  /** The same letter, small or capital, or the same character. */
  predicate SameLetter(c: char, d: char) {
    || c == d
    || ('A' <= c <= 'Z' && c as int + 32 == d as int)
    || ('A' <= d <= 'Z' && d as int + 32 == c as int)
    || (IsKay(c) && IsKay(d))
  }

  /** The same letters in order, separators anywhere in either. */
  predicate SameName(a: string, b: string)
    decreases |a| + |b|
  {
    if a != "" && IsSeparator(a[0]) then SameName(a[1..], b)
    else if b != "" && IsSeparator(b[0]) then SameName(a, b[1..])
    else if a == "" || b == "" then a == b
    else SameLetter(a[0], b[0]) && SameName(a[1..], b[1..])
  }

  lemma {:induction false} SameNameMeans(a: string, b: string)
    ensures SameName(a, b) <==> Normalize(a) == Normalize(b)
    decreases |a| + |b|
  {
    if a != "" && IsSeparator(a[0]) {
      SameNameMeans(a[1..], b);
    } else if b != "" && IsSeparator(b[0]) {
      SameNameMeans(a, b[1..]);
    } else if a != "" && b != "" {
      SameNameMeans(a[1..], b[1..]);
      assert Normalize(a) == [Lower(a[0])] + Normalize(a[1..]) && Normalize(b) == [Lower(b[0])] + Normalize(b[1..]);
      assert Normalize(a)[1..] == Normalize(a[1..]) && Normalize(b)[1..] == Normalize(b[1..]);
    }
  }

  // ---- integers ----------------------------------------------------------------------------------

  /** Longer texts of digits are neither read nor written. */
  const MAX_INT_DIGITS := 4300

  /** The zeros of the scripts beside ASCII; the other nine digits of a script follow its zero. */
  const ZEROS: seq<int> :=
    [0x660, 0x6F0, 0x7C0, 0x966, 0x9E6, 0xA66, 0xAE6, 0xB66, 0xBE6, 0xC66, 0xCE6, 0xD66, 0xDE6, 0xE50,
     0xED0, 0xF20, 0x1040, 0x1090, 0x17E0, 0x1810, 0x1946, 0x19D0, 0x1A80, 0x1A90, 0x1B50, 0x1BB0, 0x1C40,
     0x1C50, 0xA620, 0xA8D0, 0xA900, 0xA9D0, 0xA9F0, 0xAA50, 0xABF0, 0xFF10, 0x1_04A0, 0x1_0D30, 0x1_1066,
     0x1_10F0, 0x1_1136, 0x1_11D0, 0x1_12F0, 0x1_1450, 0x1_14D0, 0x1_1650, 0x1_16C0, 0x1_1730, 0x1_18E0,
     0x1_1950, 0x1_1C50, 0x1_1D50, 0x1_1DA0, 0x1_1F50, 0x1_6A60, 0x1_6AC0, 0x1_6B50, 0x1_D7CE, 0x1_D7D8,
     0x1_D7E2, 0x1_D7EC, 0x1_D7F6, 0x1_E140, 0x1_E2F0, 0x1_E4F0, 0x1_E950, 0x1_FBF0]

  function InScript(n: int, zeros: seq<int>): (d: int)
    ensures -1 <= d <= 9
  {
    if zeros == [] then -1 else if zeros[0] <= n <= zeros[0] + 9 then n - zeros[0] else InScript(n, zeros[1..])
  }

  /** The value of a decimal digit, -1 for any other character. */
  function DigitValue(c: char): (d: int)
    ensures -1 <= d <= 9
  {
    if c as int >= 0x660 then InScript(c as int, ZEROS)
    else if '0' <= c <= '9' then (c - '0') as int
    else -1
  }

  /** A digit that is not decimal: superscript, circled and the like. */
  predicate OtherDigit(c: char) {
    var n := c as int;
    || 0xB2 <= n <= 0xB3 || n == 0xB9 || 0x1369 <= n <= 0x1371 || n == 0x19DA
    || n == 0x2070 || 0x2074 <= n <= 0x2079 || 0x2080 <= n <= 0x2089 || 0x2460 <= n <= 0x2468
    || 0x2474 <= n <= 0x247C || 0x2488 <= n <= 0x2490 || n == 0x24EA || 0x24F5 <= n <= 0x24FD
    || n == 0x24FF || 0x2776 <= n <= 0x277E || 0x2780 <= n <= 0x2788 || 0x278A <= n <= 0x2792
    || 0x1_0A40 <= n <= 0x1_0A43 || 0x1_0E60 <= n <= 0x1_0E68 || 0x1_1052 <= n <= 0x1_105A || 0x1_F100 <= n <= 0x1_F10A
  }

  predicate IsDecimal(s: string) {
    s != "" && forall k :: 0 <= k < |s| ==> DigitValue(s[k]) >= 0
  }

  /** The test for digits accepts the others as well, which an integer cannot be read from. */
  predicate IsDigits(s: string) {
    s != "" && forall k :: 0 <= k < |s| ==> DigitValue(s[k]) >= 0 || OtherDigit(s[k])
  }

  /** The texts of digits an integer can be read from. */
  predicate Readable(s: string) {
    IsDecimal(s) && |s| <= MAX_INT_DIGITS
  }

  function ParseNat(s: string): nat
    requires forall k :: 0 <= k < |s| ==> DigitValue(s[k]) >= 0
  {
    if s == "" then 0 else ParseNat(s[..|s| - 1]) * 10 + DigitValue(s[|s| - 1])
  }

  function Digits(n: nat): (s: string)
    ensures IsDecimal(s) && '0' <= s[|s| - 1] <= '9'
    decreases n
  {
    if n < 10 then [('0' as int + n) as char] else Digits(n / 10) + [('0' as int + n % 10) as char]
  }

  lemma {:induction false} ParseDigits(n: nat)
    ensures ParseNat(Digits(n)) == n && (Digits(n) == "0" || Digits(n)[0] != '0') && (Digits(n) == "0" <==> n == 0)
    ensures forall k :: 0 <= k < |Digits(n)| ==> '0' <= Digits(n)[k] <= '9'
    decreases n
  {
    var s := Digits(n);
    if n < 10 {
      assert s[..0] == "";
    } else {
      ParseDigits(n / 10);
      assert s[..|s| - 1] == Digits(n / 10);
    }
  }

  /** A numeral in ASCII digits without leading zeros is the one of its value. */
  lemma {:induction false} DigitsParse(s: string)
    requires s != "" && (forall k :: 0 <= k < |s| ==> '0' <= s[k] <= '9') && (s == "0" || s[0] != '0')
    ensures Digits(ParseNat(s)) == s
    decreases |s|
  {
    var init, last := s[..|s| - 1], s[|s| - 1];
    assert s == init + [last];
    if init == "" {
      assert ParseNat(init) == 0;
    } else {
      DigitsParse(init);
      assert Digits(0) == "0";
      LastDigit(ParseNat(init), (last - '0') as nat);
    }
  }

  lemma LastDigit(n: nat, d: nat)
    requires n > 0 && d < 10
    ensures Digits(n * 10 + d) == Digits(n) + [('0' as int + d) as char]
  {
    assert (n * 10 + d) / 10 == n && (n * 10 + d) % 10 == d;
  }
}
