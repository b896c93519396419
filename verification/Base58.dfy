/**
 Base58 text (`EncodeBase58`, `DecodeBase58` and the checksummed forms). The two
 conversions rewrite a digit buffer in place, one multiply-and-add pass per input
 symbol; the buffers are sized by the fractions 138/100 and 733/1000, and each pass
 asserts that nothing is carried out of them.
 */
module Base58 {
  import opened Basics
  import opened Numerals

  type Byte = b: int | 0 <= b < 256

  const ALPHABET: string :=
    "123456789" + "ABCDEFGH" + "JKLMN" + "PQRSTUVWXYZ" + "abcdefghijk" + "mnopqrstuvwxyz"

  /** The character at a position of the alphabet. */
  function Letter(i: nat): (c: char)
    requires i < 58
    ensures !IsSpace(c) && c != '\0'
    ensures c == '1' <==> i == 0
  {
    if i < 9 then '1' + i as char
    else if i < 17 then 'A' + (i - 9) as char
    else if i < 22 then 'J' + (i - 17) as char
    else if i < 33 then 'P' + (i - 22) as char
    else if i < 44 then 'a' + (i - 33) as char
    else 'm' + (i - 44) as char
  }

  lemma AlphabetLetter(i: nat)
    requires i < 58
    ensures |ALPHABET| == 58 && ALPHABET[i] == Letter(i)
  {}

  /** The position of a character in the alphabet, or -1. */
  function IndexOf(c: char): (i: int)
    ensures -1 <= i < 58
    ensures i >= 0 ==> Letter(i) == c
  {
    if '1' <= c <= '9' then c as int - '1' as int
    else if 'A' <= c <= 'H' then 9 + (c as int - 'A' as int)
    else if 'J' <= c <= 'N' then 17 + (c as int - 'J' as int)
    else if 'P' <= c <= 'Z' then 22 + (c as int - 'P' as int)
    else if 'a' <= c <= 'k' then 33 + (c as int - 'a' as int)
    else if 'm' <= c <= 'z' then 44 + (c as int - 'm' as int)
    else -1
  }

  lemma IndexOfLetter(i: nat)
    requires i < 58
    ensures IndexOf(Letter(i)) == i
  {}

  predicate IsSpace(c: char) {
    c == ' ' || '\t' <= c <= '\r'
  }

  /** `strchr` on the alphabet. */
  method FindInAlphabet(c: char) returns (i: int)
    ensures i == IndexOf(c)
  {
    i := 0;
    while i < 58
      invariant 0 <= i <= 58
      invariant IndexOf(c) == -1 || i <= IndexOf(c)
    {
      AlphabetLetter(i);
      IndexOfLetter(i);
      if ALPHABET[i] == c {
        return;
      }
      i := i + 1;
    }
    i := -1;
  }

  /** One pass of either conversion, `number = number * mul + digit`, from the last digit to the first:
      what the buffer cannot hold comes out as the carry. */
  method MulAdd(a: array<int>, base: nat, mul: nat, digit: nat) returns (carry: nat)
    requires base >= 2 && IsNumeral(a[..], base)
    modifies a
    ensures IsNumeral(a[..], base)
    ensures Eval(a[..], base) + carry * Pow(base, a.Length) == Eval(old(a[..]), base) * mul + digit
  {
    hide Eval;
    hide Pow;
    carry := digit;
    var i := a.Length;
    ghost var was := a[..];
    EmptyPass(base, mul, digit);
    assert a[i..] == was[i..] == [];
    while i > 0
      invariant 0 <= i <= a.Length
      invariant a[..i] == was[..i]
      invariant IsNumeral(a[i..], base)
      invariant Eval(a[i..], base) + carry * Pow(base, a.Length - i) == Eval(was[i..], base) * mul + digit
    {
      i := i - 1;
      ghost var high, carried := a[i + 1..], carry;
      assert a[i] == a[..i + 1][i] == was[i];
      MulMonotone(0, mul, 0, a[i]);
      carry := carry + mul * a[i];
      CarryNonNegative(carry, base);
      a[i] := carry % base;
      carry := carry / base;
      assert a[i..] == [a[i]] + high;
      assert was[i..] == [was[i]] + was[i + 1..];
      PassStep(high, was[i + 1..], base, mul, digit, carried, was[i]);
    }
    assert a[0..] == a[..] && was[0..] == was;
  }

  lemma CarryNonNegative(n: nat, base: nat)
    requires base >= 2
    ensures n / base >= 0 && 0 <= n % base < base
    ensures n == base * (n / base) + n % base
  {
    if n > 0 {
      DivShrinks(n, base);
    }
  }

  lemma EmptyPass(base: nat, mul: nat, digit: nat)
    requires base >= 2
    ensures Eval([], base) + digit * Pow(base, 0) == Eval([], base) * mul + digit
  {}

  lemma PassStep(high: seq<int>, wasHigh: seq<int>, base: nat, mul: nat, digit: nat, c0: nat, x: nat)
    requires base >= 2 && x < base && |high| == |wasHigh| && IsNumeral(high, base) && IsNumeral(wasHigh, base)
    requires Eval(high, base) + c0 * Pow(base, |high|) == Eval(wasHigh, base) * mul + digit
    ensures var c := c0 + mul * x;
            && c / base >= 0 && 0 <= c % base < base
            && Eval([c % base] + high, base) + c / base * Pow(base, |high| + 1) == Eval([x] + wasHigh, base) * mul + digit
  {
    hide Eval;
    var c := c0 + mul * x;
    MulMonotone(0, mul, 0, x);
    CarryNonNegative(c, base);
    EvalHead(c % base, high, base);
    EvalHead(x, wasHigh, base);
    CarryStep(c % base, c / base, c0, x, mul, digit, Pow(base, |high|), base, Eval(high, base), Eval(wasHigh, base));
  }

  lemma CarryStep(d: nat, c1: nat, c0: nat, x: nat, mul: nat, digit: nat, p: nat, base: nat, high: nat, wasHigh: nat)
    requires c0 + mul * x == base * c1 + d
    requires high + c0 * p == wasHigh * mul + digit
    ensures d * p + high + c1 * (base * p) == (x * p + wasHigh) * mul + digit
  {
    assert (c0 + mul * x) * p == (base * c1 + d) * p;
    assert (c0 + mul * x) * p == c0 * p + x * p * mul;
    assert (base * c1 + d) * p == c1 * (base * p) + d * p;
    assert (x * p + wasHigh) * mul == x * p * mul + wasHigh * mul;
  }

  /** A buffer of `n * 138 / 100 + 1` base-58 digits holds any number of `n` bytes. */
  lemma EncodeBufferSuffices(n: nat)
    ensures Pow(256, n) <= Pow(58, n * 138 / 100 + 1)
  {
    hide Pow;
    SmallPowers();
    PowAdd(58, 8, 3);
    PowRatio(256, 58, 8, 11, n, n * 138 / 100 + 1);
  }

  lemma SmallPowers()
    ensures Pow(58, 3) == 195112
    ensures Pow(58, 4) == 11316496
    ensures Pow(58, 8) == 128063081718016
    ensures Pow(256, 4) == 4294967296
    ensures Pow(256, 8) == 18446744073709551616
  {
    assert Pow(58, 3) == 195112;
    assert Pow(256, 3) == 16777216;
    PowAdd(58, 4, 4);
    PowAdd(256, 4, 4);
  }

  lemma Fits58To71()
    ensures Pow(58, 71) <= Pow(256, 52)
  {
    hide Pow;
    SmallPowers();
    assert Pow(58, 16) == 16400152899115243850138976256 by { PowAdd(58, 8, 8); }
    assert Pow(58, 32) == 268965015114358137726910587140455987105619365599731777536 by { PowAdd(58, 16, 16); }
    assert Pow(58, 64) == 72342179355466901471258927612150153907721848234316445933056526044582001260898145151856420451025374266490194231296 by { PowAdd(58, 32, 32); }
    PowAdd(58, 64, 4);
    PowAdd(58, 68, 3);
    assert Pow(256, 16) == 0x1_0000000000000000_0000000000000000 by { PowAdd(256, 8, 8); }
    PowAdd(256, 16, 16);
    PowAdd(256, 32, 16);
    PowAdd(256, 48, 4);
  }

  /** A buffer of `m * 733 / 1000 + 1` bytes holds any number of `m` base-58 digits. */
  lemma DecodeBufferSuffices(m: nat)
    ensures Pow(58, m) <= Pow(256, m * 733 / 1000 + 1)
  {
    hide Pow;
    Fits58To71();
    PowRatio(58, 256, 71, 52, m, m * 733 / 1000 + 1);
  }

  /** A pass over a number that, multiplied, still fits the buffer carries nothing out. */
  lemma NoCarryOut(v: nat, carry: nat, p: nat, total: nat)
    requires v + carry * p == total && total < p
    ensures carry == 0
  {
    if carry > 0 {
      MulMonotone(1, carry, p, p);
    }
  }

  /** A pass that reads digit `k` of `s` into a buffer holding the digits before it. */
  method Absorb(a: array<int>, base: nat, from: nat, s: seq<int>, k: nat) returns (carry: nat)
    requires base >= 2 && from >= 2 && IsNumeral(a[..], base) && IsNumeral(s, from) && k < |s|
    requires Eval(a[..], base) == Eval(s[..k], from)
    requires Pow(from, |s|) <= Pow(base, a.Length)
    modifies a
    ensures carry == 0
    ensures IsNumeral(a[..], base) && Eval(a[..], base) == Eval(s[..k + 1], from)
  {
    hide Eval;
    hide Pow;
    carry := MulAdd(a, base, from, s[k]);
    EvalSnoc(s, k, from);
    EvalBound(s[..k + 1], from);
    PowGrows(from, k + 1, |s|);
    NoCarryOut(Eval(a[..], base), carry, Pow(base, a.Length), Eval(s[..k + 1], from));
  }

  // ---- what the two conversions mean

  function Letters(s: seq<int>): (r: string)
    requires IsNumeral(s, 58)
    ensures |r| == |s| && forall i :: 0 <= i < |s| ==> r[i] == Letter(s[i])
  {
    seq(|s|, i requires 0 <= i < |s| => Letter(s[i]))
  }

  function Indices(s: string): (r: seq<int>)
    ensures |r| == |s| && forall i :: 0 <= i < |s| ==> r[i] == IndexOf(s[i])
  {
    seq(|s|, i requires 0 <= i < |s| => IndexOf(s[i]))
  }

  /** A '1' for every leading zero byte, then the number in base 58. */
  function Encoded(b: seq<int>): (r: string)
    requires IsNumeral(b, 256)
  {
    Fill(Leading(b, 0), '1') + Letters(Digits(Eval(b, 256), 58))
  }

  /** What is before the first NUL. */
  function CString(s: string): (r: string)
    ensures |r| <= |s| && r == s[..|r|] && (|r| < |s| ==> s[|r|] == '\0')
    ensures forall i :: 0 <= i < |r| ==> r[i] != '\0'
  {
    if s == [] || s[0] == '\0' then [] else [s[0]] + CString(s[1..])
  }

  /** The number of leading elements with `IsSpace` equal to `space`. */
  function Span(s: string, space: bool): (k: nat)
    ensures k <= |s| && (k < |s| ==> IsSpace(s[k]) != space)
    ensures forall i :: 0 <= i < k ==> IsSpace(s[i]) == space
  {
    if s == [] || IsSpace(s[0]) != space then 0 else 1 + Span(s[1..], space)
  }

  /** The text without white space around it. */
  function Trim(s: string): (r: string) {
    TrimEnd(s[Span(s, true)..])
  }

  function TrimEnd(s: string): (r: string) {
    if s != [] && IsSpace(s[|s| - 1]) then TrimEnd(s[..|s| - 1]) else s
  }

  /** A zero byte for every leading '1', then the number in base 256; nothing for a text that is not,
      white space around it aside, made of alphabet characters. */
  function Decoded(str: string): (r: Option<seq<int>>)
    ensures r.Some? ==> IsNumeral(r.value, 256)
  {
    var s := CString(str);
    var t := s[Span(s, true)..];
    var word := t[..Span(t, false)];
    if Span(t[|word|..], true) < |t| - |word| || !IsNumeral(Indices(word), 58) then None
    else Some(Fill(Leading(word, '1'), 0) + Digits(Eval(Indices(word), 58), 256))
  }

  // ---- the two methods

  method EncodeBase58(b: seq<Byte>) returns (str: string)
    ensures str == Encoded(b)
  {
    hide Eval;
    hide Pow;
    hide Digits;
    hide Leading;
    hide Letter;
    var zeroes := 0;
    while zeroes < |b| && b[zeroes] == 0
      invariant 0 <= zeroes <= |b| && forall i :: 0 <= i < zeroes ==> b[i] == 0
    {
      zeroes := zeroes + 1;
    }
    LeadingUnique(b, 0, zeroes);
    var rest := b[zeroes..];
    EvalLeadingZeros(b, zeroes, 256);
    var b58 := new int[|rest| * 138 / 100 + 1](_ => 0);
    EncodeBufferSuffices(|rest|);
    EvalZeros(b58[..], 58);
    EvalZeros(rest[..0], 256);
    var k := 0;
    while k < |rest|
      invariant 0 <= k <= |rest|
      invariant IsNumeral(b58[..], 58) && Eval(b58[..], 58) == Eval(rest[..k], 256)
    {
      var carry := Absorb(b58, 58, 256, rest, k);
      assert carry == 0;
      k := k + 1;
    }
    assert rest[..k] == rest;
    str := Spell(b58, zeroes);
  }

  /** A '1' per leading zero, then the buffer as letters without its own leading zeros. */
  method Spell(b58: array<int>, zeroes: nat) returns (str: string)
    requires IsNumeral(b58[..], 58)
    ensures str == Fill(zeroes, '1') + Letters(Digits(Eval(b58[..], 58), 58))
  {
    hide Eval;
    hide Digits;
    hide Leading;
    var it := SkipZeroes(b58);
    StripIsDigits(b58[..], 58);
    str := Fill(zeroes, '1');
    ghost var first, letters := it, Letters(b58[..][it..]);
    while it < b58.Length
      invariant first <= it <= b58.Length
      invariant str == Fill(zeroes, '1') + letters[..it - first]
    {
      AlphabetLetter(b58[it]);
      str := str + [ALPHABET[b58[it]]];
      assert letters[..it + 1 - first] == letters[..it - first] + [letters[it - first]];
      it := it + 1;
    }
    assert letters[..it - first] == letters;
  }

  method SkipZeroes(a: array<int>) returns (it: nat)
    ensures it <= a.Length && it == Leading(a[..], 0)
  {
    it := 0;
    while it < a.Length && a[it] == 0
      invariant 0 <= it <= a.Length && forall i :: 0 <= i < it ==> a[i] == 0
    {
      it := it + 1;
    }
    LeadingUnique(a[..], 0, it);
  }

  method SkipSpaces(psz: string) returns (k: nat)
    ensures k == Span(psz, true)
  {
    k := 0;
    while k < |psz| && IsSpace(psz[k])
      invariant 0 <= k <= |psz| && forall i :: 0 <= i < k ==> IsSpace(psz[i])
    {
      k := k + 1;
    }
    SpanUnique(psz, k, true);
  }

  method SkipOnes(psz: string) returns (zeroes: nat)
    ensures zeroes <= |psz| && zeroes == Leading(psz, '1')
  {
    zeroes := 0;
    while zeroes < |psz| && psz[zeroes] == '1'
      invariant 0 <= zeroes <= |psz| && forall i :: 0 <= i < zeroes ==> psz[i] == '1'
    {
      zeroes := zeroes + 1;
    }
    LeadingUnique(psz, '1', zeroes);
  }

  method DecodeBase58(str: string) returns (r: Option<seq<int>>)
    ensures r == Decoded(str)
  {
    hide Eval;
    hide Pow;
    hide Digits;
    hide Decoded;
    hide Span;
    hide Leading;
    hide IndexOf;
    hide CString;
    hide Fill;
    hide IsNumeral;
    hide Indices;
    var psz := CString(str);
    var spaces := SkipSpaces(psz);
    psz := psz[spaces..];
    ghost var t, word := psz, psz[..Span(psz, false)];
    var zeroes := SkipOnes(psz);
    psz := psz[zeroes..];
    SpanAfterOnes(t, zeroes);
    DecodedParts(str, t, word);
    LeadingOnes(t, word, zeroes);
    WordAfterOnes(t, word, zeroes);
    var b256, k := DecodeWord(psz);
    if k < |psz| && !IsSpace(psz[k]) {
      BadLetter(psz[..Span(psz, false)], k);
      return None;
    }
    assert psz[k..] == t[|word|..];
    psz := psz[k..];
    spaces := SkipSpaces(psz);
    if spaces < |psz| {
      return None;
    }
    var it := SkipZeroes(b256);
    StripIsDigits(b256[..], 256);
    r := Some(Fill(zeroes, 0) + b256[..][it..]);
  }

  lemma BadLetter(word: string, k: nat)
    requires k < |word| && IndexOf(word[k]) < 0
    ensures !IsNumeral(Indices(word), 58)
  {
    hide IndexOf;
    assert Indices(word)[k] == IndexOf(word[k]);
  }

  /** The character loop: reads `psz` up to white space or the first character outside the alphabet. */
  method DecodeWord(psz: string) returns (b256: array<int>, k: nat)
    ensures k <= Span(psz, false)
    ensures k < Span(psz, false) ==> IndexOf(psz[k]) < 0
    ensures k == Span(psz, false) ==> IsNumeral(Indices(psz[..k]), 58) && IsNumeral(b256[..], 256)
                                      && Eval(b256[..], 256) == Eval(Indices(psz[..k]), 58)
  {
    hide Eval;
    hide Pow;
    b256 := new int[|psz| * 733 / 1000 + 1](_ => 0);
    DecodeBufferSuffices(|psz|);
    EvalZeros(b256[..], 256);
    EvalZeros(Indices(psz[..0]), 58);
    k := 0;
    while k < |psz| && !IsSpace(psz[k])
      invariant 0 <= k <= Span(psz, false)
      invariant IsNumeral(Indices(psz[..k]), 58) && IsNumeral(b256[..], 256)
      invariant Eval(b256[..], 256) == Eval(Indices(psz[..k]), 58)
    {
      var ch := FindInAlphabet(psz[k]);
      if ch < 0 {
        return;
      }
      ghost var idx := Indices(psz[..k + 1]);
      assert idx[..k] == Indices(psz[..k]) && idx[..k + 1] == idx && idx[k] == ch;
      PowGrows(58, k + 1, |psz|);
      var carry := Absorb(b256, 256, 58, Indices(psz[..k + 1]), k);
      assert carry == 0;
      k := k + 1;
    }
  }

  lemma DecodedParts(str: string, t: string, word: string)
    requires t == CString(str)[Span(CString(str), true)..] && word == t[..Span(t, false)]
    ensures Span(t[|word|..], true) < |t| - |word| || !IsNumeral(Indices(word), 58) ==> Decoded(str) == None
    ensures Span(t[|word|..], true) == |t| - |word| && IsNumeral(Indices(word), 58) ==>
              Decoded(str) == Some(Fill(Leading(word, '1'), 0) + Digits(Eval(Indices(word), 58), 256))
  {
    hide Eval;
    hide Digits;
  }

  /** What follows the leading '1's of a word decides whether the word is spelled in the alphabet. */
  lemma WordAfterOnes(t: string, word: string, z: nat)
    requires word == t[..Span(t, false)] && z <= |word| && forall i :: 0 <= i < z ==> word[i] == '1'
    ensures Span(t[z..], false) == |word| - z && t[z..][..|word| - z] == word[z..]
    ensures IsNumeral(Indices(word), 58) <==> IsNumeral(Indices(word[z..]), 58)
    ensures IsNumeral(Indices(word), 58) ==> Eval(Indices(word), 58) == Eval(Indices(word[z..]), 58)
  {
    hide Eval;
    SpanUnique(t[z..], |word| - z, false);
    assert Indices(word)[z..] == Indices(word[z..]);
    assert forall i :: z <= i < |word| ==> Indices(word)[i] == Indices(word[z..])[i - z];
    if IsNumeral(Indices(word), 58) {
      EvalLeadingZeros(Indices(word), z, 58);
    }
  }

  lemma {:induction false} SpanUnique(s: string, k: nat, space: bool)
    requires k <= |s| && (forall i :: 0 <= i < k ==> IsSpace(s[i]) == space) && (k < |s| ==> IsSpace(s[k]) != space)
    ensures Span(s, space) == k
  {
    if k > 0 {
      SpanUnique(s[1..], k - 1, space);
    }
  }

  lemma {:induction false} SpanAfterOnes(t: string, z: nat)
    requires z == Leading(t, '1')
    ensures z <= Span(t, false)
  {
    if z > 0 {
      SpanAfterOnes(t[1..], z - 1);
    }
  }

  lemma LeadingOnes(t: string, word: string, z: nat)
    requires z == Leading(t, '1') && z <= |word| <= |t| && word == t[..|word|]
    ensures Leading(word, '1') == z
  {
    LeadingUnique(word, '1', z);
  }

  // ---- round trips

  lemma LettersIndices(s: seq<int>)
    requires IsNumeral(s, 58)
    ensures Indices(Letters(s)) == s
  {
    forall i | 0 <= i < |s| ensures Indices(Letters(s))[i] == s[i] {
      IndexOfLetter(s[i]);
    }
  }

  /** A text of alphabet characters is read as one word, whole. */
  lemma DecodedWord(w: string)
    requires IsNumeral(Indices(w), 58)
    ensures Decoded(w) == Some(Fill(Leading(w, '1'), 0) + Digits(Eval(Indices(w), 58), 256))
  {
    forall i | 0 <= i < |w| ensures w[i] != '\0' && !IsSpace(w[i]) {
      assert Indices(w)[i] >= 0;
    }
    assert CString(w) == w;
    assert Span(w, true) == 0;
    assert w[0..] == w;
    assert Span(w, false) == |w|;
    assert w[..|w|] == w;
  }

  lemma EncodedIndices(z: nat, d: seq<int>)
    requires IsNumeral(d, 58) && (d != [] ==> d[0] != 0)
    ensures var w := Fill(z, '1') + Letters(d); Indices(w) == Fill(z, 0) + d && Leading(w, '1') == z
  {
    var w := Fill(z, '1') + Letters(d);
    LettersIndices(d);
    forall i | z <= i < |w| ensures Indices(w)[i] == d[i - z] {
      assert w[i] == Letters(d)[i - z];
      assert Indices(Letters(d))[i - z] == d[i - z];
    }
    LeadingUnique(w, '1', z);
  }

  /** Every byte string decodes to itself after encoding, leading zeros included. */
  lemma DecodeInvertsEncode(b: seq<int>)
    requires IsNumeral(b, 256)
    ensures Decoded(Encoded(b)) == Some(b)
  {
    hide Eval;
    hide Digits;
    hide Decoded;
    hide Leading;
    var z, n := Leading(b, 0), Eval(b, 256);
    var d := Digits(n, 58);
    var w := Encoded(b);
    EncodedIndices(z, d);
    DecodedWord(w);
    EvalLeadingZeros(Indices(w), z, 58);
    assert Indices(w)[z..] == d;
    EvalDigits(n, 58);
    StripIsDigits(b, 256);
    assert b == Fill(z, 0) + b[z..];
  }

  lemma {:induction false} TrimEndSpaces(w: string, spaces: string)
    requires (forall i :: 0 <= i < |w| ==> !IsSpace(w[i])) && forall i :: 0 <= i < |spaces| ==> IsSpace(spaces[i])
    ensures TrimEnd(w + spaces) == w
    decreases |spaces|
  {
    if spaces == [] {
      assert w + spaces == w;
    } else {
      TrimEndSpaces(w, spaces[..|spaces| - 1]);
      assert (w + spaces)[..|w + spaces| - 1] == w + spaces[..|spaces| - 1];
    }
  }

  /** The bytes a word of alphabet characters stands for are encoded as that word. */
  lemma EncodedWord(word: string)
    requires IsNumeral(Indices(word), 58)
    ensures Encoded(Fill(Leading(word, '1'), 0) + Digits(Eval(Indices(word), 58), 256)) == word
  {
    hide Eval;
    hide Digits;
    hide Leading;
    hide IndexOf;
    hide Letter;
    var idx := Indices(word);
    var z, n := Leading(word, '1'), Eval(idx, 58);
    LeadingUnique(idx, 0, z);
    StripIsDigits(idx, 58);
    var d := Digits(n, 256);
    var b := Fill(z, 0) + d;
    LeadingUnique(b, 0, z);
    EvalLeadingZeros(b, z, 256);
    assert b[z..] == d;
    EvalDigits(n, 256);
    assert Encoded(b) == Fill(z, '1') + Letters(idx[z..]);
    Respelled(word, z);
  }

  lemma Respelled(word: string, z: nat)
    requires IsNumeral(Indices(word), 58) && z <= |word| && forall i :: 0 <= i < z ==> word[i] == '1'
    ensures Fill(z, '1') + Letters(Indices(word)[z..]) == word
  {
    hide IndexOf;
    hide Letter;
    var r := Fill(z, '1') + Letters(Indices(word)[z..]);
    forall i | 0 <= i < |word| ensures r[i] == word[i] {
      if i >= z {
        assert r[i] == Letters(Indices(word)[z..])[i - z];
      }
    }
  }

  /** Encoding what a text decodes to gives the text back, without the white space around it. */
  lemma EncodeInvertsDecode(str: string)
    requires Decoded(str).Some?
    ensures Encoded(Decoded(str).value) == Trim(CString(str))
  {
    hide Eval;
    hide Digits;
    hide Decoded;
    hide Leading;
    hide Encoded;
    hide IndexOf;
    hide CString;
    var s := CString(str);
    var t := s[Span(s, true)..];
    var word := t[..Span(t, false)];
    DecodedParts(str, t, word);
    TrimEndSpaces(word, t[|word|..]);
    assert word + t[|word|..] == t;
    EncodedWord(word);
  }

  /** Made of alphabet characters only. */
  predicate Spelled(w: string) {
    forall i :: 0 <= i < |w| ==> IndexOf(w[i]) >= 0
  }

  lemma SpelledIndices(w: string)
    ensures Spelled(w) <==> IsNumeral(Indices(w), 58)
  {
    hide IndexOf;
    assert forall i :: 0 <= i < |w| ==> Indices(w)[i] == IndexOf(w[i]);
  }

  /** Only white space is trimmed off the end. */
  lemma {:induction false} TrimEndShape(s: string)
    ensures var r := TrimEnd(s); |r| <= |s| && r == s[..|r|] && forall i :: |r| <= i < |s| ==> IsSpace(s[i])
  {
    if s != [] && IsSpace(s[|s| - 1]) {
      TrimEndShape(s[..|s| - 1]);
    } else {
      assert s[..|s|] == s;
    }
  }

  /** A text is decoded exactly when all that is left of it without the white space around it is in the alphabet, and
      then as if that were all of it. */
  lemma DecodesWhenSpelled(str: string)
    ensures var w := Trim(CString(str)); Decoded(str).Some? <==> Spelled(w)
    ensures var w := Trim(CString(str)); Spelled(w) ==> Decoded(str) == Decoded(w)
  {
    hide Eval;
    hide Digits;
    hide Decoded;
    hide Leading;
    hide IndexOf;
    hide CString;
    hide TrimEnd;
    hide Indices;
    hide IsNumeral;
    var s := CString(str);
    var t := s[Span(s, true)..];
    var word, w := t[..Span(t, false)], Trim(s);
    DecodedParts(str, t, word);
    SpelledIndices(word);
    if Spelled(w) {
      WordIsTrimmed(t, w);
      DecodedWord(w);
    } else if Span(t[|word|..], true) == |t| - |word| {
      TrimEndSpaces(word, t[|word|..]);
      assert word + t[|word|..] == t;
    }
  }

  /** What is left of a text, if it is in the alphabet, is its first word, and only white space follows. */
  lemma WordIsTrimmed(t: string, w: string)
    requires w == TrimEnd(t) && Spelled(w)
    ensures Span(t, false) == |w| && t[..|w|] == w && Span(t[|w|..], true) == |t| - |w|
  {
    TrimEndShape(t);
    hide TrimEnd;
    forall i | 0 <= i < |w| ensures !IsSpace(t[i]) {
      assert Letter(IndexOf(w[i])) == t[i];
    }
    hide IndexOf;
    hide Letter;
    SpanUnique(t, |w|, false);
    var rest := t[|w|..];
    assert forall i :: 0 <= i < |rest| ==> rest[i] == t[|w| + i];
  }

  lemma EncodedSpelled(b: seq<int>)
    requires IsNumeral(b, 256)
    ensures Spelled(Encoded(b))
  {
    hide Eval;
    hide Digits;
    hide Leading;
    EncodedIndices(Leading(b, 0), Digits(Eval(b, 256), 58));
    SpelledIndices(Encoded(b));
  }

  // ---- the checksummed form; `checksum` gives the first four bytes of the hash of a payload

  ghost predicate IsChecksum(checksum: seq<int> -> seq<int>) {
    forall v :: |checksum(v)| == 4 && IsNumeral(checksum(v), 256)
  }

  function DecodedCheck(str: string, checksum: seq<int> -> seq<int>): (r: Option<seq<int>>) {
    var raw := Decoded(str);
    if raw.None? || |raw.value| < 4 then None
    else
      var payload := raw.value[..|raw.value| - 4];
      if checksum(payload) != raw.value[|raw.value| - 4..] then None else Some(payload)
  }

  /** A text is accepted for a payload if and only if it is, white space around it aside, the encoding of the payload with
      its checksum. */
  lemma CheckedTextsAreEncodings(str: string, checksum: seq<int> -> seq<int>, v: seq<int>)
    requires IsChecksum(checksum) && IsNumeral(v, 256)
    ensures DecodedCheck(str, checksum) == Some(v) <==> Trim(CString(str)) == Encoded(v + checksum(v))
  {
    hide Decoded;
    hide Encoded;
    hide Trim;
    hide CString;
    hide Spelled;
    var full := v + checksum(v);
    DecodeInvertsEncode(full);
    EncodedSpelled(full);
    DecodesWhenSpelled(str);
    assert full[..|v|] == v && full[|v|..] == checksum(v);
    if DecodedCheck(str, checksum) == Some(v) {
      EncodeInvertsDecode(str);
      assert Decoded(str).value == full;
    }
  }
}
