/**
 The compact forms outputs are stored in: variable-length integers, amounts with their
 trailing zeros factored out, and scripts of the common shapes. Streams are sequences of
 bytes; a reader returns what it read and what is left, or nothing at the end of the stream.
 */
module Compressor {
  import opened Basics
  import opened Numerals
  import opened Coins

  const TWO32: nat := 0x1_0000_0000
  const TWO64: nat := 0x1_0000_0000_0000_0000

  datatype Read<+T> = Fail | Got(value: T, rest: seq<int>)

  // ---- VARINT

  /** The leading bytes, which carry the continuation bit. */
  function VarHigh(n: nat): (s: seq<int>) {
    if n < 128 then [n + 128] else VarHigh(n / 128 - 1) + [n % 128 + 128]
  }

  /** `WriteVarInt`; of a negative int only the low seven bits are written. */
  function VarInt(n: int): (s: seq<int>) {
    if n < 0 then [n % 128] else if n < 128 then [n] else VarHigh(n / 128 - 1) + [n % 128]
  }

  /** `ReadVarInt` with `acc` read so far, in arithmetic modulo `width`. */
  function ReadVarInt(s: seq<int>, acc: nat, width: nat): (r: Read<nat>)
    requires width >= 1
    decreases |s|
  {
    if s == [] then Fail
    else
      var n := (acc * 128 + s[0] % 128) % width;
      if s[0] >= 128 then ReadVarInt(s[1..], (n + 1) % width, width) else Got(n, s[1..])
  }

  lemma ReadByte(d: nat, acc: nat, n: nat, t: seq<int>, width: nat)
    requires d < 128 && n == acc * 128 + d < width
    ensures ReadVarInt([d] + t, acc, width) == Got(n, t)
    ensures n + 1 < width ==> ReadVarInt([d + 128] + t, acc, width) == ReadVarInt(t, n + 1, width)
  {
    assert ([d] + t)[1..] == t && ([d + 128] + t)[1..] == t;
    ModSmall(n, width);
    if n + 1 < width {
      ModSmall(n + 1, width);
    }
  }

  lemma ModSmall(n: nat, m: nat)
    requires n < m
    ensures n % m == n
  {}

  lemma {:induction false} ReadVarHigh(n: nat, t: seq<int>, width: nat)
    requires n + 1 < width
    ensures ReadVarInt(VarHigh(n) + t, 0, width) == ReadVarInt(t, n + 1, width)
  {
    if n < 128 {
      ReadByte(n, 0, n, t, width);
    } else {
      var d := n % 128;
      ReadVarHigh(n / 128 - 1, [d + 128] + t, width);
      ReadByte(d, n / 128, n, t, width);
      assert VarHigh(n) + t == VarHigh(n / 128 - 1) + ([d + 128] + t);
    }
  }

  /** A non-negative number below the width of its type is read back, and the rest of the stream is untouched. */
  lemma VarIntRoundTrip(n: nat, t: seq<int>, width: nat)
    requires n < width
    ensures ReadVarInt(VarInt(n) + t, 0, width) == Got(n, t)
  {
    if n < 128 {
      ReadByte(n, 0, n, t, width);
    } else {
      var d := n % 128;
      ReadVarHigh(n / 128 - 1, [d] + t, width);
      ReadByte(d, n / 128, n, t, width);
      assert VarInt(n) + t == VarHigh(n / 128 - 1) + ([d] + t);
    }
  }

  /** What a signed int comes back as. */
  function KeptInt(n: int): (r: nat) {
    if n < 0 then n % 128 else n
  }

  /** A signed int is read back as itself exactly when it is not negative. */
  lemma SignedVarIntRoundTrip(n: int, t: seq<int>, width: nat)
    requires width >= 128 && n < width
    ensures ReadVarInt(VarInt(n) + t, 0, width) == Got(KeptInt(n), t)
    ensures KeptInt(n) == n <==> n >= 0
  {
    if n < 0 {
      ReadByte(n % 128, 0, n % 128, t, width);
    } else {
      VarIntRoundTrip(n, t, width);
    }
  }

  /** The loop of `WriteVarInt`: digits from the lowest, written out backwards. */
  method WriteVarInt(value: int) returns (s: seq<int>)
    ensures s == VarInt(value)
  {
    hide VarInt;
    hide VarHigh;
    hide Reversed;
    var n := value;
    var tmp: seq<int> := [];
    assert Reversed(tmp) == [];
    while n > 0x7F
      invariant n >= 0 || (n == value && tmp == [])
      invariant VarInt(value) == (if tmp == [] then VarInt(n) else VarHigh(n)) + Reversed(tmp)
      decreases n
    {
      var d := n % 128 + if |tmp| > 0 then 0x80 else 0;
      VarStep(n, tmp);
      tmp := tmp + [d];
      n := n / 128 - 1;
    }
    var d := n % 128 + if |tmp| > 0 then 0x80 else 0;
    VarStep(n, tmp);
    s := Reversed(tmp + [d]);
  }

  /** One digit more, from the low end. */
  lemma VarStep(n: int, tmp: seq<int>)
    ensures var d := n % 128 + if |tmp| > 0 then 0x80 else 0;
            && (n > 0x7F ==> (if tmp == [] then VarInt(n) else VarHigh(n)) + Reversed(tmp) == VarHigh(n / 128 - 1) + Reversed(tmp + [d]))
            && (n <= 0x7F && (n >= 0 || tmp == []) ==>
                  (if tmp == [] then VarInt(n) else VarHigh(n)) + Reversed(tmp) == Reversed(tmp + [d]))
  {
    var d := n % 128 + if |tmp| > 0 then 0x80 else 0;
    assert Reversed(tmp + [d]) == [d] + Reversed(tmp);
    hide Reversed;
    if n > 0x7F {
      assert (if tmp == [] then VarInt(n) else VarHigh(n)) == VarHigh(n / 128 - 1) + [d];
    }
  }

  // ---- amounts

  /** The amount without up to nine trailing zeros, and how many there were. */
  function Stripped(n: nat, e: nat): (r: (nat, nat))
    requires n > 0 && e <= 9
    ensures r.0 > 0 && e <= r.1 <= 9 && (r.1 < 9 ==> r.0 % 10 != 0) && r.0 <= n
  {
    if n % 10 == 0 && e < 9 then Stripped(n / 10, e + 1) else (n, e)
  }

  function Ten(e: nat): (r: nat)
    ensures r >= 1
  {
    if e == 0 then 1 else 10 * Ten(e - 1)
  }

  /** The compressed amount before it is cut to 64 bits. */
  function Compressed(n: nat): (x: nat) {
    if n == 0 then 0
    else
      var (m, e) := Stripped(n, 0);
      if e < 9 then 1 + (m / 10 * 9 + m % 10 - 1) * 10 + e else 1 + (m - 1) * 10 + 9
  }

  function Mantissa(y: nat, e: nat): (m: nat)
    ensures m > 0
  {
    if e < 9 then y / 9 * 10 + y % 9 + 1 else y + 1
  }

  function Decompressed(x: nat): (n: nat) {
    if x == 0 then 0 else Mantissa((x - 1) / 10, (x - 1) % 10) * Ten((x - 1) % 10)
  }

  lemma {:induction false} StrippedValue(n: nat, e: nat)
    requires n > 0 && e <= 9
    ensures var (m, f) := Stripped(n, e); n == m * Ten(f - e)
  {
    if n % 10 == 0 && e < 9 {
      StrippedValue(n / 10, e + 1);
      var (m, f) := Stripped(n / 10, e + 1);
      TenTimes(m, Ten(f - e - 1));
    }
  }

  lemma TenTimes(m: nat, p: nat)
    ensures m * (10 * p) == 10 * (m * p)
  {}

  lemma {:induction false} StrippedUnique(m: nat, f: nat, e: nat)
    requires m > 0 && e <= f <= 9 && (f < 9 ==> m % 10 != 0)
    ensures m * Ten(f - e) > 0 && Stripped(m * Ten(f - e), e) == (m, f)
    decreases f - e
  {
    if e < f {
      StrippedUnique(m, f, e + 1);
      TenTimes(m, Ten(f - e - 1));
    }
  }

  lemma UnpackDigit(a: nat, d: nat, e: nat)
    requires 1 <= d <= 9 && e < 10
    ensures var y := a * 9 + d - 1; (y * 10 + e) / 10 == y && (y * 10 + e) % 10 == e && y / 9 == a && y % 9 == d - 1
  {}

  /** Compression loses nothing ... */
  lemma DecompressInverts(n: nat)
    ensures Decompressed(Compressed(n)) == n
  {
    hide Stripped;
    hide Ten;
    if n > 0 {
      var (m, e) := Stripped(n, 0);
      StrippedValue(n, 0);
      var x := Compressed(n);
      if e < 9 {
        UnpackDigit(m / 10, m % 10, e);
      }
      assert (x - 1) % 10 == e;
      assert Mantissa((x - 1) / 10, e) == m;
    }
  }

  /** ... and every number is the compressed form of exactly one amount. */
  lemma CompressInverts(x: nat)
    ensures Compressed(Decompressed(x)) == x
  {
    if x > 0 {
      var y, e := (x - 1) / 10, (x - 1) % 10;
      var m := Mantissa(y, e);
      assert e < 9 ==> m % 10 == y % 9 + 1 && m / 10 == y / 9;
      StrippedUnique(m, e, 0);
    }
  }

  lemma CompressedBound(n: nat)
    ensures Compressed(n) <= 9 * n
  {
    if n > 0 {
      var (m, e) := Stripped(n, 0);
      StrippedValue(n, 0);
      if e > 0 {
        assert Ten(e) == 10 * Ten(e - 1);
        MulMonotone(m, m, 10, Ten(e));
      }
    }
  }

  /** In 64-bit arithmetic both directions are inverse as long as the exact result fits. */
  lemma AmountRoundTrip64(n: nat)
    ensures Compressed(n) < TWO64 && n < TWO64 ==> Decompressed(Compressed(n) % TWO64) % TWO64 == n
    ensures Decompressed(n) < TWO64 && n < TWO64 ==> Compressed(Decompressed(n) % TWO64) % TWO64 == n
    ensures 9 * n < TWO64 ==> Compressed(n) < TWO64 && n < TWO64
  {
    hide Compressed;
    hide Decompressed;
    DecompressInverts(n);
    CompressInverts(n);
    CompressedBound(n);
    if Compressed(n) < TWO64 && n < TWO64 {
      ModSmall(Compressed(n), TWO64);
      ModSmall(n, TWO64);
    }
    if Decompressed(n) < TWO64 && n < TWO64 {
      ModSmall(Decompressed(n), TWO64);
      ModSmall(n, TWO64);
    }
  }

  method CompressAmount(amount: nat) returns (x: nat)
    requires amount < TWO64
    ensures x == Compressed(amount) % TWO64
  {
    var n := amount;
    if n == 0 {
      return 0;
    }
    var e := 0;
    while n % 10 == 0 && e < 9
      invariant n > 0 && 0 <= e <= 9 && Stripped(n, e) == Stripped(amount, 0)
      decreases n
    {
      n := n / 10;
      e := e + 1;
    }
    if e < 9 {
      var d := n % 10;
      assert 1 <= d <= 9;
      n := n / 10;
      x := (1 + (n * 9 + d - 1) * 10 + e) % TWO64;
    } else {
      x := (1 + (n - 1) * 10 + 9) % TWO64;
    }
  }

  method DecompressAmount(code: nat) returns (n: nat)
    requires code < TWO64
    ensures n == Decompressed(code) % TWO64
  {
    hide Ten;
    var x := code;
    if x == 0 {
      return 0;
    }
    x := x - 1;
    var e := x % 10;
    x := x / 10;
    if e < 9 {
      var d := x % 9 + 1;
      x := x / 9;
      n := (x * 10 + d) % TWO64;
    } else {
      n := (x + 1) % TWO64;
    }
    n := ScaleUp(n, e, Mantissa((code - 1) / 10, e));
  }

  /** Multiplies by ten, `e` times. */
  method ScaleUp(start: nat, e: nat, ghost exact: nat) returns (n: nat)
    requires start == exact % TWO64
    ensures n == exact * Ten(e) % TWO64
  {
    hide Ten;
    n := start;
    var k := e;
    ghost var x := exact;
    while k > 0
      invariant 0 <= k <= e && n == x % TWO64 && exact * Ten(e) == x * Ten(k)
    {
      ScaleStep(x, k, n);
      x := 10 * x;
      n := n * 10 % TWO64;
      k := k - 1;
    }
    TenZero();
  }

  lemma TenZero()
    ensures Ten(0) == 1
  {}

  lemma ScaleStep(exact: nat, e: nat, n: nat)
    requires e > 0 && n == exact % TWO64
    ensures exact * Ten(e) == 10 * exact * Ten(e - 1) && n * 10 % TWO64 == (10 * exact) % TWO64
  {
    TimesTenMod(exact, n);
    TenTimes(exact, Ten(e - 1));
    MulAssociative(10, exact, Ten(e - 1));
  }

  lemma TimesTenMod(a: nat, n: nat)
    requires n == a % TWO64
    ensures n * 10 % TWO64 == (10 * a) % TWO64
  {
    var q := a / TWO64;
    assert a == TWO64 * q + n;
    assert 10 * a == TWO64 * (10 * q) + 10 * n;
  }

  // ---- scripts

  const OP_DUP: int := 0x76
  const OP_EQUAL: int := 0x87
  const OP_EQUALVERIFY: int := 0x88
  const OP_HASH160: int := 0xa9
  const OP_CHECKSIG: int := 0xac
  const OP_RETURN: int := 0x6a
  const MAX_SCRIPT_SIZE: nat := 10000
  const SPECIAL_SCRIPTS: nat := 6

  /** Elliptic-curve keys: whether 65 bytes are a point of the curve, and the point 33 bytes stand for. */
  datatype Curve = Curve(isFullyValid: seq<int> -> bool, expand: seq<int> -> Option<seq<int>>)

  /** Keeping one coordinate and the parity of the other determines a valid point. */
  ghost predicate CurveLaw(c: Curve) {
    && (forall k :: c.expand(k).Some? ==> |c.expand(k).value| == 65)
    && (forall k :: |k| == 65 && k[0] == 4 && c.isFullyValid(k) ==> c.expand([2 + k[64] % 2] + k[1..33]) == Some(k))
  }

  predicate IsToKeyID(s: seq<int>) {
    |s| == 25 && s[0] == OP_DUP && s[1] == OP_HASH160 && s[2] == 20 && s[23] == OP_EQUALVERIFY && s[24] == OP_CHECKSIG
  }

  predicate IsToScriptID(s: seq<int>) {
    |s| == 23 && s[0] == OP_HASH160 && s[1] == 20 && s[22] == OP_EQUAL
  }

  predicate IsToShortKey(s: seq<int>) {
    |s| == 35 && s[0] == 33 && s[34] == OP_CHECKSIG && (s[1] == 2 || s[1] == 3)
  }

  predicate IsToLongKey(s: seq<int>, c: Curve) {
    |s| == 67 && s[0] == 65 && s[66] == OP_CHECKSIG && s[1] == 4 && c.isFullyValid(s[1..66])
  }

  function CompressScript(s: seq<int>, c: Curve): (r: Option<seq<int>>) {
    if IsToKeyID(s) then Some([0] + s[3..23])
    else if IsToScriptID(s) then Some([1] + s[2..22])
    else if IsToShortKey(s) then Some(s[1..34])
    else if IsToLongKey(s, c) then Some([4 + s[65] % 2] + s[2..34])
    else None
  }

  function SpecialSize(n: nat): (r: nat) {
    if n < 2 then 20 else if n < 6 then 32 else 0
  }

  /** The script a special form stands for; `old` is what a form that stands for none leaves. */
  function DecompressScript(n: nat, data: seq<int>, old_: seq<int>, c: Curve): (r: seq<int>)
    requires n < SPECIAL_SCRIPTS && |data| == SpecialSize(n)
  {
    if n == 0 then [OP_DUP, OP_HASH160, 20] + data + [OP_EQUALVERIFY, OP_CHECKSIG]
    else if n == 1 then [OP_HASH160, 20] + data + [OP_EQUAL]
    else if n < 4 then [33, n] + data + [OP_CHECKSIG]
    else
      var key := c.expand([n - 2] + data);
      if key == None then old_ else [65] + key.value + [OP_CHECKSIG]
  }

  function ScriptBytes(s: seq<int>, c: Curve): (r: seq<int>) {
    var special := CompressScript(s, c);
    if special.Some? then special.value else VarInt(|s| + SPECIAL_SCRIPTS) + s
  }

  /** Reading into a script that is empty, as in a new output. */
  function ReadScript(t: seq<int>, c: Curve): (r: Read<seq<int>>) {
    var size := ReadVarInt(t, 0, TWO32);
    if size.Fail? then Fail
    else if size.value < SPECIAL_SCRIPTS then
      var n := SpecialSize(size.value);
      if |size.rest| < n then Fail else Got(DecompressScript(size.value, size.rest[..n], [], c), size.rest[n..])
    else
      var n := size.value - SPECIAL_SCRIPTS;
      if |size.rest| < n then Fail
      else if n > MAX_SCRIPT_SIZE then Got([OP_RETURN], size.rest[n..])
      else Got(size.rest[..n], size.rest[n..])
  }

  function KeptScript(s: seq<int>): (r: seq<int>) {
    if |s| > MAX_SCRIPT_SIZE then [OP_RETURN] else s
  }

  lemma SpecialFormInverts(s: seq<int>, c: Curve)
    requires CurveLaw(c) && CompressScript(s, c).Some?
    ensures var r := CompressScript(s, c).value;
            && |r| >= 1 && 0 <= r[0] < SPECIAL_SCRIPTS && |r| == 1 + SpecialSize(r[0])
            && DecompressScript(r[0], r[1..], [], c) == s
  {
    var r := CompressScript(s, c).value;
    if IsToKeyID(s) {
      assert r[1..] == s[3..23];
      assert [OP_DUP, OP_HASH160, 20] + s[3..23] + [OP_EQUALVERIFY, OP_CHECKSIG] == s;
    } else if IsToScriptID(s) {
      assert r[1..] == s[2..22];
      assert [OP_HASH160, 20] + s[2..22] + [OP_EQUAL] == s;
    } else if IsToShortKey(s) {
      assert r[1..] == s[2..34];
      assert [33, s[1]] + s[2..34] + [OP_CHECKSIG] == s;
    } else {
      var key := s[1..66];
      assert r[1..] == s[2..34] == key[1..33];
      assert key[64] == s[65];
      assert c.expand([2 + key[64] % 2] + key[1..33]) == Some(key);
      assert [65] + key + [OP_CHECKSIG] == s;
    }
  }

  lemma SpecialRoundTrip(s: seq<int>, t: seq<int>, c: Curve)
    requires CurveLaw(c) && CompressScript(s, c).Some?
    ensures ReadScript(CompressScript(s, c).value + t, c) == Got(s, t)
  {
    hide CompressScript;
    hide DecompressScript;
    hide ReadVarInt;
    SpecialFormInverts(s, c);
    var r := CompressScript(s, c).value;
    assert VarInt(r[0]) == [r[0]];
    VarIntRoundTrip(r[0], r[1..] + t, TWO32);
    assert r + t == [r[0]] + (r[1..] + t);
    assert (r[1..] + t)[..|r| - 1] == r[1..] && (r[1..] + t)[|r| - 1..] == t;
  }

  /** Every script is read back as itself, except that one longer than the limit comes back as a bare OP_RETURN. */
  lemma ScriptRoundTrip(s: seq<int>, t: seq<int>, c: Curve)
    requires CurveLaw(c) && |s| + SPECIAL_SCRIPTS < TWO32
    ensures ReadScript(ScriptBytes(s, c) + t, c) == Got(KeptScript(s), t)
    ensures KeptScript(s) == s <==> |s| <= MAX_SCRIPT_SIZE
  {
    hide CompressScript;
    hide DecompressScript;
    hide ReadVarInt;
    hide VarInt;
    if CompressScript(s, c).Some? {
      SpecialRoundTrip(s, t, c);
      SpecialIsShort(s, c);
    } else {
      var n := |s| + SPECIAL_SCRIPTS;
      VarIntRoundTrip(n, s + t, TWO32);
      assert VarInt(n) + s + t == VarInt(n) + (s + t);
      assert (s + t)[..|s|] == s && (s + t)[|s|..] == t;
    }
  }

  lemma SpecialIsShort(s: seq<int>, c: Curve)
    requires CompressScript(s, c).Some?
    ensures |s| <= 67
  {}

  // ---- outputs

  /** A signed 64-bit amount as the unsigned number it is passed on as. */
  function Unsigned64(n: int): (r: nat) {
    n % TWO64
  }

  function OutBytes(o: TxOut, c: Curve): (r: seq<int>) {
    VarInt(Compressed(Unsigned64(o.nValue)) % TWO64) + ScriptBytes(o.scriptPubKey, c)
  }

  function ReadOut(t: seq<int>, c: Curve): (r: Read<TxOut>) {
    var amount := ReadVarInt(t, 0, TWO64);
    if amount.Fail? then Fail
    else
      var script := ReadScript(amount.rest, c);
      if script.Fail? then Fail else Got(TxOut(Decompressed(amount.value) % TWO64, script.value), script.rest)
  }

  /** An amount whose compressed form fits 64 bits, and a script whose length is a 32-bit number. */
  predicate Storable(o: TxOut) {
    0 <= o.nValue < TWO64 && Compressed(o.nValue) < TWO64 && |o.scriptPubKey| + SPECIAL_SCRIPTS < TWO32
  }

  function KeptOut(o: TxOut): (r: TxOut) {
    o.(scriptPubKey := KeptScript(o.scriptPubKey))
  }

  lemma OutRoundTrip(o: TxOut, t: seq<int>, c: Curve)
    requires CurveLaw(c) && Storable(o)
    ensures ReadOut(OutBytes(o, c) + t, c) == Got(KeptOut(o), t)
  {
    hide ReadVarInt;
    hide VarInt;
    hide ScriptBytes;
    hide ReadScript;
    hide Compressed;
    hide Decompressed;
    ModSmall(o.nValue, TWO64);
    ModSmall(Compressed(o.nValue), TWO64);
    var x := Compressed(o.nValue);
    AmountRoundTrip64(o.nValue);
    ScriptRoundTrip(o.scriptPubKey, t, c);
    VarIntRoundTrip(x, ScriptBytes(o.scriptPubKey, c) + t, TWO64);
    assert OutBytes(o, c) + t == VarInt(x) + (ScriptBytes(o.scriptPubKey, c) + t);
  }
}
