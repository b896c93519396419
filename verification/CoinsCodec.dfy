/**
 The packed form of a transaction's unspent outputs (`CCoins::Serialize` and
 `Unserialize`): version, a header code with the flags and the first two outputs, a
 bit mask for the others, the unspent outputs, the height.
 */
module CoinsCodec {
  import opened Basics
  import opened Coins
  import opened Compressor

  /** Signed ints are read in 31 bits: what comes back is never negative. */
  const TWO31: nat := 0x8000_0000

  function Avail(vout: seq<TxOut>, i: nat): (b: bool) {
    i < |vout| && !vout[i].IsNull()
  }

  // ---- bytes of bits, lowest bit first

  function ByteOf(bits: seq<bool>): (n: nat) {
    if bits == [] then 0 else (if bits[0] then 1 else 0) + 2 * ByteOf(bits[1..])
  }

  function BitsOf(n: int, k: nat): (bits: seq<bool>)
    ensures |bits| == k
    decreases k
  {
    if k == 0 then [] else [n % 2 == 1] + BitsOf(n / 2, k - 1)
  }

  lemma {:induction false} BitsRoundTrip(bits: seq<bool>)
    ensures BitsOf(ByteOf(bits), |bits|) == bits
    ensures ByteOf(bits) == 0 <==> forall i :: 0 <= i < |bits| ==> !bits[i]
  {
    if bits != [] {
      BitsRoundTrip(bits[1..]);
      assert bits == [bits[0]] + bits[1..];
      assert forall i :: 1 <= i < |bits| ==> bits[i] == bits[1..][i - 1];
      assert ByteOf(bits) / 2 == ByteOf(bits[1..]);
    }
  }

  function Bits(vout: seq<TxOut>, b: nat): (r: seq<bool>)
    ensures |r| == 8 && forall i :: 0 <= i < 8 ==> r[i] == Avail(vout, 2 + 8 * b + i)
  {
    seq(8, i requires 0 <= i < 8 => Avail(vout, 2 + 8 * b + i))
  }

  predicate NonZero(vout: seq<TxOut>, b: nat) {
    exists i :: 0 <= i < 8 && Bits(vout, b)[i]
  }

  /** Bytes up to the last one that is not zero, among the first `n`. */
  function UsedBytes(vout: seq<TxOut>, n: nat): (r: nat)
    ensures r <= n && (r > 0 ==> NonZero(vout, r - 1)) && forall b :: r <= b < n ==> !NonZero(vout, b)
  {
    if n == 0 then 0 else if NonZero(vout, n - 1) then n else UsedBytes(vout, n - 1)
  }

  /** How many of the bytes from `b` to `n` are not zero. */
  function NonZeroBytes(vout: seq<TxOut>, b: nat, n: nat): (r: nat)
    requires b <= n
    decreases n - b
  {
    if b == n then 0 else NonZeroBytes(vout, b + 1, n) + if NonZero(vout, b) then 1 else 0
  }

  function AllBytes(vout: seq<TxOut>): (n: nat) {
    if |vout| <= 2 then 0 else (|vout| + 5) / 8
  }

  function MaskSize(vout: seq<TxOut>): (n: nat) {
    UsedBytes(vout, AllBytes(vout))
  }

  lemma {:induction false} NonZeroUsed(vout: seq<TxOut>, b: nat, n: nat)
    requires b <= UsedBytes(vout, n)
    ensures NonZeroBytes(vout, b, n) == NonZeroBytes(vout, b, UsedBytes(vout, n))
    ensures b < UsedBytes(vout, n) ==> NonZeroBytes(vout, b, n) > 0
    decreases UsedBytes(vout, n) - b
  {
    var u := UsedBytes(vout, n);
    if b < u {
      NonZeroUsed(vout, b + 1, n);
    } else {
      NoneNonZero(vout, b, n);
    }
  }

  lemma {:induction false} NoneNonZero(vout: seq<TxOut>, b: nat, n: nat)
    requires b <= n && forall k :: b <= k < n ==> !NonZero(vout, k)
    ensures NonZeroBytes(vout, b, n) == 0
    decreases n - b
  {
    if b < n {
      NoneNonZero(vout, b + 1, n);
    }
  }

  /** Every available output is one of the first two or has its bit in the mask. */
  lemma MaskCovers(vout: seq<TxOut>, i: nat)
    requires Avail(vout, i)
    ensures i < 2 + 8 * MaskSize(vout)
  {
    if i >= 2 {
      var b := (i - 2) / 8;
      assert Bits(vout, b)[(i - 2) % 8];
      assert NonZero(vout, b);
    }
  }

  method CalcMaskSize(vout: seq<TxOut>) returns (nBytes: nat, nNonzeroBytes: nat)
    ensures nBytes == MaskSize(vout)
    ensures nNonzeroBytes == NonZeroBytes(vout, 0, MaskSize(vout))
  {
    nBytes, nNonzeroBytes := 0, 0;
    var b := 0;
    while 2 + b * 8 < |vout|
      invariant 0 <= b <= AllBytes(vout)
      invariant nBytes == UsedBytes(vout, b)
      invariant nNonzeroBytes == NonZeroBytes(vout, 0, b)
    {
      var fZero := true;
      var i := 0;
      while i < 8 && 2 + b * 8 + i < |vout|
        invariant 0 <= i <= 8
        invariant fZero <==> forall j :: 0 <= j < i ==> !Bits(vout, b)[j]
      {
        assert Bits(vout, b)[i] == !vout[2 + b * 8 + i].IsNull();
        if !vout[2 + b * 8 + i].IsNull() {
          fZero := false;
        }
        i := i + 1;
      }
      assert forall j :: i <= j < 8 ==> !Bits(vout, b)[j];
      NonZeroLast(vout, 0, b);
      if !fZero {
        nBytes := b + 1;
        nNonzeroBytes := nNonzeroBytes + 1;
      }
      b := b + 1;
    }
    assert b == AllBytes(vout);
    NonZeroUsed(vout, 0, b);
  }

  lemma {:induction false} NonZeroLast(vout: seq<TxOut>, b: nat, n: nat)
    requires b <= n
    ensures NonZeroBytes(vout, b, n + 1) == NonZeroBytes(vout, b, n) + if NonZero(vout, n) then 1 else 0
    decreases n - b
  {
    if b < n {
      NonZeroLast(vout, b + 1, n);
    }
  }

  // ---- the mask on the stream

  function MaskBytes(vout: seq<TxOut>, b: nat, n: nat): (s: seq<int>)
    requires b <= n
    decreases n - b
  {
    if b == n then [] else [ByteOf(Bits(vout, b))] + MaskBytes(vout, b + 1, n)
  }

  /** Reads bytes until `code` of them were not zero. */
  function ReadMask(s: seq<int>, code: nat): (r: Read<seq<bool>>)
    decreases |s|
  {
    if code == 0 then Got([], s)
    else if s == [] then Fail
    else
      var r := ReadMask(s[1..], if s[0] != 0 then code - 1 else code);
      if r.Fail? then Fail else Got(BitsOf(s[0], 8) + r.value, r.rest)
  }

  function AvailFrom(vout: seq<TxOut>, i: nat, n: nat): (r: seq<bool>)
    ensures |r| == n && forall k :: 0 <= k < n ==> r[k] == Avail(vout, i + k)
  {
    seq(n, k requires 0 <= k < n => Avail(vout, i + k))
  }

  lemma ByteBits(vout: seq<TxOut>, b: nat)
    ensures BitsOf(ByteOf(Bits(vout, b)), 8) == Bits(vout, b)
    ensures ByteOf(Bits(vout, b)) != 0 <==> NonZero(vout, b)
  {
    BitsRoundTrip(Bits(vout, b));
  }

  lemma ReadMaskCons(ch: int, s: seq<int>, code: nat)
    requires code > 0
    ensures var r := ReadMask(s, if ch != 0 then code - 1 else code);
            ReadMask([ch] + s, code) == if r.Fail? then Fail else Got(BitsOf(ch, 8) + r.value, r.rest)
  {
    hide BitsOf;
    assert ([ch] + s)[1..] == s;
  }

  lemma {:induction false} MaskRoundTrip(vout: seq<TxOut>, b: nat, n: nat, t: seq<int>)
    requires b <= n && (n > 0 ==> NonZero(vout, n - 1))
    ensures ReadMask(MaskBytes(vout, b, n) + t, NonZeroBytes(vout, b, n)) == Got(AvailFrom(vout, 2 + 8 * b, 8 * (n - b)), t)
    decreases n - b
  {
    hide ByteOf;
    hide BitsOf;
    hide NonZero;
    hide Avail;
    if b == n {
      assert MaskBytes(vout, b, n) + t == t;
    } else {
      hide ReadMask;
      ByteBits(vout, b);
      MaskRoundTrip(vout, b + 1, n, t);
      LastIsNonZero(vout, b, n);
      var ch, more := ByteOf(Bits(vout, b)), MaskBytes(vout, b + 1, n) + t;
      assert MaskBytes(vout, b, n) + t == [ch] + more;
      ReadMaskCons(ch, more, NonZeroBytes(vout, b, n));
      BitsThenMore(vout, b, n);
      assert ReadMask(MaskBytes(vout, b, n) + t, NonZeroBytes(vout, b, n)) == Got(AvailFrom(vout, 2 + 8 * b, 8 * (n - b)), t);
    }
  }

  lemma BitsThenMore(vout: seq<TxOut>, b: nat, n: nat)
    requires b < n
    ensures Bits(vout, b) + AvailFrom(vout, 2 + 8 * (b + 1), 8 * (n - b - 1)) == AvailFrom(vout, 2 + 8 * b, 8 * (n - b))
  {}

  lemma {:induction false} LastIsNonZero(vout: seq<TxOut>, b: nat, n: nat)
    requires b < n && NonZero(vout, n - 1)
    ensures NonZeroBytes(vout, b, n) > 0
    decreases n - b
  {
    if b < n - 1 {
      LastIsNonZero(vout, b + 1, n);
    }
  }

  // ---- the outputs on the stream

  function OutsBytes(vout: seq<TxOut>, c: Curve): (s: seq<int>) {
    if vout == [] then [] else (if vout[0].IsNull() then [] else OutBytes(vout[0], c)) + OutsBytes(vout[1..], c)
  }

  function ReadOuts(avail: seq<bool>, s: seq<int>, c: Curve): (r: Read<seq<TxOut>>)
    decreases |avail|
  {
    if avail == [] then Got([], s)
    else if avail[0] then
      var o := ReadOut(s, c);
      if o.Fail? then Fail
      else
        var r := ReadOuts(avail[1..], o.rest, c);
        if r.Fail? then Fail else Got([o.value] + r.value, r.rest)
    else
      var r := ReadOuts(avail[1..], s, c);
      if r.Fail? then Fail else Got([NULL_OUT] + r.value, r.rest)
  }

  /** The first `n` outputs as they come back. */
  function KeptOuts(vout: seq<TxOut>, n: nat): (r: seq<TxOut>)
    ensures |r| == n && forall i :: 0 <= i < n ==> r[i] == if Avail(vout, i) then KeptOut(vout[i]) else NULL_OUT
  {
    seq(n, i requires 0 <= i < n => if Avail(vout, i) then KeptOut(vout[i]) else NULL_OUT)
  }

  predicate AllStorable(vout: seq<TxOut>) {
    forall i :: 0 <= i < |vout| && !vout[i].IsNull() ==> Storable(vout[i])
  }

  lemma {:induction false} OutsRoundTrip(vout: seq<TxOut>, n: nat, t: seq<int>, c: Curve)
    requires CurveLaw(c) && AllStorable(vout) && forall i: nat :: Avail(vout, i) ==> i < n
    ensures ReadOuts(AvailFrom(vout, 0, n), OutsBytes(vout, c) + t, c) == Got(KeptOuts(vout, n), t)
    decreases n
  {
    hide OutBytes;
    hide ReadOut;
    hide Storable;
    hide CurveLaw;
    if n == 0 {
      NothingToWrite(vout, c);
      assert OutsBytes(vout, c) + t == t;
    } else {
      var tail := if vout == [] then [] else vout[1..];
      TailAvail(vout, tail, n);
      OutsRoundTrip(tail, n - 1, t, c);
      FirstOut(vout, tail, t, c);
    }
  }

  lemma TailAvail(vout: seq<TxOut>, tail: seq<TxOut>, n: nat)
    requires tail == (if vout == [] then [] else vout[1..]) && n > 0 && forall i: nat :: Avail(vout, i) ==> i < n
    ensures forall i: nat :: Avail(tail, i) ==> i < n - 1
    ensures AvailFrom(vout, 0, n)[0] == Avail(vout, 0) && AvailFrom(vout, 0, n)[1..] == AvailFrom(tail, 0, n - 1)
    ensures KeptOuts(vout, n) == [if Avail(vout, 0) then KeptOut(vout[0]) else NULL_OUT] + KeptOuts(tail, n - 1)
  {
    forall i: nat | Avail(tail, i) ensures i < n - 1 {
      assert Avail(vout, i + 1);
    }
  }

  lemma FirstOut(vout: seq<TxOut>, tail: seq<TxOut>, t: seq<int>, c: Curve)
    requires CurveLaw(c) && AllStorable(vout) && tail == (if vout == [] then [] else vout[1..])
    ensures !Avail(vout, 0) ==> OutsBytes(vout, c) + t == OutsBytes(tail, c) + t
    ensures Avail(vout, 0) ==> ReadOut(OutsBytes(vout, c) + t, c) == Got(KeptOut(vout[0]), OutsBytes(tail, c) + t)
  {
    hide OutBytes;
    hide ReadOut;
    if Avail(vout, 0) {
      OutRoundTrip(vout[0], OutsBytes(tail, c) + t, c);
      assert OutsBytes(vout, c) + t == OutBytes(vout[0], c) + (OutsBytes(tail, c) + t);
    } else if vout != [] {
      assert [] + OutsBytes(tail, c) == OutsBytes(tail, c);
    }
  }

  lemma {:induction false} NothingToWrite(vout: seq<TxOut>, c: Curve)
    requires forall i: nat :: !Avail(vout, i)
    ensures OutsBytes(vout, c) == []
  {
    hide OutBytes;
    if vout != [] {
      assert !Avail(vout, 0);
      forall i: nat ensures !Avail(vout[1..], i) {
        assert !Avail(vout, i + 1);
      }
      NothingToWrite(vout[1..], c);
    }
  }

  // ---- the whole record

  function Header(c: Coins, nonZero: int): (code: int) {
    var first, second := Avail(c.vout, 0), Avail(c.vout, 1);
    16 * (nonZero - (if first || second then 0 else 1))
    + (if c.fCoinBase then 1 else 0) + (if c.fCoinStake then 2 else 0) + (if first then 4 else 0) + (if second then 8 else 0)
  }

  function Packed(c: Coins, curve: Curve): (s: seq<int>) {
    var n := MaskSize(c.vout);
    VarInt(c.nVersion) + VarInt(Header(c, NonZeroBytes(c.vout, 0, n))) + MaskBytes(c.vout, 0, n)
    + OutsBytes(c.vout, curve) + VarInt(c.nHeight)
  }

  function Unpacked(s: seq<int>, curve: Curve): (r: Read<Coins>) {
    var version := ReadVarInt(s, 0, TWO31);
    if version.Fail? then Fail
    else
      var code := ReadVarInt(version.rest, 0, TWO32);
      if code.Fail? then Fail
      else
        var x := code.value;
        var first, second := x / 4 % 2 == 1, x / 8 % 2 == 1;
        var mask := ReadMask(code.rest, x / 16 + if first || second then 0 else 1);
        if mask.Fail? then Fail
        else
          var outs := ReadOuts([first, second] + mask.value, mask.rest, curve);
          if outs.Fail? then Fail
          else
            var height := ReadVarInt(outs.rest, 0, TWO31);
            if height.Fail? then Fail
            else Got(Coins(x % 2 == 1, x / 2 % 2 == 1, outs.value, height.value, version.value).Tidied(), height.rest)
  }

  /** The coins as they come back: negative version and height cut to seven bits, overlong scripts replaced. */
  function Kept(c: Coins): (r: Coins) {
    Coins(c.fCoinBase, c.fCoinStake, KeptOuts(c.vout, |c.vout|), KeptInt(c.nHeight), KeptInt(c.nVersion))
  }

  lemma HeaderFields(c: Coins, nonZero: nat)
    requires Avail(c.vout, 0) || Avail(c.vout, 1) || nonZero > 0
    ensures var x := Header(c, nonZero);
            && x >= 0
            && (x % 2 == 1) == c.fCoinBase && (x / 2 % 2 == 1) == c.fCoinStake
            && (x / 4 % 2 == 1) == Avail(c.vout, 0) && (x / 8 % 2 == 1) == Avail(c.vout, 1)
            && x / 16 + (if Avail(c.vout, 0) || Avail(c.vout, 1) then 0 else 1) == nonZero
  {
    var first, second := Avail(c.vout, 0), Avail(c.vout, 1);
    HeaderBits(nonZero - (if first || second then 0 else 1), if c.fCoinBase then 1 else 0, if c.fCoinStake then 1 else 0,
               if first then 1 else 0, if second then 1 else 0);
  }

  lemma HeaderBits(q: nat, b0: nat, b1: nat, b2: nat, b3: nat)
    requires b0 <= 1 && b1 <= 1 && b2 <= 1 && b3 <= 1
    ensures var x := 16 * q + b0 + 2 * b1 + 4 * b2 + 8 * b3;
            x % 2 == b0 && x / 2 % 2 == b1 && x / 4 % 2 == b2 && x / 8 % 2 == b3 && x / 16 == q
  {
    var x := 16 * q + b0 + 2 * b1 + 4 * b2 + 8 * b3;
    assert x / 2 == 8 * q + b1 + 2 * b2 + 4 * b3;
    assert x / 4 == 4 * q + b2 + 2 * b3;
    assert x / 8 == 2 * q + b3;
  }

  /** The assertion of `Serialize`: something unspent is in the header or in the mask. */
  lemma SomethingUnspent(c: Coins)
    requires !c.IsPruned()
    ensures Avail(c.vout, 0) || Avail(c.vout, 1) || NonZeroBytes(c.vout, 0, MaskSize(c.vout)) > 0
  {
    var i :| 0 <= i < |c.vout| && !c.vout[i].IsNull();
    MaskCovers(c.vout, i);
    if i >= 2 {
      NonZeroUsed(c.vout, 0, AllBytes(c.vout));
    }
  }

  lemma {:induction false} TidiedUnique(c: Coins, k: nat)
    requires k <= |c.vout| && (k > 0 ==> !c.vout[k - 1].IsNull()) && forall i :: k <= i < |c.vout| ==> c.vout[i].IsNull()
    ensures c.Tidied() == c.(vout := c.vout[..k])
    decreases |c.vout|
  {
    if k < |c.vout| {
      TidiedUnique(c.(vout := c.vout[..|c.vout| - 1]), k);
      assert c.vout[..|c.vout| - 1][..k] == c.vout[..k];
    } else {
      assert c.vout[..k] == c.vout;
    }
  }

  lemma AvailIsKept(c: Coins, vout: seq<TxOut>, n: nat, i: nat)
    requires c.vout == KeptOuts(vout, n) && Avail(vout, i) && i < n && !KeptOut(vout[i]).IsNull()
    ensures i < |c.Tidied().vout|
  {
    assert !c.vout[i].IsNull();
  }

  /** Spent outputs added at the end make no difference once tidied. */
  lemma TidiedForgetsPadding(c: Coins, vout: seq<TxOut>, n: nat, m: nat)
    requires c.vout == KeptOuts(vout, n) && m == |vout| && forall i: nat :: Avail(vout, i) ==> i < n && !KeptOut(vout[i]).IsNull()
    ensures c.Tidied() == c.(vout := KeptOuts(vout, m)).Tidied()
  {
    hide KeptOuts;
    hide KeptOut;
    var k, w := |c.Tidied().vout|, KeptOuts(vout, m);
    assert k > 0 ==> Avail(vout, k - 1);
    forall i: nat | Avail(vout, i) ensures i < k {
      AvailIsKept(c, vout, n, i);
    }
    assert forall i :: k <= i < m ==> w[i].IsNull();
    TidiedUnique(c.(vout := w), k);
    assert w[..k] == c.vout[..k];
  }

  predicate Fits(c: Coins) {
    && c.nVersion < TWO31 && c.nHeight < TWO31 && AllStorable(c.vout)
    && Header(c, NonZeroBytes(c.vout, 0, MaskSize(c.vout))) < TWO32
  }

  /** Unpacking what was packed gives the coins back, tidied, for everything with something unspent in it. */
  lemma UnpackInvertsPack(c: Coins, t: seq<int>, curve: Curve)
    requires CurveLaw(curve) && !c.IsPruned() && Fits(c)
    ensures Unpacked(Packed(c, curve) + t, curve) == Got(Kept(c).Tidied(), t)
  {
    hide Packed;
    hide Unpacked;
    hide VarInt;
    hide ReadVarInt;
    hide MaskBytes;
    hide ReadMask;
    hide OutsBytes;
    hide ReadOuts;
    hide Header;
    hide CurveLaw;
    hide MaskSize;
    hide NonZeroBytes;
    hide Storable;
    hide Kept;
    var n := MaskSize(c.vout);
    var nonZero := NonZeroBytes(c.vout, 0, n);
    var x := Header(c, nonZero);
    var t4 := VarInt(c.nHeight) + t;
    var t3 := OutsBytes(c.vout, curve) + t4;
    var t2 := MaskBytes(c.vout, 0, n) + t3;
    var t1 := VarInt(x) + t2;
    PackedParts(c, t, curve);
    HeaderRoundTrip(c, t1, t2, t3);
    BodyRoundTrip(c, t4, t, curve);
    UnpackedParts(VarInt(c.nVersion) + t1, c, t1, t2, t3, t4, t, curve);
    KeptIsTidied(c, n);
  }

  lemma PackedParts(c: Coins, t: seq<int>, curve: Curve)
    ensures var n := MaskSize(c.vout);
            Packed(c, curve) + t == VarInt(c.nVersion) + (VarInt(Header(c, NonZeroBytes(c.vout, 0, n)))
                                    + (MaskBytes(c.vout, 0, n) + (OutsBytes(c.vout, curve) + (VarInt(c.nHeight) + t))))
  {
    hide VarInt;
    hide MaskBytes;
    hide OutsBytes;
    hide Header;
    hide NonZeroBytes;
    hide MaskSize;
  }

  /** Version, header code and mask are read back. */
  lemma HeaderRoundTrip(c: Coins, t1: seq<int>, t2: seq<int>, t3: seq<int>)
    requires !c.IsPruned() && Fits(c)
    requires var n := MaskSize(c.vout);
             t1 == VarInt(Header(c, NonZeroBytes(c.vout, 0, n))) + t2 && t2 == MaskBytes(c.vout, 0, n) + t3
    ensures var n := MaskSize(c.vout); var x := Header(c, NonZeroBytes(c.vout, 0, n));
            && ReadVarInt(VarInt(c.nVersion) + t1, 0, TWO31) == Got(KeptInt(c.nVersion), t1)
            && x >= 0 && ReadVarInt(t1, 0, TWO32) == Got(x, t2)
            && (x % 2 == 1) == c.fCoinBase && (x / 2 % 2 == 1) == c.fCoinStake
            && (x / 4 % 2 == 1) == Avail(c.vout, 0) && (x / 8 % 2 == 1) == Avail(c.vout, 1)
            && ReadMask(t2, x / 16 + if Avail(c.vout, 0) || Avail(c.vout, 1) then 0 else 1) == Got(AvailFrom(c.vout, 2, 8 * n), t3)
  {
    hide VarInt;
    hide ReadVarInt;
    hide MaskBytes;
    hide ReadMask;
    hide Header;
    hide MaskSize;
    hide NonZeroBytes;
    hide NonZero;
    hide Storable;
    var n := MaskSize(c.vout);
    SomethingUnspent(c);
    HeaderFields(c, NonZeroBytes(c.vout, 0, n));
    SignedVarIntRoundTrip(c.nVersion, t1, TWO31);
    VarIntRoundTrip(Header(c, NonZeroBytes(c.vout, 0, n)), t2, TWO32);
    MaskIsNonZero(c.vout);
    MaskRoundTrip(c.vout, 0, n, t3);
  }

  /** Outputs and height are read back. */
  lemma BodyRoundTrip(c: Coins, t4: seq<int>, t: seq<int>, curve: Curve)
    requires CurveLaw(curve) && Fits(c) && t4 == VarInt(c.nHeight) + t
    ensures var n := MaskSize(c.vout);
            && ReadOuts([Avail(c.vout, 0), Avail(c.vout, 1)] + AvailFrom(c.vout, 2, 8 * n), OutsBytes(c.vout, curve) + t4, curve)
               == Got(KeptOuts(c.vout, 2 + 8 * n), t4)
            && ReadVarInt(t4, 0, TWO31) == Got(KeptInt(c.nHeight), t)
  {
    hide VarInt;
    hide ReadVarInt;
    hide OutsBytes;
    hide ReadOuts;
    hide CurveLaw;
    hide MaskSize;
    hide Storable;
    var n := MaskSize(c.vout);
    assert [Avail(c.vout, 0), Avail(c.vout, 1)] + AvailFrom(c.vout, 2, 8 * n) == AvailFrom(c.vout, 0, 2 + 8 * n);
    forall i: nat | Avail(c.vout, i) ensures i < 2 + 8 * n {
      MaskCovers(c.vout, i);
    }
    OutsRoundTrip(c.vout, 2 + 8 * n, t4, curve);
    SignedVarIntRoundTrip(c.nHeight, t, TWO31);
  }

  lemma UnpackedParts(s: seq<int>, c: Coins, t1: seq<int>, t2: seq<int>, t3: seq<int>, t4: seq<int>, t: seq<int>, curve: Curve)
    requires ReadVarInt(s, 0, TWO31) == Got(KeptInt(c.nVersion), t1)
    requires var n := MaskSize(c.vout); var x := Header(c, NonZeroBytes(c.vout, 0, n));
             && x >= 0 && ReadVarInt(t1, 0, TWO32) == Got(x, t2)
             && (x % 2 == 1) == c.fCoinBase && (x / 2 % 2 == 1) == c.fCoinStake
             && (x / 4 % 2 == 1) == Avail(c.vout, 0) && (x / 8 % 2 == 1) == Avail(c.vout, 1)
             && ReadMask(t2, x / 16 + if Avail(c.vout, 0) || Avail(c.vout, 1) then 0 else 1) == Got(AvailFrom(c.vout, 2, 8 * n), t3)
             && ReadOuts([Avail(c.vout, 0), Avail(c.vout, 1)] + AvailFrom(c.vout, 2, 8 * n), t3, curve) == Got(KeptOuts(c.vout, 2 + 8 * n), t4)
    requires ReadVarInt(t4, 0, TWO31) == Got(KeptInt(c.nHeight), t)
    ensures Unpacked(s, curve) == Got(Kept(c).(vout := KeptOuts(c.vout, 2 + 8 * MaskSize(c.vout))).Tidied(), t)
  {
    hide ReadVarInt;
    hide ReadMask;
    hide ReadOuts;
    hide Header;
    hide MaskSize;
    hide NonZeroBytes;
    hide Avail;
    hide AvailFrom;
    hide KeptOuts;
    hide KeptInt;
  }

  lemma KeptIsTidied(c: Coins, n: nat)
    requires n == MaskSize(c.vout) && AllStorable(c.vout)
    ensures Kept(c).(vout := KeptOuts(c.vout, 2 + 8 * n)).Tidied() == Kept(c).Tidied()
  {
    hide MaskSize;
    forall i: nat | Avail(c.vout, i) ensures i < 2 + 8 * n && !KeptOut(c.vout[i]).IsNull() {
      MaskCovers(c.vout, i);
    }
    TidiedForgetsPadding(Kept(c).(vout := KeptOuts(c.vout, 2 + 8 * n)), c.vout, 2 + 8 * n, |c.vout|);
  }

  lemma MaskIsNonZero(vout: seq<TxOut>)
    ensures MaskSize(vout) > 0 ==> NonZero(vout, MaskSize(vout) - 1)
  {}

  /** Nothing in it that the format cannot hold: no negative version or height, and no unspent script over the limit. */
  ghost predicate Lossless(c: Coins) {
    && c.nVersion >= 0 && c.nHeight >= 0
    && forall i :: 0 <= i < |c.vout| && !c.vout[i].IsNull() ==> |c.vout[i].scriptPubKey| <= MAX_SCRIPT_SIZE
  }

  /** Coins as the cache keeps them are read back as they were if and only if there is nothing in them that the format
      cannot hold. */
  lemma RoundTripIsExact(c: Coins, t: seq<int>, curve: Curve)
    requires CurveLaw(curve) && !c.IsPruned() && Fits(c) && c.IsTidy() && c.NullsAreBare()
    ensures Unpacked(Packed(c, curve) + t, curve) == Got(c, t) <==> Lossless(c)
  {
    hide Packed;
    hide Unpacked;
    hide Kept;
    hide Lossless;
    UnpackInvertsPack(c, t, curve);
    KeptWhenLossless(c);
  }

  lemma KeptWhenLossless(c: Coins)
    requires c.IsTidy() && c.NullsAreBare()
    ensures Kept(c).Tidied() == c <==> Lossless(c)
  {
    var k := Kept(c);
    assert k.IsTidy() by {
      if c.vout != [] {
        assert k.vout[|c.vout| - 1] == KeptOut(c.vout[|c.vout| - 1]);
      }
    }
    assert k.Tidied() == k;
    if k == c {
      forall i | 0 <= i < |c.vout| && !c.vout[i].IsNull() ensures |c.vout[i].scriptPubKey| <= MAX_SCRIPT_SIZE {
        assert k.vout[i] == KeptOut(c.vout[i]);
      }
    } else {
      assert k.vout == c.vout ==> k.nVersion != c.nVersion || k.nHeight != c.nHeight;
    }
  }

  // ---- the loops

  method Serialize(c: Coins, curve: Curve) returns (s: seq<int>)
    requires !c.IsPruned()
    ensures s == Packed(c, curve)
  {
    hide VarInt;
    hide MaskBytes;
    hide OutsBytes;
    hide NonZeroBytes;
    hide MaskSize;
    var nMaskSize, nMaskCode := CalcMaskSize(c.vout);
    var fFirst, fSecond := |c.vout| > 0 && !c.vout[0].IsNull(), |c.vout| > 1 && !c.vout[1].IsNull();
    SomethingUnspent(c);
    assert fFirst || fSecond || nMaskCode > 0;
    var nCode := 16 * (nMaskCode - (if fFirst || fSecond then 0 else 1)) + (if c.fCoinBase then 1 else 0)
                 + (if c.fCoinStake then 2 else 0) + (if fFirst then 4 else 0) + (if fSecond then 8 else 0);
    var version := WriteVarInt(c.nVersion);
    var code := WriteVarInt(nCode);
    var mask := WriteMask(c.vout, nMaskSize);
    var outs := WriteOuts(c.vout, curve);
    var height := WriteVarInt(c.nHeight);
    s := version + code + mask + outs + height;
  }

  method WriteMask(vout: seq<TxOut>, n: nat) returns (s: seq<int>)
    ensures s == MaskBytes(vout, 0, n)
  {
    s := [];
    var b := 0;
    while b < n
      invariant 0 <= b <= n
      invariant MaskBytes(vout, 0, n) == s + MaskBytes(vout, b, n)
    {
      var chAvail := WriteByte(vout, b);
      assert s + MaskBytes(vout, b, n) == s + [chAvail] + MaskBytes(vout, b + 1, n);
      s := s + [chAvail];
      b := b + 1;
    }
  }

  /** One bit at a time; `bit` is the next bit's weight. */
  method WriteByte(vout: seq<TxOut>, b: nat) returns (chAvail: nat)
    ensures chAvail == ByteOf(Bits(vout, b))
  {
    chAvail := 0;
    var bit, i := 1, 0;
    ghost var bits := Bits(vout, b);
    assert bits[0..] == bits;
    while i < 8 && 2 + b * 8 + i < |vout|
      invariant 0 <= i <= 8 && bit >= 1
      invariant ByteOf(bits) == chAvail + bit * ByteOf(bits[i..])
    {
      assert bits[i..][1..] == bits[i + 1..];
      ByteStep(bit, if bits[i] then 1 else 0, ByteOf(bits[i + 1..]));
      if !vout[2 + b * 8 + i].IsNull() {
        chAvail := chAvail + bit;
      }
      bit := bit * 2;
      i := i + 1;
    }
    BitsRoundTrip(bits[i..]);
  }

  lemma ByteStep(bit: nat, d: nat, rest: nat)
    ensures bit * (d + 2 * rest) == bit * d + (bit * 2) * rest
  {}

  method WriteOuts(vout: seq<TxOut>, curve: Curve) returns (s: seq<int>)
    ensures s == OutsBytes(vout, curve)
  {
    hide OutBytes;
    hide OutsBytes;
    s := [];
    var i := 0;
    assert vout[0..] == vout;
    while i < |vout|
      invariant 0 <= i <= |vout|
      invariant OutsBytes(vout, curve) == s + OutsBytes(vout[i..], curve)
    {
      OutsStep(vout, i, curve);
      if !vout[i].IsNull() {
        var o := OutBytes(vout[i], curve);
        Reassociate(s, o, OutsBytes(vout[i + 1..], curve));
        s := s + o;
      }
      i := i + 1;
    }
    assert vout[i..] == [];
    NothingToWrite(vout[i..], curve);
  }

  lemma OutsStep(vout: seq<TxOut>, i: nat, c: Curve)
    requires i < |vout|
    ensures OutsBytes(vout[i..], c) == (if vout[i].IsNull() then [] else OutBytes(vout[i], c)) + OutsBytes(vout[i + 1..], c)
  {
    hide OutBytes;
    assert vout[i..][1..] == vout[i + 1..];
  }

  lemma Reassociate(a: seq<int>, b: seq<int>, c: seq<int>)
    ensures a + (b + c) == a + b + c && [] + c == c
  {}

  method Unserialize(s: seq<int>, curve: Curve) returns (r: Read<Coins>)
    ensures r == Unpacked(s, curve)
  {
    hide ReadVarInt;
    hide ReadMask;
    hide ReadOuts;
    var version := ReadVarInt(s, 0, TWO31);
    if version.Fail? {
      return Fail;
    }
    var code := ReadVarInt(version.rest, 0, TWO32);
    if code.Fail? {
      return Fail;
    }
    var nCode := code.value;
    var vAvail := [nCode / 4 % 2 != 0, nCode / 8 % 2 != 0];
    var nMaskCode := nCode / 16 + if vAvail[0] || vAvail[1] then 0 else 1;
    var ok, bits, rest := ReadMaskBytes(code.rest, nMaskCode);
    if !ok {
      return Fail;
    }
    vAvail := vAvail + bits;
    var ok', vout, left := ReadOutputs(vAvail, rest, curve);
    if !ok' {
      return Fail;
    }
    var height := ReadVarInt(left, 0, TWO31);
    if height.Fail? {
      return Fail;
    }
    var tidy := Cleanup(Coins(nCode % 2 == 1, nCode / 2 % 2 == 1, vout, height.value, version.value));
    r := Got(tidy, height.rest);
  }

  method ReadMaskBytes(s: seq<int>, code: nat) returns (ok: bool, bits: seq<bool>, rest: seq<int>)
    ensures var r := ReadMask(s, code); ok == r.Got? && (ok ==> bits == r.value && rest == r.rest)
  {
    hide BitsOf;
    bits, rest := [], s;
    var nMaskCode := code;
    while nMaskCode > 0
      invariant var r, now := ReadMask(s, code), ReadMask(rest, nMaskCode);
                r.Got? == now.Got? && (r.Got? ==> r.value == bits + now.value && r.rest == now.rest)
      decreases |rest|
    {
      if rest == [] {
        return false, bits, rest;
      }
      var chAvail := rest[0];
      rest := rest[1..];
      bits := bits + BitsOf(chAvail, 8);
      if chAvail != 0 {
        nMaskCode := nMaskCode - 1;
      }
    }
    ok := true;
  }

  method ReadOutputs(vAvail: seq<bool>, s: seq<int>, curve: Curve) returns (ok: bool, vout: seq<TxOut>, rest: seq<int>)
    ensures var r := ReadOuts(vAvail, s, curve); ok == r.Got? && (ok ==> vout == r.value && rest == r.rest)
  {
    hide ReadOut;
    vout, rest := [], s;
    var i := 0;
    assert vAvail[0..] == vAvail;
    while i < |vAvail|
      invariant 0 <= i <= |vAvail|
      invariant var r, now := ReadOuts(vAvail, s, curve), ReadOuts(vAvail[i..], rest, curve);
                r.Got? == now.Got? && (r.Got? ==> r.value == vout + now.value && r.rest == now.rest)
    {
      assert vAvail[i..][1..] == vAvail[i + 1..];
      if vAvail[i] {
        var o := ReadOut(rest, curve);
        if o.Fail? {
          return false, vout, rest;
        }
        vout, rest := vout + [o.value], o.rest;
      } else {
        vout := vout + [NULL_OUT];
      }
      i := i + 1;
    }
    ok := true;
  }
}
