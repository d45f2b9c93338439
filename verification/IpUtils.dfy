/** Addresses as dotted quads and as 32-bit strings (satgonetem/utils/ip_utils.py). */
module IpUtils {
  import opened Wrappers
  import opened Text
  import opened Bits

  /** Dotted rendering of four octets. */
  function Dotted(o: seq<nat>): string
    requires |o| == 4
  {
    Decimal(o[0]) + "." + Decimal(o[1]) + "." + Decimal(o[2]) + "." + Decimal(o[3])
  }

  function QuadDot(b: string): string
    requires |b| == 32 && IsBits(b)
  {
    Dotted([Val(b[0..8]), Val(b[8..16]), Val(b[16..24]), Val(b[24..])])
  }

  /** The octets of a dotted address; an error when the text is not one. */
  function Octets(ip: string): (r: Result<seq<nat>>)
    ensures r.Ok? ==> |r.value| == 4 && forall i | 0 <= i < 4 :: r.value[i] < 256
  {
    var parts := Split(ip, '.');
    if |parts| != 4 then Err(ValueError)
    else
      var o := seq(4, i requires 0 <= i < 4 => ParseInt(parts[i]));
      if exists i | 0 <= i < 4 :: o[i].None? || !(0 <= o[i].value <= 255) then Err(ValueError)
      else Ok(seq(4, i requires 0 <= i < 4 => o[i].value))
  }

  function Ipv4ToBinary(ip: string): (r: Result<string>)
    ensures r.Ok? ==> |r.value| == 32 && IsBits(r.value)
  {
    match Octets(ip)
    case Err(e) => Err(e)
    case Ok(o) =>
      Ok(Fixed(o[0], 8) + Fixed(o[1], 8) + Fixed(o[2], 8) + Fixed(o[3], 8))
  }

  function Summarize(ip: string, prefix: int): Result<string> {
    if !(0 <= prefix <= 32) then Err(ValueError)
    else
      match Octets(ip)
      case Err(e) => Err(e)
      case Ok(o) =>
        var ipInt := Or(Or(Or(Shl(o[0], 24), Shl(o[1], 16)), Shl(o[2], 8)), o[3]);
        var m := And(ipInt, Shl(0xFFFF_FFFF, 32 - prefix));
        Ok(Dotted([And(Shr(m, 24), 0xFF), And(Shr(m, 16), 0xFF), And(Shr(m, 8), 0xFF), And(m, 0xFF)]))
  }

  /** Keep the first p bits, zero the rest. */
  function KeepPrefix(b: string, p: nat): (r: string)
    requires |b| == 32 && IsBits(b) && p <= 32
    ensures |r| == 32 && IsBits(r)
  {
    b[..p] + Zeros(32 - p)
  }

  lemma OctetsOfParts(ip: string, o: seq<nat>)
    requires |o| == 4 && forall i | 0 <= i < 4 :: o[i] < 256
    requires Split(ip, '.') == [Decimal(o[0]), Decimal(o[1]), Decimal(o[2]), Decimal(o[3])]
    ensures Octets(ip) == Ok(o)
  {
    hide Split, ParseInt, Decimal;
    forall i | 0 <= i < 4 ensures ParseInt(Split(ip, '.')[i]) == Some(o[i]) {
      ParseIntDecimal(o[i]);
    }
    assert Octets(ip).Ok?;
    assert Octets(ip).value == o;
  }

  lemma SplitFour(a: string, b: string, c: string, d: string)
    requires '.' !in a && '.' !in b && '.' !in c && '.' !in d
    ensures Split(a + "." + b + "." + c + "." + d, '.') == [a, b, c, d]
  {
    SplitWhole(d, '.');
    SplitPiece(c, d, '.');
    SplitPiece(b, c + "." + d, '.');
    SplitPiece(a, b + "." + (c + "." + d), '.');
    assert a + "." + b + "." + c + "." + d == a + "." + (b + "." + (c + "." + d));
  }

  lemma OctetsOfDotted(o: seq<nat>)
    requires |o| == 4 && forall i | 0 <= i < 4 :: o[i] < 256
    ensures Octets(Dotted(o)) == Ok(o)
  {
    SplitFour(Decimal(o[0]), Decimal(o[1]), Decimal(o[2]), Decimal(o[3]));
    OctetsOfParts(Dotted(o), o);
  }

  lemma FixedSlice(s: string)
    requires |s| == 8 && IsBits(s)
    ensures Val(s) < 256 && Fixed(Val(s), 8) == s
  {
    FixedVal(s);
    assert Pow2(8) == 256;
  }

  lemma RenderedOctets(s0: string, s1: string, s2: string, s3: string)
    requires IsBits(s0) && IsBits(s1) && IsBits(s2) && IsBits(s3)
    requires |s0| == |s1| == |s2| == |s3| == 8
    ensures Ipv4ToBinary(Dotted([Val(s0), Val(s1), Val(s2), Val(s3)])) == Ok(s0 + s1 + s2 + s3)
  {
    FixedSlice(s0);
    FixedSlice(s1);
    FixedSlice(s2);
    FixedSlice(s3);
    OctetsOfDotted([Val(s0), Val(s1), Val(s2), Val(s3)]);
  }

  /** Reading back what quaddot writes gives the same 32 bits. */
  lemma BinaryRoundTrip(b: string)
    requires |b| == 32 && IsBits(b)
    ensures Ipv4ToBinary(QuadDot(b)) == Ok(b)
  {
    hide Ipv4ToBinary, Dotted, Val;
    RenderedOctets(b[0..8], b[8..16], b[16..24], b[24..]);
    assert b == b[0..8] + b[8..16] + b[16..24] + b[24..];
  }

  lemma QuadDotInjective(a: string, b: string)
    requires |a| == 32 && IsBits(a) && |b| == 32 && IsBits(b)
    requires QuadDot(a) == QuadDot(b)
    ensures a == b
  {
    BinaryRoundTrip(a);
    BinaryRoundTrip(b);
  }

  lemma AndByte(a: nat, c: nat)
    requires c < 256
    ensures And(Shl(a, 8) + c, 0xFF) == c
  {
    assert Pow2(8) == 256;
    AndLowMask(a, 8, c);
  }

  lemma DropLow(hi: string, lo: string)
    requires IsBits(hi) && IsBits(lo)
    ensures Shr(Val(hi + lo), |lo|) == Val(hi)
  {
    ValConcat(hi, lo);
    FixedVal(lo);
    ShrShl(Val(hi), |lo|, Val(lo));
  }

  lemma OctetAt(hi: string, o: string, lo: string, b: string)
    requires IsBits(hi) && IsBits(o) && IsBits(lo) && |o| == 8 && b == hi + o + lo
    ensures And(Shr(Val(b), |lo|), 0xFF) == Val(o)
  {
    assert Shr(Val(b), |lo|) == Val(hi + o) by { DropLow(hi + o, lo); }
    LastOctet(hi, o);
  }

  lemma LastOctet(hi: string, o: string)
    requires IsBits(hi) && IsBits(o) && |o| == 8
    ensures And(Val(hi + o), 0xFF) == Val(o)
  {
    assert Val(o) < 256 by { FixedSlice(o); }
    assert Val(hi + o) == Shl(Val(hi), 8) + Val(o) by { ValConcat(hi, o); }
    AndByte(Val(hi), Val(o));
  }

  /** The four octets of a number whose 32-bit rendering is b are the four slices of b. */
  lemma OctetsOfValue(b: string)
    requires |b| == 32 && IsBits(b)
    ensures And(Shr(Val(b), 24), 0xFF) == Val(b[0..8])
    ensures And(Shr(Val(b), 16), 0xFF) == Val(b[8..16])
    ensures And(Shr(Val(b), 8), 0xFF) == Val(b[16..24])
    ensures And(Val(b), 0xFF) == Val(b[24..])
  {
    OctetAt(b[..0], b[0..8], b[8..], b);
    OctetAt(b[..8], b[8..16], b[16..], b);
    OctetAt(b[..16], b[16..24], b[24..], b);
    OctetAt(b[..24], b[24..], b[32..], b);
    assert Shr(Val(b), 0) == Val(b);
  }

  lemma JoinOctets(s0: string, s1: string, s2: string, s3: string, w: nat)
    requires IsBits(s0) && IsBits(s1) && IsBits(s2) && IsBits(s3)
    requires |s0| == |s1| == |s2| == |s3| == 8 && w == 8
    ensures Or(Or(Or(Shl(Val(s0), 3 * w), Shl(Val(s1), 2 * w)), Shl(Val(s2), w)), Val(s3))
            == Val(s0 + s1 + s2 + s3)
  {
    var x := Or(Shl(Val(s0), 3 * w), Shl(Val(s1), 2 * w));
    assert x == Shl(Val(s0 + s1), 2 * w) by { JoinNext(s0, s1, 2 * w, 3 * w); }
    var y := Or(x, Shl(Val(s2), w));
    assert y == Shl(Val(s0 + s1 + s2), w) by { JoinNext(s0 + s1, s2, w, 2 * w); }
    JoinLast(s0 + s1 + s2, s3, w);
  }

  lemma JoinLast(hi: string, s: string, w: nat)
    requires IsBits(hi) && IsBits(s) && |s| == 8 && w == 8
    ensures Or(Shl(Val(hi), w), Val(s)) == Val(hi + s)
  {
    JoinNext(hi, s, 0, w);
  }

  lemma JoinNext(hi: string, s: string, k: nat, j: nat)
    requires IsBits(hi) && IsBits(s) && |s| == 8 && j == 8 + k
    ensures Or(Shl(Val(hi), j), Shl(Val(s), k)) == Shl(Val(hi + s), k)
  {
    ValConcat(hi, s);
    FixedVal(s);
    ShlAdd(Val(hi), 8, k);
    ShlSum(Shl(Val(hi), 8), Val(s), k);
    ShlBound(Val(s), 8, k);
    OrDisjoint(Val(hi), j, Shl(Val(s), k));
  }

  lemma {:induction false} ShlBound(x: nat, j: nat, k: nat)
    requires x < Pow2(j)
    ensures Shl(x, k) < Pow2(j + k)
  {
    if k > 0 {
      ShlBound(x, j, k - 1);
    }
  }

  lemma {:induction false} Pow2Shl(j: nat, k: nat)
    ensures Pow2(j + k) == Shl(Pow2(j), k)
  {
    if k > 0 {
      Pow2Shl(j, k - 1);
    }
  }

  lemma ShlByte(x: nat)
    ensures Shl(x, 8) == 256 * x
  {
    assert Shl(x, 1) == 2 * x;
    assert Shl(x, 2) == 4 * x;
    assert Shl(x, 3) == 8 * x;
    assert Shl(x, 4) == 16 * x;
    assert Shl(x, 5) == 32 * x;
    assert Shl(x, 6) == 64 * x;
    assert Shl(x, 7) == 128 * x;
  }

  lemma Pow2Of32()
    ensures Pow2(32) == 0x1_0000_0000
  {
    assert Pow2(8) == 256;
    assert Pow2(16) == 0x1_0000 by { Pow2Shl(8, 8); ShlByte(256); }
    assert Pow2(24) == 0x100_0000 by { Pow2Shl(16, 8); ShlByte(0x1_0000); }
    assert Pow2(32) == 0x1_0000_0000 by { Pow2Shl(24, 8); ShlByte(0x100_0000); }
  }

  lemma MaskNumber(x: nat, w: nat, k: nat)
    requires x < Pow2(w)
    ensures And(x, Shl(Pow2(w) - 1, k)) == Shl(Shr(x, k), k)
  {
    Pow2Monotone(w, w + k);
    AndHighMask(x, w, k);
  }

  lemma MaskLow(hi: string, lo: string, w: nat)
    requires IsBits(hi) && IsBits(lo) && |hi| + |lo| == w
    ensures And(Val(hi + lo), Shl(Pow2(w) - 1, |lo|)) == Shl(Val(hi), |lo|)
  {
    assert Val(hi + lo) < Pow2(w) by { FixedVal(hi + lo); }
    assert Shr(Val(hi + lo), |lo|) == Val(hi) by { DropLow(hi, lo); }
    MaskNumber(Val(hi + lo), w, |lo|);
  }

  lemma ValPadded(hi: string, k: nat)
    requires IsBits(hi)
    ensures Val(hi + Zeros(k)) == Shl(Val(hi), k)
  {
    ValConcat(hi, Zeros(k));
    ValZeros(k);
  }

  /** Clearing the low bits of the number is zeroing the tail of its rendering. */
  lemma ValKeepPrefix(b: string, p: nat, w: nat)
    requires |b| == 32 == w && IsBits(b) && p <= 32
    ensures And(Val(b), Shl(Pow2(w) - 1, 32 - p)) == Val(KeepPrefix(b, p))
  {
    assert b == b[..p] + b[p..];
    MaskLow(b[..p], b[p..], w);
    ValPadded(b[..p], 32 - p);
  }

  /** The integer arithmetic of summarize is "keep the first p bits" on every text that parses as an
      address; it fails exactly on a bad prefix length or a text ipv4_to_binary rejects. */
  lemma SummarizeKeepsPrefix(ip: string, p: int)
    ensures Summarize(ip, p) ==
            if 0 <= p <= 32 && Ipv4ToBinary(ip).Ok? then Ok(QuadDot(KeepPrefix(Ipv4ToBinary(ip).value, p)))
            else Err(ValueError)
  {
    if 0 <= p <= 32 && Octets(ip).Ok? {
      assert Pow2(8) == 256;
      var o, b := Octets(ip).value, Ipv4ToBinary(ip).value;
      forall i | 0 <= i < 4 { ValFixed(o[i], 8); }
      JoinOctets(Fixed(o[0], 8), Fixed(o[1], 8), Fixed(o[2], 8), Fixed(o[3], 8), 8);
      ValKeepPrefix(b, p, 32);
      Pow2Of32();
      OctetsOfValue(KeepPrefix(b, p));
    }
  }

  lemma KeepPrefixTwice(b: string, p: nat, q: nat)
    requires |b| == 32 && IsBits(b) && p <= 32 && q <= 32
    ensures KeepPrefix(KeepPrefix(b, p), q) == KeepPrefix(b, if p < q then p else q)
  {
  }

  /** Summarizing twice keeps the shorter of the two prefixes. */
  lemma SummarizeTwice(ip: string, p: nat, q: nat)
    requires p <= 32 && q <= 32 && Summarize(ip, p).Ok?
    ensures Summarize(Summarize(ip, p).value, q) == Summarize(ip, if p < q then p else q)
  {
    SummarizeKeepsPrefix(ip, p);
    var b := Ipv4ToBinary(ip).value;
    BinaryRoundTrip(KeepPrefix(b, p));
    SummarizeKeepsPrefix(QuadDot(KeepPrefix(b, p)), q);
    SummarizeKeepsPrefix(ip, if p < q then p else q);
    KeepPrefixTwice(b, p, q);
  }
}
