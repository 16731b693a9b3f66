/**
 compute_ip_checksum of xdp_impl.rs against the Internet checksum of section 1 of RFC 1071, which
 section 3.1 of RFC 791 uses for the IPv4 header.
 */
module Checksum {
  import opened Bits
  import opened Words

  /** An IPv4 header of 20 bytes is ten 16-bit words; the checksum is word 5. */
  const WORDS := 10
  const CHECK := 5

  function Sum(ws: seq<u16>): nat {
    if ws == [] then 0 else Sum(ws[..|ws| - 1]) + ws[|ws| - 1]
  }

  /** The code adds the carries back in once. */
  function FoldOnce(s: nat): nat {
    s % 0x10000 + s / 0x10000
  }

  /** One's complement addition: the carry out of bit 15 is added back at bit 0. */
  function OnesAdd(a: u16, b: u16): u16 {
    if a + b > 0xFFFF then a + b - 0xFFFF else a + b
  }

  /** The one's complement sum of RFC 1071. */
  function OnesSum(ws: seq<u16>): u16 {
    if ws == [] then 0 else OnesAdd(OnesSum(ws[..|ws| - 1]), ws[|ws| - 1])
  }

  function RfcChecksum(ws: seq<u16>): u16 {
    0xFFFF - OnesSum(ws)
  }

  lemma {:induction false} SumBound(ws: seq<u16>)
    ensures Sum(ws) <= 0xFFFF * |ws|
  {
    if ws == [] {
    } else {
      SumBound(ws[..|ws| - 1]);
    }
  }

  /** The value compute_ip_checksum returns for a header with its checksum word cleared. */
  function CodeChecksum(ws: seq<u16>): u16 {
    0xFFFF - FoldOnce(Sum(ws)) % 0x10000
  }

  lemma Widths()
    ensures Pow2(16) == 0x10000 && Pow2(32) == 0x1_0000_0000
  {
    assert Pow2(8) == 0x100;
    Pow2Sum(8, 8);
    Pow2Sum(16, 16);
  }

  /** sum & 0xffff and sum >> 16 */
  lemma HalfWords(sum: u32)
    ensures And(sum, 0xFFFF) == sum % 0x10000 && High(sum, 16) == sum / 0x10000
  {
    Widths();
    AndLowMask(sum, 16);
    HighLow(sum, 16);
  }

  lemma ComplementResidue(fold: u32)
    ensures (0xFFFF_FFFF - fold) % 0x10000 == 0xFFFF - fold % 0x10000
  {
  }

  /** !fold as u16 */
  lemma ComplementWord(fold: u32)
    ensures fold < Pow2(32) && Low(Not(32, fold), 16) == 0xFFFF - fold % 0x10000
  {
    Widths();
    HighLow(Not(32, fold), 16);
    ComplementResidue(fold);
  }

  method FoldSum(sum: u32) returns (r: u32)
    requires sum <= 10 * 0xFFFF
    ensures r == FoldOnce(sum)
  {
    HalfWords(sum);
    r := And(sum, 0xFFFF) + High(sum, 16);
  }

  method ComplementLow(fold: u32) returns (r: u16)
    ensures r == 0xFFFF - fold % 0x10000
  {
    ComplementWord(fold);
    r := Low(Not(32, fold), 16);
  }

  /** The loop's u32 never overflows: `sum` holds the exact sum throughout. */
  method ComputeIpChecksum(header: array<u16>) returns (checksum: u16)
    requires header.Length == 10
    modifies header
    ensures header[..] == old(header[..])[5 := 0]
    ensures checksum == CodeChecksum(header[..])
  {
    header[CHECK] := 0;
    var sum: u32 := 0;
    for i := 0 to WORDS
      invariant sum == Sum(header[..i]) <= 0xFFFF * i
    {
      assert header[..i + 1][..i] == header[..i];
      sum := sum + header[i];
    }
    assert header[..WORDS] == header[..];
    sum := FoldSum(sum);
    checksum := ComplementLow(sum);
  }

  // ---------------------------------------------------------------- against RFC 1071

  /** The one's complement sum is the plain sum reduced mod 65535 into 1 .. 65535, and 0 only for 0. */
  lemma {:induction false} OnesSumValue(ws: seq<u16>)
    ensures OnesSum(ws) == if Sum(ws) == 0 then 0 else (Sum(ws) - 1) % 0xFFFF + 1
  {
    if ws == [] {
    } else {
      OnesSumValue(ws[..|ws| - 1]);
    }
  }

  lemma ModShift(f: nat, q: nat)
    ensures (0xFFFF * q + f) % 0xFFFF == f % 0xFFFF
  {
  }

  /** Adding the carries once keeps the sum mod 65535. */
  lemma FoldIsCongruent(ws: seq<u16>)
    ensures FoldOnce(Sum(ws)) % 0xFFFF == Sum(ws) % 0xFFFF
  {
    var s := Sum(ws);
    assert s == 0xFFFF * (s / 0x10000) + FoldOnce(s);
    ModShift(FoldOnce(s), s / 0x10000);
  }

  lemma {:induction false} SumOfUpdate(ws: seq<u16>, i: nat, w: u16)
    requires i < |ws|
    ensures Sum(ws[i := w]) == Sum(ws) - ws[i] + w
  {
    var n := |ws| - 1;
    if i < n {
      assert ws[i := w][..n] == ws[..n][i := w];
      SumOfUpdate(ws[..n], i, w);
    } else {
      assert ws[i := w][..n] == ws[..n];
    }
  }

  /** One fold against the reduction mod 65535, for a sum of ten words. */
  lemma FoldAndReduction(s: nat)
    requires 0 < s <= 10 * 0xFFFF
    ensures (s - 1) % 0xFFFF + 1 == if FoldOnce(s) <= 0xFFFF then FoldOnce(s) else FoldOnce(s) - 0xFFFF
    ensures FoldOnce(s) <= 0x1FFFE
  {
  }

  /** Adding the code's checksum to a sum s gives 0xffff, or one more when a second fold was due. */
  lemma StoredSum(s: nat)
    requires s <= 10 * 0xFFFF
    ensures var t := s + 0xFFFF - FoldOnce(s) % 0x10000;
      t > 0 && (FoldOnce(s) <= 0xFFFF <==> (t - 1) % 0xFFFF == 0xFFFE)
  {
    assert s == 0x10000 * (s / 0x10000) + s % 0x10000;
  }

  lemma ChecksumValues(ws: seq<u16>)
    requires |ws| == WORDS && ws[CHECK] == 0
    ensures FoldOnce(Sum(ws)) <= 0xFFFF <==> CodeChecksum(ws) == RfcChecksum(ws)
    ensures FoldOnce(Sum(ws)) > 0xFFFF ==> CodeChecksum(ws) == RfcChecksum(ws) + 1
  {
    SumBound(ws);
    OnesSumValue(ws);
    if Sum(ws) > 0 {
      FoldAndReduction(Sum(ws));
    }
  }

  lemma StoredHeader(ws: seq<u16>)
    requires |ws| == WORDS && ws[CHECK] == 0
    ensures FoldOnce(Sum(ws)) <= 0xFFFF <==> OnesSum(ws[CHECK := CodeChecksum(ws)]) == 0xFFFF
  {
    var c := CodeChecksum(ws);
    SumBound(ws);
    SumOfUpdate(ws, CHECK, c);
    OnesSumValue(ws[CHECK := c]);
    StoredSum(Sum(ws));
  }

  /**
   The code agrees with RFC 1071 exactly when one fold leaves 16 bits, and then a receiver's check of the
   stored header gives 0xffff; otherwise the result is one too large and the check fails.
   */
  lemma CodeAgainstRfc(ws: seq<u16>)
    requires |ws| == WORDS && ws[CHECK] == 0
    ensures FoldOnce(Sum(ws)) <= 0xFFFF <==> CodeChecksum(ws) == RfcChecksum(ws)
    ensures FoldOnce(Sum(ws)) > 0xFFFF ==> CodeChecksum(ws) == RfcChecksum(ws) + 1
    ensures FoldOnce(Sum(ws)) <= 0xFFFF <==> OnesSum(ws[CHECK := CodeChecksum(ws)]) == 0xFFFF
  {
    ChecksumValues(ws);
    StoredHeader(ws);
  }

  lemma PrefixSum(ws: seq<u16>, n: nat)
    requires 0 < n <= |ws|
    ensures Sum(ws[..n]) == Sum(ws[..n - 1]) + ws[n - 1]
  {
    assert ws[..n][..n - 1] == ws[..n - 1];
  }

  /** A well-formed header, of version 4 and five 32-bit words, whose sum needs a second fold. */
  lemma SecondFoldNeeded()
    ensures var ws: seq<u16> := [0x0045, 0xFFFF, 0, 0, 0, 0, 0xFFFF, 0xFFBB, 0, 0];
      FoldOnce(Sum(ws)) > 0xFFFF && OnesSum(ws[CHECK := CodeChecksum(ws)]) != 0xFFFF
  {
    var ws: seq<u16> := [0x0045, 0xFFFF, 0, 0, 0, 0, 0xFFFF, 0xFFBB, 0, 0];
    var sum: nat := 0;
    for n := 0 to |ws|
      invariant sum == Sum(ws[..n])
      invariant n <= 1 || sum == if n <= 6 then 0x10044 else if n == 7 then 0x20043 else 0x2FFFE
      invariant n == 1 ==> sum == 0x45
    {
      PrefixSum(ws, n + 1);
      sum := sum + ws[n];
    }
    assert ws[..10] == ws;
    assert FoldOnce(0x2FFFE) == 0x10000;
    CodeAgainstRfc(ws);
  }
}
