/**
 * IPv4 address codec and classification (func.go), together with the
 * big-endian decode that scanner.go applies to its start and end addresses.
 */
module Addresses {
  import opened Options

  type byte = b: int | 0 <= b < 0x100
  type uint32 = n: int | 0 <= n < 0x1_0000_0000

  /** binary.BigEndian.Uint32: the first four bytes, most significant first.
      The library panics on a shorter slice, so callers must supply four bytes. */
  function Uint32(b: seq<byte>): (n: uint32)
    requires |b| >= 4
    ensures n / 0x100_0000 == b[0]
    ensures n % 0x100 == b[3]
  {
    b[0] as int * 0x100_0000 + b[1] as int * 0x1_0000 + b[2] as int * 0x100 + b[3] as int
  }

  /** LongToIP4: the four-byte big-endian form of n (binary.BigEndian.PutUint32). */
  function LongToIP4(n: uint32): (ip: seq<byte>)
    ensures |ip| == 4
  {
    [n / 0x100_0000 % 0x100, n / 0x1_0000 % 0x100, n / 0x100 % 0x100, n % 0x100]
  }

  /** Decoding the four bytes LongToIP4 produces gives n back. */
  lemma DecodeEncode(n: uint32)
    ensures Uint32(LongToIP4(n)) == n
  {
    var q1, r0 := n / 0x100, n % 0x100;
    var q2, r1 := q1 / 0x100, q1 % 0x100;
    var q3, r2 := q2 / 0x100, q2 % 0x100;
    assert n == q2 * 0x1_0000 + r1 * 0x100 + r0;
    DivUnique(n, 0x1_0000, q2, r1 * 0x100 + r0);
    assert n == q3 * 0x100_0000 + r2 * 0x1_0000 + r1 * 0x100 + r0;
    DivUnique(n, 0x100_0000, q3, r2 * 0x1_0000 + r1 * 0x100 + r0);
  }

  /** Encoding the integer a four-byte address decodes to gives the same bytes. */
  lemma EncodeDecode(b: seq<byte>)
    requires |b| == 4
    ensures LongToIP4(Uint32(b)) == b
  {
    var n := Uint32(b);
    var b0, b1, b2, b3 := b[0] as int, b[1] as int, b[2] as int, b[3] as int;
    DivUnique(n, 0x100, b0 * 0x1_0000 + b1 * 0x100 + b2, b3);
    DivUnique(n, 0x1_0000, b0 * 0x100 + b1, b2 * 0x100 + b3);
    DivUnique(n, 0x100_0000, b0, b1 * 0x1_0000 + b2 * 0x100 + b3);
    DivUnique(b0 * 0x1_0000 + b1 * 0x100 + b2, 0x100, b0 * 0x100 + b1, b2);
    DivUnique(b0 * 0x100 + b1, 0x100, b0, b1);
    DivUnique(b0, 0x100, 0, b0);
  }

  /** Division with a remainder in range is unique. */
  lemma DivUnique(n: int, d: int, q: int, r: int)
    requires d > 0 && n == q * d + r && 0 <= r < d
    ensures n / d == q && n % d == r
  {
    var q', r' := n / d, n % d;
    assert n == q' * d + r';
    if q > q' {
      MulAtLeast(q - q', d);
      assert false;
    } else if q < q' {
      MulAtLeast(q' - q, d);
      assert false;
    }
  }

  lemma {:induction false} MulAtLeast(k: int, d: int)
    requires k >= 1 && d > 0
    ensures k * d >= d
    decreases k
  {
    if k > 1 {
      MulAtLeast(k - 1, d);
      assert k * d == (k - 1) * d + d;
    }
  }

  /** net.IP.To4: the four-byte form of an address, if it is IPv4 (either
      already four bytes long, or the IPv4-mapped sixteen-byte form). */
  function To4(ip: seq<byte>): (r: Option<seq<byte>>)
    ensures r.Some? ==> |r.value| == 4
  {
    if |ip| == 4 then Some(ip)
    else if |ip| == 16 && (forall i :: 0 <= i < 10 ==> ip[i] == 0) && ip[10] == 0xff && ip[11] == 0xff then
      Some(ip[12..])
    else None
  }

  /**
   * IsExternalIP4. `globalUnicast` is what net.IP.IsGlobalUnicast reports for
   * `ip`: that library predicate is not part of this model.
   */
  function IsExternalIP4(ip: seq<byte>, globalUnicast: bool): (r: bool)
    ensures r ==> globalUnicast
    ensures To4(ip).None? ==> r == globalUnicast
  {
    if !globalUnicast then false
    else match To4(ip)
      case None => true
      case Some(ip4) =>
        if ip4[0] == 10 then false
        else if ip4[0] == 127 then false
        else if ip4[0] == 240 then false  // reserved
        else if ip4[0] == 172 && ip4[1] >= 16 && ip4[1] <= 31 then false
        else if ip4[0] == 192 && ip4[1] == 168 then false
        else if ip4[0] == 169 && ip4[1] == 254 then false
        else true
  }

  /** An address block: the `size` addresses starting at `base`. */
  datatype Block = Block(base: uint32, size: nat)

  /** The blocks IsExternalIP4 treats as not external, in CIDR terms. */
  const NonExternalBlocks: seq<Block> := [
    Block(0x0A00_0000, 0x100_0000),  // 10.0.0.0/8
    Block(0x7F00_0000, 0x100_0000),  // 127.0.0.0/8
    Block(0xF000_0000, 0x100_0000),  // 240.0.0.0/8
    Block(0xAC10_0000, 0x10_0000),   // 172.16.0.0/12
    Block(0xC0A8_0000, 0x1_0000),    // 192.168.0.0/16
    Block(0xA9FE_0000, 0x1_0000)     // 169.254.0.0/16
  ]

  predicate InBlock(n: uint32, b: Block)
  {
    b.base <= n < b.base + b.size
  }

  predicate InNonExternalBlock(n: uint32)
  {
    exists i :: 0 <= i < |NonExternalBlocks| && InBlock(n, NonExternalBlocks[i])
  }

  /** The octet tests of IsExternalIP4 agree with the CIDR table: an address
      is external exactly when it is global unicast and either not IPv4 or
      an IPv4 address outside every block of the table. */
  lemma ExternalIffOutsideBlocks(ip: seq<byte>, globalUnicast: bool)
    ensures IsExternalIP4(ip, globalUnicast) <==>
      globalUnicast && (To4(ip).None? || !InNonExternalBlock(Uint32(To4(ip).value)))
  {
    if globalUnicast && To4(ip).Some? {
      var b := To4(ip).value;
      var n := Uint32(b);
      var rest := b[1] as int * 0x1_0000 + b[2] as int * 0x100 + b[3] as int;
      assert n == b[0] as int * 0x100_0000 + rest && rest < 0x100_0000;
      var low := b[2] as int * 0x100 + b[3] as int;
      assert rest == b[1] as int * 0x1_0000 + low && low < 0x1_0000;
      if InNonExternalBlock(n) {
        var i :| 0 <= i < |NonExternalBlocks| && InBlock(n, NonExternalBlocks[i]);
        assert !IsExternalIP4(ip, globalUnicast);
      } else {
        assert !InBlock(n, NonExternalBlocks[0]);
        assert !InBlock(n, NonExternalBlocks[1]);
        assert !InBlock(n, NonExternalBlocks[2]);
        assert !InBlock(n, NonExternalBlocks[3]);
        assert !InBlock(n, NonExternalBlocks[4]);
        assert !InBlock(n, NonExternalBlocks[5]);
        assert IsExternalIP4(ip, globalUnicast);
      }
    }
  }

  /** The 172.16.0.0/12 test stops exactly at its edges: 172.15.x.x and
      172.32.x.x are external when global unicast, 172.16.x.x and
      172.31.x.x are not. */
  lemma Edges172(x: byte, y: byte)
    ensures IsExternalIP4([172, 15, x, y], true)
    ensures IsExternalIP4([172, 32, x, y], true)
    ensures !IsExternalIP4([172, 16, x, y], true)
    ensures !IsExternalIP4([172, 31, x, y], true)
  {
  }
}
