/**
 * Values shared by the transport's components: fixed-width integers,
 * packets reduced to the header fields the core reads, and addresses with
 * their canonical string form.
 */
module Rdtp {

  const TwoTo32: nat := 0x1_0000_0000

  /** Go's `uint32`. */
  type U32 = x: int | 0 <= x < 0x1_0000_0000

  /** Go's `uint16`. */
  type U16 = x: int | 0 <= x < 0x1_0000

  /** Go's `byte`. */
  type Byte = x: int | 0 <= x < 0x100

  /**
   * `counter += uint32(n)` for a non-negative Go `int` n: the conversion
   * and the addition both wrap, so the counter ends at `(counter + n) mod 2^32`.
   */
  function AddU32(counter: U32, n: nat): U32
  {
    (counter + n) % TwoTo32
  }

  /** Adding in two steps wraps to the same counter as adding the sum at once. */
  lemma AddU32Twice(counter: U32, m: nat, n: nat)
    ensures AddU32(AddU32(counter, m), n) == AddU32(counter, m + n)
  {
  }

  /** The four control flags of a packet header. */
  datatype Flags = Flags(syn: bool, ack: bool, fin: bool, err: bool)

  /**
   * A packet as the core sees it. Ports, checksum and the out-of-band IP
   * addresses belong to the codec and the factory and are not modelled.
   * `length` is the header's payload length field, kept apart from
   * `payload` because the socket reads the two separately.
   */
  datatype Packet = Packet(seqNo: U32, ackNo: U32, length: U16, flags: Flags, payload: seq<Byte>)

  /** The payloads of `ps`, concatenated in queue order. */
  function Payloads(ps: seq<Packet>): seq<Byte>
  {
    if |ps| == 0 then [] else ps[0].payload + Payloads(ps[1..])
  }

  /** The sum of the length fields of `ps`. */
  function TotalLength(ps: seq<Packet>): nat
  {
    if |ps| == 0 then 0 else ps[0].length + TotalLength(ps[1..])
  }

  /**
   * Counting the first packet's length and then the rest's is counting
   * the total length, modulo 2^32.
   */
  lemma CountFirstThenRest(counter: U32, afterFirst: U32, ps: seq<Packet>)
    requires |ps| > 0
    requires afterFirst == (counter + ps[0].length) % TwoTo32
    ensures AddU32(afterFirst, TotalLength(ps[1..])) == AddU32(counter, TotalLength(ps))
  {
    AddU32Twice(counter, ps[0].length, TotalLength(ps[1..]));
  }

  /** An rdtp address: a host string and a port. */
  datatype Addr = Addr(host: string, port: nat)

  /** The decimal digit for `d`. */
  function DigitChar(d: nat): char
    requires d < 10
  {
    "0123456789"[d]
  }

  predicate IsDigit(c: char)
  {
    '0' <= c <= '9'
  }

  /** Go's `%d` formatting of a non-negative integer. */
  function NatToString(n: nat): (s: string)
    ensures |s| > 0
    ensures forall i :: 0 <= i < |s| ==> IsDigit(s[i])
    decreases n
  {
    if n < 10 then [DigitChar(n)] else NatToString(n / 10) + [DigitChar(n % 10)]
  }

  /** Reads a string of decimal digits back as a number; the inverse of `NatToString`. */
  function ParseDigits(s: string): nat
    requires forall i :: 0 <= i < |s| ==> IsDigit(s[i])
  {
    if |s| == 0 then 0
    else
      var last := s[|s| - 1];
      assert IsDigit(last);
      ParseDigits(s[..|s| - 1]) * 10 + (last as int - '0' as int)
  }

  lemma {:induction false} NatToStringRoundTrip(n: nat)
    ensures ParseDigits(NatToString(n)) == n
    decreases n
  {
    var s := NatToString(n);
    if n >= 10 {
      NatToStringRoundTrip(n / 10);
      assert s[..|s| - 1] == NatToString(n / 10);
    }
  }

  /** The canonical "host:port" form of an address. */
  function AddrString(a: Addr): string
  {
    a.host + ":" + NatToString(a.port)
  }

  /** `c` does not occur in `s`. */
  predicate Lacks(s: string, c: char)
  {
    forall i :: 0 <= i < |s| ==> s[i] != c
  }

  /**
   * A separator that does not occur after it is the last one: both
   * splittings of the same string at `c` agree.
   */
  lemma SplitAtLast(h1: string, d1: string, h2: string, d2: string, c: char)
    requires Lacks(d1, c) && Lacks(d2, c)
    requires h1 + [c] + d1 == h2 + [c] + d2
    ensures h1 == h2 && d1 == d2
  {
    var s := h1 + [c] + d1;
    assert forall i :: |h1| < i < |s| ==> s[i] == d1[i - |h1| - 1];
    assert forall i :: |h2| < i < |s| ==> s[i] == d2[i - |h2| - 1];
    assert s[|h1|] == c && s[|h2|] == c;
    assert |h1| == |h2|;
    assert h1 == s[..|h1|] == h2;
    assert d1 == s[|h1| + 1..] == d2;
  }

  /**
   * A separator that does not occur before it is the first one: both
   * splittings of the same string at `c` agree.
   */
  lemma SplitAtFirst(h1: string, d1: string, h2: string, d2: string, c: char)
    requires Lacks(h1, c) && Lacks(h2, c)
    requires h1 + [c] + d1 == h2 + [c] + d2
    ensures h1 == h2 && d1 == d2
  {
    var s := h1 + [c] + d1;
    assert forall i :: 0 <= i < |h1| ==> s[i] == h1[i];
    assert forall i :: 0 <= i < |h2| ==> s[i] == h2[i];
    assert s[|h1|] == c && s[|h2|] == c;
    assert |h1| == |h2|;
    assert h1 == s[..|h1|] == h2;
    assert d1 == s[|h1| + 1..] == d2;
  }

  /** Two addresses with the same canonical string are the same address. */
  lemma AddrStringInjective(a: Addr, b: Addr)
    requires AddrString(a) == AddrString(b)
    ensures a == b
  {
    var da, db := NatToString(a.port), NatToString(b.port);
    assert Lacks(da, ':') && Lacks(db, ':');
    SplitAtLast(a.host, da, b.host, db, ':');
    NatToStringRoundTrip(a.port);
    NatToStringRoundTrip(b.port);
  }

  /** A socket's identity: both address strings separated by one space (Go's `"%s %s"`). */
  function SocketId(local: Addr, remote: Addr): (id: string)
    ensures |id| == |AddrString(local)| + 1 + |AddrString(remote)|
    ensures id[..|AddrString(local)|] == AddrString(local)
    ensures id[|AddrString(local)|] == ' '
    ensures id[|AddrString(local)| + 1..] == AddrString(remote)
  {
    AddrString(local) + " " + AddrString(remote)
  }

  /** Hosts without spaces give canonical address strings without spaces. */
  lemma AddrStringNoSpace(a: Addr)
    requires Lacks(a.host, ' ')
    ensures Lacks(AddrString(a), ' ')
  {
  }

  /**
   * When no host contains a space, the identity names the socket's address
   * pair: two sockets with the same identity have the same local and the
   * same remote address.
   */
  lemma SocketIdInjective(l1: Addr, r1: Addr, l2: Addr, r2: Addr)
    requires Lacks(l1.host, ' ') && Lacks(l2.host, ' ')
    requires SocketId(l1, r1) == SocketId(l2, r2)
    ensures l1 == l2 && r1 == r2
  {
    AddrStringNoSpace(l1);
    AddrStringNoSpace(l2);
    SplitAtFirst(AddrString(l1), AddrString(r1), AddrString(l2), AddrString(r2), ' ');
    AddrStringInjective(l1, l2);
    AddrStringInjective(r1, r2);
  }
}
