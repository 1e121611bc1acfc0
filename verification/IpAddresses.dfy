/** IP addresses as identifiers see them. */
module IpAddresses {
  import opened Common

  type Segments = s: seq<nat> | |s| == 8 && forall i :: 0 <= i < 8 ==> s[i] < 0x1_0000
    witness [0, 0, 0, 0, 0, 0, 0, 0]

  type Word32 = n: nat | n < 0x1_0000_0000

  /** An IPv4 address as a 32-bit number, an IPv6 address as eight 16-bit segments. */
  datatype IpAddr = V4(bits: Word32) | V6(segments: Segments)

  /** The characters of dotted-decimal and of section 4 of RFC 5952. */
  predicate IsAddressText(s: string) {
    forall i :: 0 <= i < |s| ==> '0' <= s[i] <= '9' || 'a' <= s[i] <= 'f' || s[i] == ':' || s[i] == '.'
  }

  /** The standard library's address parser and printer, which this model does not define. Every
      result holds for any choice of them; where one needs it, `Valid` says that printing is
      undone by parsing and uses address characters only. */
  datatype IpText = IpText(parse: string -> Option<IpAddr>, print_: IpAddr -> string) {
    ghost predicate Valid() {
      forall ip :: parse(print_(ip)) == Some(ip) && IsAddressText(print_(ip))
    }
  }

  // ----- IPv4 addresses embedded in IPv6 -----

  predicate IsIpv4Mapped(s: Segments) {
    s[0] == 0 && s[1] == 0 && s[2] == 0 && s[3] == 0 && s[4] == 0 && s[5] == 0xffff
  }

  /** The 128-bit number of an address. */
  function Bits(s: Segments): nat {
    ((((((s[0] * 0x1_0000 + s[1]) * 0x1_0000 + s[2]) * 0x1_0000 + s[3]) * 0x1_0000 + s[4]) * 0x1_0000 + s[5])
     * 0x1_0000 + s[6]) * 0x1_0000 + s[7]
  }

  /** `is_ipv4_embedded` */
  predicate IsIpv4Embedded(s: Segments) {
    || IsIpv4Mapped(s)
    || ((forall i :: 0 <= i < 6 ==> s[i] == 0) && Bits(s) > 1)
  }

  /** The test on segments is the test on prefixes: `::ffff:0:0/96`, or `::/96` except the
      unspecified and loopback addresses. */
  lemma EmbeddedIsPrefixTest(s: Segments)
    ensures IsIpv4Embedded(s) <==>
            0xffff_0000_0000 <= Bits(s) < 0x1_0000_0000_0000 || 2 <= Bits(s) < 0x1_0000_0000
  {
    var high := (((s[0] * 0x1_0000 + s[1]) * 0x1_0000 + s[2]) * 0x1_0000 + s[3]) * 0x1_0000 + s[4];
    var prefix := high * 0x1_0000 + s[5];
    var low := s[6] * 0x1_0000 + s[7];
    assert low < 0x1_0000_0000;
    assert Bits(s) == prefix * 0x1_0000_0000 + low;
    assert prefix == 0 <==> forall i :: 0 <= i < 6 ==> s[i] == 0;
    assert prefix == 0xffff <==> IsIpv4Mapped(s);
  }
}
