/** The arithmetic that ties a TAP index to the names and addresses of a guest VM
    (crates/common/src/networking.rs and the MAC address in crates/daemon/src/provision.rs). */
module GuestAddressing {
  import opened Prelude
  import Decimal
  import opened Text

  const MAX_TAP_INDEX: nat := 63 * 63 - 1

  const GATEWAY: string := "172.16.0.1"

  const U32_MAX: nat := 0xFFFF_FFFF

  function TapName(index: nat): string { "tap" + Decimal.Print(index) }

  /** How the daemon reads an index back from a device name: strip `tap`, parse a u32. */
  function ParseTapName(name: string): Option<nat> {
    if "tap" <= name then Decimal.Parse(name[3..], U32_MAX) else None
  }

  /** `guest_ip`: an error (None) beyond the maximum index. */
  function GuestIp(index: nat): Option<string> {
    if index <= MAX_TAP_INDEX
    then Some("172.16." + Decimal.Print(index / 63) + "." + Decimal.Print(index % 63 * 4 + 2))
    else None
  }

  function HexDigit(d: nat): char
    requires d < 16
  {
    "0123456789ABCDEF"[d]
  }

  /** `{:02X}` of a value below 256. */
  function HexByte(n: nat): string
    requires n < 256
  {
    [HexDigit(n / 16), HexDigit(n % 16)]
  }

  function Mac(index: nat): string
    requires index <= MAX_TAP_INDEX
  {
    "AA:FC:00:00:" + HexByte(index / 256) + ":" + HexByte(index % 256)
  }

  // ---- Reading a dotted quad ----

  predicate IsOctet(s: string) { s != [] && Decimal.AllDigits(s) && Decimal.Value(s) <= 255 }

  /** The four octets of an IPv4 address in dotted decimal, if `s` is one. */
  function ParseIpv4(s: string): Option<seq<nat>> {
    var p := Split(s, '.');
    if |p| == 4 && IsOctet(p[0]) && IsOctet(p[1]) && IsOctet(p[2]) && IsOctet(p[3])
    then Some([Decimal.Value(p[0]), Decimal.Value(p[1]), Decimal.Value(p[2]), Decimal.Value(p[3])])
    else None
  }

  function Quad(a: nat, b: nat, c: nat, d: nat): string {
    Decimal.Print(a) + ['.'] + (Decimal.Print(b) + ['.'] + (Decimal.Print(c) + ['.'] + Decimal.Print(d)))
  }

  lemma SplitFour(a: string, b: string, c: string, d: string, sep: char)
    requires sep !in a && sep !in b && sep !in c && sep !in d
    ensures Split(a + [sep] + (b + [sep] + (c + [sep] + d)), sep) == [a, b, c, d]
  {
    SplitAppend(a, sep, b + [sep] + (c + [sep] + d));
    SplitAppend(b, sep, c + [sep] + d);
    SplitAppend(c, sep, d);
    SplitAppend(d, sep, []);
  }

  lemma QuadDenotes(a: nat, b: nat, c: nat, d: nat)
    requires a <= 255 && b <= 255 && c <= 255 && d <= 255
    ensures ParseIpv4(Quad(a, b, c, d)) == Some([a, b, c, d])
  {
    SplitFour(Decimal.Print(a), Decimal.Print(b), Decimal.Print(c), Decimal.Print(d), '.');
  }

  lemma SmallPrints()
    ensures Decimal.Print(172) == "172" && Decimal.Print(16) == "16"
    ensures Decimal.Print(0) == "0" && Decimal.Print(1) == "1"
  {
    assert Decimal.Print(17) == Decimal.Print(1) + ['7'];
    assert Decimal.Print(172) == Decimal.Print(17) + ['2'];
  }

  /** The text that the daemon prints and hands to the guest denotes the octets of its subnet scheme; there is one
      exactly up to the maximum index. */
  lemma GuestIpDenotes(index: nat)
    ensures GuestIp(index).Some? <==> index <= 3968
    ensures index <= 3968 ==> ParseIpv4(GuestIp(index).value) == Some([172, 16, index / 63, 4 * (index % 63) + 2])
    ensures index <= 3968 ==> index / 63 <= 62 && 4 * (index % 63) + 2 <= 250
  {
    if index <= MAX_TAP_INDEX {
      SmallPrints();
      QuadDenotes(172, 16, index / 63, index % 63 * 4 + 2);
      assert GuestIp(index).value == Quad(172, 16, index / 63, index % 63 * 4 + 2);
    }
  }

  /** Every index names one address and one device, and no other index names the same: addresses differ, MACs
      differ, device names parse back, and no guest is given the gateway's address. */
  lemma AddressesAreDistinct(i: nat, j: nat)
    requires i <= MAX_TAP_INDEX && j <= MAX_TAP_INDEX
    ensures GuestIp(i) == GuestIp(j) <==> i == j
    ensures Mac(i) == Mac(j) <==> i == j
    ensures GuestIp(i) != Some(GATEWAY)
  {
    GuestIpDenotes(i);
    GuestIpDenotes(j);
    if GuestIp(i) == GuestIp(j) {
      var a, b := [172, 16, i / 63, 4 * (i % 63) + 2], [172, 16, j / 63, 4 * (j % 63) + 2];
      assert a[2] == b[2] && a[3] == b[3];
    }
    GatewayDenotes();
    assert [172, 16, i / 63, 4 * (i % 63) + 2][3] >= 2;
    if Mac(i) == Mac(j) { MacInjective(i, j); }
  }

  lemma GatewayDenotes()
    ensures ParseIpv4(GATEWAY) == Some([172, 16, 0, 1])
  {
    SmallPrints();
    QuadDenotes(172, 16, 0, 1);
    assert GATEWAY == Quad(172, 16, 0, 1);
  }

  function HexValue(c: char): int { if c <= '9' then c as int - '0' as int else c as int - 'A' as int + 10 }

  function ByteAt(s: string, i: nat): int
    requires i + 1 < |s|
  {
    16 * HexValue(s[i]) + HexValue(s[i + 1])
  }

  lemma HexByteInjective(x: nat, y: nat)
    requires x < 256 && y < 256 && HexByte(x) == HexByte(y)
    ensures x == y
  {
    assert forall d: nat :: d < 16 ==> HexValue(HexDigit(d)) == d;
    assert HexByte(x)[0] == HexByte(y)[0] && HexByte(x)[1] == HexByte(y)[1];
    assert x / 16 == y / 16 && x % 16 == y % 16;
  }

  lemma HexReads(n: nat)
    requires n < 256
    ensures ByteAt(HexByte(n), 0) == n
  {
    assert forall d: nat :: d < 16 ==> HexValue(HexDigit(d)) == d;
  }

  lemma MacParts(index: nat)
    requires index <= MAX_TAP_INDEX
    ensures var s := Mac(index);
            && |s| == 17 && s[..12] == "AA:FC:00:00:" && s[14] == ':'
            && s[12..14] == HexByte(index / 256) && s[15..] == HexByte(index % 256)
  {
  }

  /** The address is six bytes in upper-case hexadecimal, AA FC 00 00 and the index, its high byte first. */
  lemma MacDenotes(index: nat)
    requires index <= MAX_TAP_INDEX
    ensures |Mac(index)| == 17 && Mac(index)[..12] == "AA:FC:00:00:" && Mac(index)[14] == ':'
    ensures 256 * ByteAt(Mac(index), 12) + ByteAt(Mac(index), 15) == index
    ensures 0 <= ByteAt(Mac(index), 15) < 256
    ensures index == 0xABC ==> Mac(index)[12..] == "0A:BC"
  {
    MacParts(index);
    HexReads(index / 256);
    HexReads(index % 256);
    assert Mac(index)[12] == HexByte(index / 256)[0] && Mac(index)[13] == HexByte(index / 256)[1];
    assert Mac(index)[15] == HexByte(index % 256)[0] && Mac(index)[16] == HexByte(index % 256)[1];
    assert HexByte(10) == "0A" && HexByte(0xBC) == "BC";
  }

  lemma MacInjective(i: nat, j: nat)
    requires i <= MAX_TAP_INDEX && j <= MAX_TAP_INDEX && Mac(i) == Mac(j)
    ensures i == j
  {
    assert Mac(i)[12..14] == HexByte(i / 256) && Mac(j)[12..14] == HexByte(j / 256);
    assert Mac(i)[15..] == HexByte(i % 256) && Mac(j)[15..] == HexByte(j % 256);
    HexByteInjective(i / 256, j / 256);
    HexByteInjective(i % 256, j % 256);
  }

  lemma TapNameParses(index: nat)
    ensures ParseTapName(TapName(index)) == if index <= U32_MAX then Some(index) else None
  {
    assert TapName(index)[3..] == Decimal.Print(index);
    Decimal.ParsePrint(index, U32_MAX);
  }
}
