/** The eBPF classifier on every guest's TAP device (crates/ebpf-programs/src/main.rs). */
module EgressFilter {
  import opened Prelude
  import GuestAddressing

  type Frame = seq<bv8>

  datatype Action = Pass | Drop

  const VM_SUBNET: bv32 := 0xAC10_0000
  const VM_MASK: bv32 := 0xFFF0_0000

  /** A two-byte big-endian load; None when the frame is too short. */
  function LoadU16(frame: Frame, offset: nat): Option<bv16> {
    if offset + 2 <= |frame|
    then Some(((frame[offset] as bv16) << 8) | (frame[offset + 1] as bv16))
    else None
  }

  function LoadU32(frame: Frame, offset: nat): Option<bv32> {
    if offset + 4 <= |frame|
    then Some(Word32(frame[offset], frame[offset + 1], frame[offset + 2], frame[offset + 3]))
    else None
  }

  function Word32(a: bv8, b: bv8, c: bv8, d: bv8): bv32 {
    ((a as bv32) << 24) | ((b as bv32) << 16) | ((c as bv32) << 8) | (d as bv32)
  }

  /** The classifier proper; None stands for a failed load. */
  function Classify(frame: Frame): Option<Action> {
    match LoadU16(frame, 12)
    case None => None
    case Some(etherType) =>
      if etherType != 0x0800 then Some(Pass)
      else match LoadU32(frame, 14 + 16)
        case None => None
        case Some(destination) =>
          if destination & VM_MASK == VM_SUBNET then Some(Drop) else Some(Pass)
  }

  /** The entry point fails open. */
  function TcEgress(frame: Frame): Action {
    match Classify(frame) case Some(action) => action case None => Pass
  }

  /** An IPv4 frame (untagged) whose destination address has these octets. */
  predicate IsIpv4To(frame: Frame, octets: seq<nat>) {
    && |octets| == 4
    && |frame| >= 34
    && frame[12] == 8 && frame[13] == 0
    && forall i :: 0 <= i < 4 ==> octets[i] < 256 && frame[30 + i] == octets[i] as bv8
  }

  lemma MaskSelectsSubnet(a: bv8, b: bv8, c: bv8, d: bv8)
    ensures Word32(a, b, c, d) & VM_MASK == VM_SUBNET <==> a == 172 && b & 0xF0 == 16
  {
  }

  lemma EtherTypeBytes(a: bv8, b: bv8)
    ensures ((a as bv16) << 8) | (b as bv16) == 0x0800 <==> a == 8 && b == 0
  {
  }

  /** The frames that the filter drops, byte by byte: IPv4 and destined to 172.16.0.0/12. */
  lemma DropsExactlyTheGuestSubnet(frame: Frame)
    ensures TcEgress(frame) == Drop <==>
              |frame| >= 34 && frame[12] == 8 && frame[13] == 0 && frame[30] == 172 && frame[31] & 0xF0 == 16
  {
    if |frame| >= 14 {
      EtherTypeBytes(frame[12], frame[13]);
      if |frame| >= 34 { MaskSelectsSubnet(frame[30], frame[31], frame[32], frame[33]); }
    }
  }

  /** Tenant isolation at the address level: whatever index the allocator hands out, an IPv4 frame sent to the
      address printed for it is dropped. */
  lemma NoFrameReachesAGuest(frame: Frame, index: nat)
    requires index <= GuestAddressing.MAX_TAP_INDEX
    requires GuestAddressing.ParseIpv4(GuestAddressing.GuestIp(index).value).Some?
    requires IsIpv4To(frame, GuestAddressing.ParseIpv4(GuestAddressing.GuestIp(index).value).value)
    ensures TcEgress(frame) == Drop
  {
    GuestAddressing.GuestIpDenotes(index);
    var octets := GuestAddressing.ParseIpv4(GuestAddressing.GuestIp(index).value).value;
    assert octets[0] == 172 && octets[1] == 16;
    assert frame[30 + 0] == octets[0] as bv8 && frame[30 + 1] == octets[1] as bv8;
    DropsExactlyTheGuestSubnet(frame);
  }

  /** The gateway lies in the dropped range too, although the source's comment lists it among what passes. */
  lemma GatewayIsDroppedToo(frame: Frame)
    requires IsIpv4To(frame, [172, 16, 0, 1])
    ensures TcEgress(frame) == Drop
  {
    assert frame[30] == [172, 16, 0, 1][0] as bv8 && frame[31] == [172, 16, 0, 1][1] as bv8;
    DropsExactlyTheGuestSubnet(frame);
  }
}
