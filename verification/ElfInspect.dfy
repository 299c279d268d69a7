/** The ELF inspector (crates/common/src/artifact.rs:76-192): which dynamic linker a binary asks for, read from the
    whole file or from its beginning. Addresses are 64-bit and wrap; a slice out of bounds panics. */
module ElfInspect {
  import opened Prelude
  import opened Utf8

  const TWO_64: int := 0x1_0000_0000_0000_0000

  /** No slice is longer than this many bytes. */
  const MAX_LENGTH: int := 0x7FFF_FFFF_FFFF_FFFF

  const PT_INTERP: int := 3

  datatype Verdict = NotElf | Static | Musl | Glibc(interp: string) | Unknown(interp: string) | Panicked

  /** The 64-bit sum of two addresses, which wraps at most once. */
  function Wrap(n: nat): nat { if n < TWO_64 then n else n - TWO_64 }

  function LittleEndian(b: Bytes, off: nat, n: nat): nat
    requires off + n <= |b|
    decreases n
  {
    if n == 0 then 0 else b[off] + 256 * LittleEndian(b, off + 1, n - 1)
  }

  // ---- The interpreter's name ----

  function TrimNuls(s: string): string {
    if s != [] && s[|s| - 1] == 0 as char then TrimNuls(s[..|s| - 1]) else s
  }

  predicate Contains(s: string, sub: string) { exists i :: 0 <= i <= |s| && sub <= s[i..] }

  function ByName(interp: string): Verdict {
    if Contains(interp, "ld-musl") then Musl
    else if Contains(interp, "ld-linux") then Glibc(interp)
    else Unknown(interp)
  }

  function Classify(segment: Bytes): Verdict {
    var text := Decode(segment);
    ByName(TrimNuls(if text.Some? then text.value else ""))
  }

  // ---- The header and the program header table ----

  /** Where the table starts, the size of its entries and their number. */
  datatype Header = Header(wide: bool, off: nat, size: nat, num: nat)

  function ParseHeader(b: Bytes): Option<Header> {
    if |b| < 64 || b[..4] != [0x7F, 0x45, 0x4C, 0x46] then None
    else if b[4] == 2 then
      Some(Header(true, LittleEndian(b, 32, 8), LittleEndian(b, 54, 2), LittleEndian(b, 56, 2)))
    else if b[4] == 1 then
      Some(Header(false, LittleEndian(b, 28, 4), LittleEndian(b, 42, 2), LittleEndian(b, 44, 2)))
    else None
  }

  /** The bytes of an entry that the inspector reads. */
  function MinEntry(h: Header): nat { if h.wide then 40 else 20 }

  function Base(h: Header, i: nat): nat { Wrap(h.off + i * h.size) }

  /** Offset and size of the segment of the entry at `base`. */
  function SegmentOf(b: Bytes, h: Header, base: nat): (nat, nat)
    requires base + MinEntry(h) <= |b|
  {
    if h.wide then (LittleEndian(b, base + 8, 8), LittleEndian(b, base + 32, 8))
    else (LittleEndian(b, base + 4, 4), LittleEndian(b, base + 16, 4))
  }

  /** What the scan comes to: no interpreter in sight, a read out of bounds, or the interpreter's segment. */
  datatype Found = NoInterp | Crash | Segment(bytes: Bytes)

  /** The segment, if it is in the file. When its end wraps, it lies before its start. */
  function JudgeSegment(b: Bytes, off: nat, size: nat): Found {
    if Wrap(off + size) > |b| then NoInterp
    else if off + size >= TWO_64 then Crash
    else Segment(b[off..off + size])
  }

  /** What a PT_INTERP entry leads to. */
  function Judge(b: Bytes, h: Header, base: nat): Found {
    if base + MinEntry(h) > |b| then Crash
    else
      var (off, size) := SegmentOf(b, h, base);
      JudgeSegment(b, off, size)
  }

  datatype Entry = Outside | Unreadable | Other | Interp

  /** What the walk finds at an entry. */
  function Look(b: Bytes, h: Header, i: nat): Entry {
    var base := Base(h, i);
    if Wrap(base + h.size) > |b| then Outside
    else if base + 4 > |b| then Unreadable
    else if LittleEndian(b, base, 4) == PT_INTERP then Interp else Other
  }

  function Walk(b: Bytes, h: Header, i: nat): Found
    decreases h.num - i
  {
    if i >= h.num then NoInterp
    else match Look(b, h, i)
      case Outside => NoInterp
      case Unreadable => Crash
      case Other => Walk(b, h, i + 1)
      case Interp => Judge(b, h, Base(h, i))
  }

  function Inspect(b: Bytes): Verdict {
    match ParseHeader(b)
    case None => NotElf
    case Some(h) => VerdictOn(Walk(b, h, 0))
  }

  function VerdictOn(found: Found): Verdict {
    match found
    case NoInterp => Static
    case Crash => Panicked
    case Segment(bytes) => Classify(bytes)
  }

  /** Offset and size of the interpreter's name, and the name. */
  method ReadInterpreter(b: Bytes, h: Header, base: nat) returns (found: Found)
    ensures found == Judge(b, h, base)
  {
    if base + MinEntry(h) > |b| { return Crash; }
    var (off, size) := SegmentOf(b, h, base);
    if Wrap(off + size) > |b| { return NoInterp; }
    if off + size >= TWO_64 { return Crash; }
    return Segment(b[off..off + size]);
  }

  method ReadName(segment: Bytes) returns (v: Verdict)
    ensures v == Classify(segment)
  {
    var text := Decode(segment);
    var interp := TrimNuls(if text.Some? then text.value else "");
    if Contains(interp, "ld-musl") { return Musl; }
    if Contains(interp, "ld-linux") { return Glibc(interp); }
    return Unknown(interp);
  }

  /** Whether an entry is inside the file, and its type. */
  method ReadEntry(b: Bytes, h: Header, i: nat) returns (e: Entry)
    ensures e == Look(b, h, i)
  {
    var base := Base(h, i);
    if Wrap(base + h.size) > |b| { return Outside; }
    if base + 4 > |b| { return Unreadable; }
    return if LittleEndian(b, base, 4) == PT_INTERP then Interp else Other;
  }

  /** The scan with its early returns. */
  method CheckElfCompat(b: Bytes) returns (v: Verdict)
    ensures v == Inspect(b)
  {
    var parsed := ParseHeader(b);
    if parsed.None? { return NotElf; }
    var h := parsed.value;
    for i := 0 to h.num
      invariant Walk(b, h, 0) == Walk(b, h, i)
    {
      var e := ReadEntry(b, h, i);
      if e == Outside { return Static; }
      if e == Unreadable { return Panicked; }
      if e == Other { continue; }
      var found := ReadInterpreter(b, h, Base(h, i));
      if found.NoInterp? { return Static; }
      if found.Crash? { return Panicked; }
      v := ReadName(found.bytes);
      return;
    }
    return Static;
  }

  /** Whether a Metal deploy is refused for the binary. */
  predicate RefusedForMetal(b: Bytes) { Inspect(b).Glibc? }

  // ---- The first PT_INTERP decides ----

  /** `k` is the first PT_INTERP of the table, and everything before it is inside the file. */
  ghost predicate IsFirstInterp(b: Bytes, h: Header, k: nat) {
    k < h.num && Look(b, h, k).Interp? && forall i: nat :: i < k ==> Look(b, h, i).Other?
  }

  lemma {:induction false} WalkToFirst(b: Bytes, h: Header, k: nat, i: nat)
    requires IsFirstInterp(b, h, k) && i <= k
    ensures Walk(b, h, i) == Judge(b, h, Base(h, k))
    decreases k - i
  {
    if i < k { WalkToFirst(b, h, k, i + 1); }
  }

  lemma {:induction false} WalkFindsFirst(b: Bytes, h: Header, i: nat) returns (k: nat)
    requires i <= h.num && (forall j: nat :: j < i ==> Look(b, h, j).Other?)
    ensures k <= h.num && (forall j: nat :: j < k ==> Look(b, h, j).Other?)
    ensures Walk(b, h, i) == if k == h.num || Look(b, h, k).Outside? then NoInterp
                             else if Look(b, h, k).Unreadable? then Crash else Judge(b, h, Base(h, k))
    ensures k < h.num ==> !Look(b, h, k).Other?
    decreases h.num - i
  {
    if i == h.num || !Look(b, h, i).Other? {
      k := i;
    } else {
      k := WalkFindsFirst(b, h, i + 1);
    }
  }

  /** A file that names an interpreter is classified by its first PT_INTERP; one whose table has none inside the file
      is static. */
  lemma FirstInterpDecides(b: Bytes, h: Header)
    requires ParseHeader(b) == Some(h)
    ensures forall k: nat :: IsFirstInterp(b, h, k) ==> Inspect(b) == VerdictOn(Judge(b, h, Base(h, k)))
    ensures (Inspect(b).Musl? || Inspect(b).Glibc? || Inspect(b).Unknown?) ==> exists k: nat :: IsFirstInterp(b, h, k)
    ensures (forall k: nat :: !IsFirstInterp(b, h, k)) ==> Inspect(b) in {Static, Panicked}
  {
    forall k: nat | IsFirstInterp(b, h, k) ensures Walk(b, h, 0) == Judge(b, h, Base(h, k)) {
      WalkToFirst(b, h, k, 0);
    }
    var k := WalkFindsFirst(b, h, 0);
    assert k < h.num && Look(b, h, k).Interp? ==> IsFirstInterp(b, h, k);
  }

  /** What is no ELF file: too short for a header, without the magic bytes DEL E L F, or of no known class. */
  lemma NotElfIff(b: Bytes)
    ensures Inspect(b) == NotElf
            <==> |b| < 64 || b[0] != 127 || b[1] != 69 || b[2] != 76 || b[3] != 70 || (b[4] != 1 && b[4] != 2)
  {
    if |b| >= 64 {
      assert b[..4] == [b[0], b[1], b[2], b[3]];
    }
    if ParseHeader(b).Some? { NamesAreNoPanic(Walk(b, ParseHeader(b).value, 0)); }
  }

  // ---- Reads out of bounds ----

  /** The bytes of an entry that has its end in the file, or wraps there, and its own reads not. */
  predicate StraysAt(b: Bytes, h: Header, i: nat) {
    var base := Base(h, i);
    Wrap(base + h.size) <= |b|
    && (base + 4 > |b|
        || (LittleEndian(b, base, 4) == PT_INTERP
            && (base + MinEntry(h) > |b|
                || TWO_64 <= SegmentOf(b, h, base).0 + SegmentOf(b, h, base).1 <= TWO_64 + |b|)))
  }

  /** An entry in the file of another type than PT_INTERP. */
  predicate IsPassedOver(b: Bytes, h: Header, i: nat) {
    var base := Base(h, i);
    Wrap(base + h.size) <= |b| && base + 4 <= |b| && LittleEndian(b, base, 4) != PT_INTERP
  }

  ghost predicate StraysFirstAt(b: Bytes, h: Header, k: nat) {
    k < h.num && StraysAt(b, h, k) && forall i: nat :: i < k ==> IsPassedOver(b, h, i)
  }

  lemma LookPassesOver(b: Bytes, h: Header, i: nat)
    ensures Look(b, h, i).Other? <==> IsPassedOver(b, h, i)
  {
  }

  lemma LittleEndianIsBelow(b: Bytes, off: nat, n: nat)
    requires off + n <= |b|
    ensures LittleEndian(b, off, n) < Pow256(n)
    decreases n
  {
    if n > 0 { LittleEndianIsBelow(b, off + 1, n - 1); }
  }

  lemma SegmentEndWrapsOnce(b: Bytes, h: Header, base: nat)
    requires base + MinEntry(h) <= |b|
    ensures SegmentOf(b, h, base).0 < TWO_64 && SegmentOf(b, h, base).1 < TWO_64
  {
    TwoBytes();
    if h.wide {
      LittleEndianIsBelow(b, base + 8, 8);
      LittleEndianIsBelow(b, base + 32, 8);
    } else {
      LittleEndianIsBelow(b, base + 4, 4);
      LittleEndianIsBelow(b, base + 16, 4);
    }
  }

  lemma StraysIff(b: Bytes, h: Header, i: nat)
    ensures StraysAt(b, h, i)
            <==> Look(b, h, i).Unreadable? || (Look(b, h, i).Interp? && Judge(b, h, Base(h, i)) == Crash)
  {
    if Base(h, i) + MinEntry(h) <= |b| { SegmentEndWrapsOnce(b, h, Base(h, i)); }
  }

  /** The exact condition for a read out of bounds: some entry of the table has its declared end in the file but not
      the type, or is a PT_INTERP without the fields read or with a segment whose end wraps into the file, and all
      entries before it are in the file and of other types. */
  lemma PanicsIff(b: Bytes)
    ensures Inspect(b) == Panicked
            <==> ParseHeader(b).Some? && exists k: nat :: StraysFirstAt(b, ParseHeader(b).value, k)
  {
    if ParseHeader(b).Some? {
      var h := ParseHeader(b).value;
      forall i: nat ensures Look(b, h, i).Other? <==> IsPassedOver(b, h, i) { LookPassesOver(b, h, i); }
      var k := WalkFindsFirst(b, h, 0);
      if k < h.num { StraysIff(b, h, k); }
      assert k < h.num && StraysAt(b, h, k) ==> StraysFirstAt(b, h, k);
      forall m: nat | StraysFirstAt(b, h, m) ensures m == k { StraysIff(b, h, m); }
      NamesAreNoPanic(Walk(b, h, 0));
    }
  }

  lemma NamesAreNoPanic(found: Found)
    ensures VerdictOn(found) == Panicked <==> found == Crash
  {
  }

  /** The segment that a PT_INTERP entry names does not wrap around the address space. */
  predicate SegmentIsSane(b: Bytes, h: Header, i: nat) {
    var base := Base(h, i);
    base + MinEntry(h) <= |b| ==> SegmentOf(b, h, base).0 + SegmentOf(b, h, base).1 < TWO_64
  }

  ghost predicate IsSane(b: Bytes, h: Header) {
    h.size >= MinEntry(h) && h.off + h.num * h.size < TWO_64 && forall i: nat :: i < h.num ==> SegmentIsSane(b, h, i)
  }

  lemma EntryDoesNotWrap(h: Header, i: nat)
    requires i < h.num && h.off + h.num * h.size < TWO_64
    ensures Base(h, i) == h.off + i * h.size && Wrap(Base(h, i) + h.size) == Base(h, i) + h.size
  {
    var rest := h.num - i - 1;
    assert h.num * h.size == i * h.size + h.size + rest * h.size;
  }

  lemma {:induction false} SaneWalkStaysInBounds(b: Bytes, h: Header, i: nat)
    requires IsSane(b, h) && i <= h.num
    ensures Walk(b, h, i) != Crash
    decreases h.num - i
  {
    if i < h.num {
      EntryDoesNotWrap(h, i);
      assert SegmentIsSane(b, h, i);
      SaneWalkStaysInBounds(b, h, i + 1);
    }
  }

  /** With entries that hold the fields read and addresses that do not wrap, every read is in bounds. */
  lemma SaneImagesAreReadInBounds(b: Bytes)
    requires ParseHeader(b).Some? ==> IsSane(b, ParseHeader(b).value)
    ensures Inspect(b) != Panicked
  {
    if ParseHeader(b).Some? { SaneWalkStaysInBounds(b, ParseHeader(b).value, 0); }
  }

  // ---- An image whose only entry is `size` bytes at its end ----

  function Zeros(n: nat): (r: Bytes)
    ensures |r| == n && forall i :: 0 <= i < n ==> r[i] == 0
  {
    seq(n, i => 0)
  }

  function OneEntry(wide: bool, size: Byte): (r: Bytes)
    ensures |r| == 64 + size as int
  {
    [0x7F, 0x45, 0x4C, 0x46]
    + (if wide then [2] + Zeros(27) + [64] + Zeros(21) + [size, 0, 1] + Zeros(7)
       else [1] + Zeros(23) + [64] + Zeros(13) + [size, 0, 1] + Zeros(19))
    + if size >= 4 then [3, 0, 0, 0] + Zeros(size - 4) else Zeros(size)
  }

  lemma LittleEndianOfSmall(b: Bytes, off: nat, n: nat)
    requires 1 <= n && off + n <= |b| && forall i :: off + 1 <= i < off + n ==> b[i] == 0
    ensures LittleEndian(b, off, n) == b[off]
    decreases n
  {
    if n > 1 { LittleEndianOfSmall(b, off + 1, n - 1); }
  }

  lemma OneEntryHeader(wide: bool, size: Byte)
    ensures ParseHeader(OneEntry(wide, size)) == Some(Header(wide, 64, size, 1))
  {
    var b := OneEntry(wide, size);
    assert b[..4] == [0x7F, 0x45, 0x4C, 0x46];
    if wide {
      LittleEndianOfSmall(b, 32, 8);
      LittleEndianOfSmall(b, 54, 2);
      LittleEndianOfSmall(b, 56, 2);
    } else {
      LittleEndianOfSmall(b, 28, 4);
      LittleEndianOfSmall(b, 42, 2);
      LittleEndianOfSmall(b, 44, 2);
    }
  }

  lemma OneEntrySegment(wide: bool, size: Byte)
    requires size >= MinEntry(Header(wide, 64, size, 1))
    ensures SegmentOf(OneEntry(wide, size), Header(wide, 64, size, 1), 64) == (0, 0)
  {
    var b := OneEntry(wide, size);
    if wide {
      LittleEndianOfSmall(b, 72, 8);
      LittleEndianOfSmall(b, 96, 8);
    } else {
      LittleEndianOfSmall(b, 68, 4);
      LittleEndianOfSmall(b, 80, 4);
    }
  }

  /** The bounds on the entry size, 40 bytes for 64-bit files and 20 for 32-bit ones, are tight: for every smaller one
      there is an image that is read out of bounds. */
  lemma SmallEntriesAreReadOutOfBounds(wide: bool, size: Byte)
    ensures Inspect(OneEntry(wide, size)) == Panicked <==> size < if wide then 40 else 20
  {
    var b, h := OneEntry(wide, size), Header(wide, 64, size, 1);
    OneEntryHeader(wide, size);
    if size >= 4 {
      LittleEndianOfSmall(b, 64, 4);
      assert Look(b, h, 0) == Interp;
    }
    if size >= MinEntry(h) { OneEntrySegment(wide, size); }
  }

  // ---- Truncation ----

  lemma {:induction false} PrefixReads(b: Bytes, n: nat, off: nat, k: nat)
    requires off + k <= n <= |b|
    ensures LittleEndian(b[..n], off, k) == LittleEndian(b, off, k)
    decreases k
  {
    if k > 0 { PrefixReads(b, n, off + 1, k - 1); }
  }

  lemma PrefixHeader(b: Bytes, n: nat)
    requires 64 <= n <= |b|
    ensures ParseHeader(b[..n]) == ParseHeader(b)
  {
    assert b[..n][..4] == b[..4];
    PrefixReads(b, n, 32, 8);
    PrefixReads(b, n, 54, 2);
    PrefixReads(b, n, 56, 2);
    PrefixReads(b, n, 28, 4);
    PrefixReads(b, n, 42, 2);
    PrefixReads(b, n, 44, 2);
  }

  /** An entry is either cut off or looks the same. */
  lemma PrefixLook(b: Bytes, h: Header, n: nat, i: nat)
    requires n <= |b| <= MAX_LENGTH && MinEntry(h) <= h.size < 65536
    ensures Look(b[..n], h, i) == if Wrap(Base(h, i) + h.size) > n then Outside else Look(b, h, i)
  {
    var base := Base(h, i);
    if Wrap(base + h.size) <= n {
      if base + h.size < TWO_64 {
        PrefixReads(b, n, base, 4);
      } else {
        assert base > MAX_LENGTH;
      }
    }
  }

  lemma PrefixSegment(b: Bytes, h: Header, n: nat, base: nat)
    requires n <= |b| && base + MinEntry(h) <= n
    ensures SegmentOf(b[..n], h, base) == SegmentOf(b, h, base)
  {
    if h.wide {
      PrefixReads(b, n, base + 8, 8);
      PrefixReads(b, n, base + 32, 8);
    } else {
      PrefixReads(b, n, base + 4, 4);
      PrefixReads(b, n, base + 16, 4);
    }
  }

  lemma PrefixSlice(b: Bytes, n: nat, off: nat, size: nat)
    requires off + size <= n <= |b|
    ensures b[..n][off..off + size] == b[off..off + size]
  {
  }

  lemma PrefixJudgesSegment(b: Bytes, n: nat, off: nat, size: nat)
    requires n <= |b|
    ensures JudgeSegment(b[..n], off, size) == if Wrap(off + size) > n then NoInterp else JudgeSegment(b, off, size)
  {
    if Wrap(off + size) <= n && off + size < TWO_64 { PrefixSlice(b, n, off, size); }
  }

  /** Likewise the segment. */
  lemma PrefixJudge(b: Bytes, h: Header, n: nat, base: nat)
    requires n <= |b| && base + MinEntry(h) <= n
    ensures var (off, size) := SegmentOf(b, h, base);
            Judge(b[..n], h, base) == if Wrap(off + size) > n then NoInterp else Judge(b, h, base)
  {
    var (off, size) := SegmentOf(b, h, base);
    PrefixSegment(b, h, n, base);
    PrefixJudgesSegment(b, n, off, size);
  }

  lemma PrefixAtInterp(b: Bytes, h: Header, n: nat, i: nat)
    requires n <= |b| <= MAX_LENGTH && MinEntry(h) <= h.size < 65536 && Look(b[..n], h, i).Interp?
    ensures Look(b, h, i).Interp?
    ensures Judge(b[..n], h, Base(h, i)) in {Judge(b, h, Base(h, i)), NoInterp}
  {
    PrefixLook(b, h, n, i);
    var base := Base(h, i);
    assert base + h.size < TWO_64;
    PrefixJudge(b, h, n, base);
  }

  lemma {:induction false} PrefixWalk(b: Bytes, h: Header, n: nat, i: nat)
    requires n <= |b| <= MAX_LENGTH && MinEntry(h) <= h.size < 65536 && i <= h.num
    ensures Walk(b[..n], h, i) in {Walk(b, h, i), NoInterp}
    decreases h.num - i
  {
    if i < h.num {
      PrefixLook(b, h, n, i);
      if Look(b[..n], h, i).Interp? {
        PrefixAtInterp(b, h, n, i);
      } else if Look(b[..n], h, i).Other? {
        PrefixWalk(b, h, n, i + 1);
      }
    }
  }

  lemma SizeFits(b: Bytes, h: Header)
    requires ParseHeader(b) == Some(h)
    ensures h.size < 65536
  {
    assert LittleEndian(b, 54, 2) == b[54] + 256 * (b[55] + 256 * LittleEndian(b, 56, 0));
    assert LittleEndian(b, 42, 2) == b[42] + 256 * (b[43] + 256 * LittleEndian(b, 44, 0));
  }

  ghost predicate EntriesHoldTheFields(b: Bytes) {
    ParseHeader(b).Some? ==> ParseHeader(b).value.size >= MinEntry(ParseHeader(b).value)
  }

  /** Any prefix of at least 64 bytes gets the verdict of the whole file or `Static`. */
  lemma PrefixVerdict(b: Bytes, n: nat)
    requires 64 <= n <= |b| <= MAX_LENGTH && EntriesHoldTheFields(b)
    ensures Inspect(b[..n]) in {Inspect(b), Static}
  {
    PrefixHeader(b, n);
    if ParseHeader(b).Some? {
      SizeFits(b, ParseHeader(b).value);
      PrefixWalk(b, ParseHeader(b).value, n, 0);
    }
  }

  /** Reading only the beginning of a file, however little of it one read returns, never refuses a binary that the whole
      file would not refuse. */
  lemma NoFalseAlarm(b: Bytes, n: nat)
    requires n <= |b| <= MAX_LENGTH && EntriesHoldTheFields(b)
    ensures RefusedForMetal(b[..n]) ==> RefusedForMetal(b)
  {
    if n >= 64 { PrefixVerdict(b, n); }
  }

  /** The entry at `base` and the segment that it names lie in the first `n` bytes. */
  predicate FitsIn(b: Bytes, h: Header, base: nat, n: nat) {
    base + h.size <= n && (base + MinEntry(h) <= |b| ==> SegmentOf(b, h, base).0 + SegmentOf(b, h, base).1 <= n)
  }

  /** Entries of a table that does not wrap, seen through a prefix. */
  lemma PrefixSees(b: Bytes, h: Header, n: nat, i: nat)
    requires n <= |b| <= MAX_LENGTH && MinEntry(h) <= h.size < 65536 && h.off + h.num * h.size < TWO_64 && i < h.num
    ensures Look(b[..n], h, i) == if h.off + i * h.size + h.size > n then Outside else Look(b, h, i)
  {
    EntryDoesNotWrap(h, i);
    PrefixLook(b, h, n, i);
  }

  lemma EntriesAscend(h: Header, i: nat, k: nat)
    requires i <= k
    ensures h.off + i * h.size + h.size <= h.off + k * h.size + h.size
  {
    assert i * h.size <= k * h.size;
  }

  /** A prefix that holds the table up to its first PT_INTERP has the same first PT_INTERP. */
  lemma PrefixReaches(b: Bytes, h: Header, n: nat, k: nat)
    requires n <= |b| <= MAX_LENGTH && MinEntry(h) <= h.size < 65536 && h.off + h.num * h.size < TWO_64
    requires IsFirstInterp(b, h, k) && h.off + k * h.size + h.size <= n
    ensures IsFirstInterp(b[..n], h, k)
  {
    forall i: nat | i <= k ensures Look(b[..n], h, i) == Look(b, h, i) {
      EntriesAscend(h, i, k);
      PrefixSees(b, h, n, i);
    }
  }

  lemma CutTableIsStatic(b: Bytes, h: Header, n: nat, k: nat)
    requires n <= |b| <= MAX_LENGTH && MinEntry(h) <= h.size < 65536 && h.off + h.num * h.size < TWO_64
    requires IsFirstInterp(b, h, k) && n < h.off + k * h.size + h.size
    ensures Walk(b[..n], h, 0) == NoInterp
  {
    var stop := WalkFindsFirst(b[..n], h, 0);
    PrefixSees(b, h, n, k);
    assert stop <= k;
    PrefixSees(b, h, n, stop);
  }

  lemma UncutFirst(b: Bytes, n: nat, h: Header, k: nat, base: nat)
    requires n <= |b| && IsFirstInterp(b, h, k) && IsFirstInterp(b[..n], h, k) && SegmentIsSane(b, h, k)
    requires base == Base(h, k) && base + MinEntry(h) <= n
    ensures var (off, size) := SegmentOf(b, h, base);
            Walk(b[..n], h, 0) == if off + size <= n then Walk(b, h, 0) else NoInterp
  {
    WalkToFirst(b, h, k, 0);
    WalkToFirst(b[..n], h, k, 0);
    PrefixJudge(b, h, n, base);
  }

  /** A prefix that holds the table up to the first PT_INTERP finds the same segment, if it holds that too. */
  lemma UncutTable(b: Bytes, n: nat, h: Header, k: nat, base: nat)
    requires n <= |b| <= MAX_LENGTH && IsSane(b, h) && IsFirstInterp(b, h, k)
    requires h.size < 65536 && base == h.off + k * h.size && base + h.size <= n
    ensures var (off, size) := SegmentOf(b, h, base);
            Walk(b[..n], h, 0) == if off + size <= n then Walk(b, h, 0) else NoInterp
  {
    EntryDoesNotWrap(h, k);
    PrefixReaches(b, h, n, k);
    UncutFirst(b, n, h, k, base);
  }

  /** For a file that names an interpreter, a prefix of at least 64 bytes gets the verdict of the whole file if and only
      if the table up to the first PT_INTERP, which is at `base`, and its segment fit into the prefix. */
  lemma PrefixVerdictIsFullIffItFits(b: Bytes, n: nat, h: Header, k: nat, base: nat)
    requires 64 <= n <= |b| <= MAX_LENGTH && ParseHeader(b) == Some(h) && IsSane(b, h) && IsFirstInterp(b, h, k)
    requires Inspect(b) != Static && base == h.off + k * h.size
    ensures Inspect(b[..n]) == Inspect(b) <==> FitsIn(b, h, base, n)
  {
    SizeFits(b, h);
    PrefixHeader(b, n);
    if base + h.size <= n { UncutTable(b, n, h, k, base); } else { CutTableIsStatic(b, h, n, k); }
  }

  // ---- The interpreter's name is read back ----

  function Nuls(n: nat): (r: string)
    ensures |r| == n && forall i :: 0 <= i < n ==> r[i] == 0 as char
  {
    seq(n, i => 0 as char)
  }

  lemma {:induction false} TrimmingPadding(path: string, n: nat)
    ensures TrimNuls(path + Nuls(n)) == TrimNuls(path)
    decreases n
  {
    if n == 0 {
      assert path + Nuls(0) == path;
    } else {
      var s := path + Nuls(n);
      assert s[..|s| - 1] == path + Nuls(n - 1);
      TrimmingPadding(path, n - 1);
    }
  }

  /** A segment that holds a path and any number of NUL bytes is classified by that path, for every path. */
  lemma InterpreterIsReadBack(path: string, n: nat)
    requires path != "" ==> path[|path| - 1] != 0 as char
    ensures Classify(Encode(path + Nuls(n))) == ByName(path)
    ensures Encode(path + Nuls(n)) == Encode(path) + Encode(Nuls(n))
  {
    DecodeEncode(path + Nuls(n));
    TrimmingPadding(path, n);
    EncodeAppend(path, Nuls(n));
  }

  // ---- Images as the gABI lays them out ----

  function ToLittleEndian(n: nat, k: nat): (r: Bytes)
    ensures |r| == k
    decreases k
  {
    if k == 0 then [] else [n % 256] + ToLittleEndian(n / 256, k - 1)
  }

  function Pow256(k: nat): (r: nat)
    ensures r > 0
  {
    if k == 0 then 1 else 256 * Pow256(k - 1)
  }

  lemma {:induction false} FieldReadsBack(b: Bytes, off: nat, n: nat, k: nat)
    requires off + k <= |b| && b[off..off + k] == ToLittleEndian(n, k) && n < Pow256(k)
    ensures LittleEndian(b, off, k) == n
    decreases k
  {
    if k > 0 {
      var field := ToLittleEndian(n, k);
      assert b[off] == field[0];
      assert b[off + 1..off + k] == field[1..] == ToLittleEndian(n / 256, k - 1);
      FieldReadsBack(b, off + 1, n / 256, k - 1);
    }
  }

  lemma SliceAfter(b: Bytes, base: nat, a: Bytes, field: Bytes)
    requires base <= |b| && a + field <= b[base..]
    ensures base + |a| + |field| <= |b| && b[base + |a|..base + |a| + |field|] == field
  {
    var tail := b[base..];
    forall i | 0 <= i < |field| ensures b[base + |a| + i] == field[i] {
      assert (a + field)[|a| + i] == field[i] && tail[|a| + i] == b[base + |a| + i];
    }
  }

  /** A field written after `a`, from `base` on, reads back. */
  lemma ReadsAfter(b: Bytes, base: nat, a: Bytes, off: nat, n: nat, k: nat)
    requires base <= |b| && a + ToLittleEndian(n, k) <= b[base..] && n < Pow256(k) && off == base + |a|
    ensures off + k <= |b| && LittleEndian(b, off, k) == n
  {
    SliceAfter(b, base, a, ToLittleEndian(n, k));
    FieldReadsBack(b, off, n, k);
  }

  /** The file header; `ident` is what follows the class in e_ident. */
  datatype Ehdr = Ehdr(ident: Bytes, kind: nat, machine: nat, version: nat, entry: nat, phoff: nat, shoff: nat,
                       flags: nat, ehsize: nat, phentsize: nat, phnum: nat, shentsize: nat, shnum: nat, shstrndx: nat)

  datatype Phdr = Phdr(kind: nat, flags: nat, offset: nat, vaddr: nat, paddr: nat, filesz: nat, memsz: nat, align: nat)

  function AddressWidth(wide: bool): nat { if wide then 8 else 4 }

  function EhdrToPhoff(wide: bool, e: Ehdr): Bytes {
    var w := AddressWidth(wide);
    [0x7F, 0x45, 0x4C, 0x46] + [if wide then 2 else 1] + e.ident + ToLittleEndian(e.kind, 2)
    + ToLittleEndian(e.machine, 2) + ToLittleEndian(e.version, 4) + ToLittleEndian(e.entry, w)
  }

  function EhdrToPhentsize(wide: bool, e: Ehdr): Bytes {
    var w := AddressWidth(wide);
    EhdrToPhoff(wide, e) + ToLittleEndian(e.phoff, w) + ToLittleEndian(e.shoff, w) + ToLittleEndian(e.flags, 4)
    + ToLittleEndian(e.ehsize, 2)
  }

  function WriteEhdr(wide: bool, e: Ehdr): Bytes {
    EhdrToPhentsize(wide, e) + ToLittleEndian(e.phentsize, 2) + ToLittleEndian(e.phnum, 2)
    + ToLittleEndian(e.shentsize, 2) + ToLittleEndian(e.shnum, 2) + ToLittleEndian(e.shstrndx, 2)
  }

  /** p_flags follows p_type in the 64-bit layout and p_memsz in the 32-bit one. */
  function PhdrToOffset(wide: bool, p: Phdr): Bytes {
    ToLittleEndian(p.kind, 4) + if wide then ToLittleEndian(p.flags, 4) else []
  }

  function PhdrToFilesz(wide: bool, p: Phdr): Bytes {
    var w := AddressWidth(wide);
    PhdrToOffset(wide, p) + ToLittleEndian(p.offset, w) + ToLittleEndian(p.vaddr, w) + ToLittleEndian(p.paddr, w)
  }

  function WritePhdr(wide: bool, p: Phdr): Bytes {
    var w := AddressWidth(wide);
    PhdrToFilesz(wide, p) + ToLittleEndian(p.filesz, w) + ToLittleEndian(p.memsz, w)
    + (if wide then [] else ToLittleEndian(p.flags, 4)) + ToLittleEndian(p.align, w)
  }

  predicate FieldsFit(wide: bool, e: Ehdr) {
    |e.ident| == 11 && e.phoff < Pow256(AddressWidth(wide)) && e.phentsize < 65536 && e.phnum < 65536
  }

  lemma PrefixTrans(a: Bytes, b: Bytes, c: Bytes)
    requires a <= b <= c
    ensures a <= c
  {
  }

  lemma TwoBytes()
    ensures Pow256(2) == 65536 && Pow256(4) == 0x1_0000_0000 && Pow256(8) == TWO_64
  {
    assert Pow256(4) == 256 * 256 * Pow256(2);
    assert Pow256(6) == 256 * 256 * Pow256(4);
    assert Pow256(8) == 256 * 256 * Pow256(6);
  }

  lemma HeaderStarts(b: Bytes, wide: bool, e: Ehdr)
    requires WriteEhdr(wide, e) <= b && FieldsFit(wide, e)
    ensures EhdrToPhoff(wide, e) + ToLittleEndian(e.phoff, AddressWidth(wide)) <= b
    ensures EhdrToPhentsize(wide, e) + ToLittleEndian(e.phentsize, 2) <= b
    ensures EhdrToPhentsize(wide, e) + ToLittleEndian(e.phentsize, 2) + ToLittleEndian(e.phnum, 2) <= b
  {
    var a, s, t := EhdrToPhoff(wide, e), EhdrToPhentsize(wide, e), WriteEhdr(wide, e);
    var phoff, size, num :=
      ToLittleEndian(e.phoff, AddressWidth(wide)), ToLittleEndian(e.phentsize, 2), ToLittleEndian(e.phnum, 2);
    assert a + phoff <= s <= s + size <= s + size + num <= t;
    PrefixTrans(a + phoff, t, b);
    PrefixTrans(s + size, t, b);
    PrefixTrans(s + size + num, t, b);
  }

  lemma MagicAndClass(b: Bytes, wide: bool, e: Ehdr)
    requires EhdrToPhoff(wide, e) <= b
    ensures |b| >= 5 && b[..4] == [0x7F, 0x45, 0x4C, 0x46] && b[4] == if wide then 2 else 1
  {
    var a := EhdrToPhoff(wide, e);
    assert a[..4] == [0x7F, 0x45, 0x4C, 0x46] && a[4] == if wide then 2 else 1;
    assert b[..4] == a[..4] && b[4] == a[4];
  }

  lemma HeaderFieldsReadBack(b: Bytes, wide: bool, e: Ehdr)
    requires |b| >= 64 && WriteEhdr(wide, e) <= b && FieldsFit(wide, e)
    ensures LittleEndian(b, if wide then 32 else 28, AddressWidth(wide)) == e.phoff
    ensures LittleEndian(b, if wide then 54 else 42, 2) == e.phentsize
    ensures LittleEndian(b, if wide then 56 else 44, 2) == e.phnum
  {
    var a, s := EhdrToPhoff(wide, e), EhdrToPhentsize(wide, e);
    HeaderStarts(b, wide, e);
    TwoBytes();
    assert b[0..] == b;
    ReadsAfter(b, 0, a, if wide then 32 else 28, e.phoff, AddressWidth(wide));
    ReadsAfter(b, 0, s, if wide then 54 else 42, e.phentsize, 2);
    ReadsAfter(b, 0, s + ToLittleEndian(e.phentsize, 2), if wide then 56 else 44, e.phnum, 2);
  }

  /** The header that was written is the header that is read. */
  lemma HeaderReadsBack(b: Bytes, wide: bool, e: Ehdr)
    requires |b| >= 64 && WriteEhdr(wide, e) <= b && FieldsFit(wide, e)
    ensures ParseHeader(b) == Some(Header(wide, e.phoff, e.phentsize, e.phnum))
  {
    HeaderFieldsReadBack(b, wide, e);
    HeaderStarts(b, wide, e);
    MagicAndClass(b, wide, e);
  }

  /** The entry at `base` reads as `p`. */
  predicate HoldsEntry(b: Bytes, h: Header, base: nat, p: Phdr) {
    && base + MinEntry(h) <= |b| && LittleEndian(b, base, 4) == p.kind
    && SegmentOf(b, h, base) == (p.offset, p.filesz)
  }

  /** An entry that was written is the entry that is read. */
  lemma EntryReadsBack(b: Bytes, h: Header, base: nat, p: Phdr)
    requires base <= |b| && WritePhdr(h.wide, p) <= b[base..] && p.kind < Pow256(4)
    requires p.offset < Pow256(AddressWidth(h.wide)) && p.filesz < Pow256(AddressWidth(h.wide))
    ensures HoldsEntry(b, h, base, p)
  {
    var w := AddressWidth(h.wide);
    var a, f, t := PhdrToOffset(h.wide, p), PhdrToFilesz(h.wide, p), WritePhdr(h.wide, p);
    assert [] + ToLittleEndian(p.kind, 4) <= a <= a + ToLittleEndian(p.offset, w) <= f
        <= f + ToLittleEndian(p.filesz, w) <= t;
    PrefixTrans([] + ToLittleEndian(p.kind, 4), t, b[base..]);
    PrefixTrans(a + ToLittleEndian(p.offset, w), t, b[base..]);
    PrefixTrans(f + ToLittleEndian(p.filesz, w), t, b[base..]);
    ReadsAfter(b, base, [], base, p.kind, 4);
    ReadsAfter(b, base, a, base + if h.wide then 8 else 4, p.offset, w);
    ReadsAfter(b, base, f, base + if h.wide then 32 else 16, p.filesz, w);
  }

  /** `b` is an ELF file with this header and this table in bounds, whatever lies between them. */
  ghost predicate IsImage(b: Bytes, h: Header, table: seq<Phdr>) {
    && |b| <= MAX_LENGTH && ParseHeader(b) == Some(h) && |table| == h.num
    && forall i: nat :: i < |table| ==> EntryIsAt(b, h, table[i], i)
  }

  predicate EntryIsAt(b: Bytes, h: Header, p: Phdr, i: nat) {
    h.off + i * h.size + h.size <= |b| && HoldsEntry(b, h, h.off + i * h.size, p)
  }

  lemma ImageEntry(b: Bytes, h: Header, table: seq<Phdr>, i: nat)
    requires IsImage(b, h, table) && i < |table|
    ensures Look(b, h, i) == if table[i].kind == PT_INTERP then Interp else Other
    ensures HoldsEntry(b, h, Base(h, i), table[i])
  {
    assert EntryIsAt(b, h, table[i], i);
    assert Base(h, i) == h.off + i * h.size;
  }

  predicate IsFirstOfKind(table: seq<Phdr>, k: nat) {
    k < |table| && table[k].kind == PT_INTERP && forall i :: 0 <= i < k ==> table[i].kind != PT_INTERP
  }

  lemma FirstInterpOfImage(b: Bytes, h: Header, table: seq<Phdr>, k: nat)
    requires IsImage(b, h, table) && IsFirstOfKind(table, k)
    ensures IsFirstInterp(b, h, k)
  {
    forall i: nat | i <= k ensures Look(b, h, i) == if i < k then Other else Interp { ImageEntry(b, h, table, i); }
  }

  lemma SegmentInside(b: Bytes, h: Header, base: nat, p: Phdr)
    requires HoldsEntry(b, h, base, p) && p.offset + p.filesz <= |b| <= MAX_LENGTH
    ensures Judge(b, h, base) == Segment(b[p.offset..p.offset + p.filesz])
  {
  }

  /** An image is classified by what its first PT_INTERP segment holds. */
  lemma ImageIsClassifiedByItsInterpreter(b: Bytes, h: Header, table: seq<Phdr>, k: nat)
    requires IsImage(b, h, table) && IsFirstOfKind(table, k) && table[k].offset + table[k].filesz <= |b|
    ensures Inspect(b) == Classify(b[table[k].offset..table[k].offset + table[k].filesz])
  {
    FirstInterpOfImage(b, h, table, k);
    ImageEntry(b, h, table, k);
    SegmentInside(b, h, Base(h, k), table[k]);
    WalkToFirst(b, h, k, 0);
  }

  ghost predicate Occurs(s: string, sub: string) { exists a: string, c: string :: s == a + sub + c }

  lemma ContainedAt(s: string, sub: string, i: nat)
    requires i <= |s| && sub <= s[i..]
    ensures s == s[..i] + sub + s[i + |sub|..]
  {
  }

  lemma OccursAt(s: string, a: string, sub: string, c: string)
    requires s == a + sub + c
    ensures |a| <= |s| && sub <= s[|a|..]
  {
    assert s[|a|..] == sub + c;
  }

  lemma ContainsIff(s: string, sub: string)
    ensures Contains(s, sub) <==> Occurs(s, sub)
  {
    if Contains(s, sub) {
      var i: nat :| i <= |s| && sub <= s[i..];
      ContainedAt(s, sub, i);
    }
    if Occurs(s, sub) {
      var a, c :| s == a + sub + c;
      OccursAt(s, a, sub, c);
    }
  }

  /** An image whose first PT_INTERP segment holds a path, padded with NULs: it is for musl if "ld-musl" occurs in the
      path, for glibc if only "ld-linux" does, and unknown otherwise. A Metal deploy is refused exactly for glibc. A
      segment that is not UTF-8 counts as an empty path. */
  lemma ImageIsClassifiedByItsPath(b: Bytes, h: Header, table: seq<Phdr>, k: nat, path: string, n: nat)
    requires IsImage(b, h, table) && IsFirstOfKind(table, k) && table[k].offset + table[k].filesz <= |b|
    requires path != "" ==> path[|path| - 1] != 0 as char
    ensures var segment := b[table[k].offset..table[k].offset + table[k].filesz];
            var musl, glibc := Occurs(path, "ld-musl"), Occurs(path, "ld-linux");
            && (segment == Encode(path + Nuls(n))
                ==> && Inspect(b) == (if musl then Musl else if glibc then Glibc(path) else Unknown(path))
                    && (RefusedForMetal(b) <==> glibc && !musl))
            && (Decode(segment).None? ==> Inspect(b) == Unknown(""))
  {
    ImageIsClassifiedByItsInterpreter(b, h, table, k);
    ContainsIff(path, "ld-musl");
    ContainsIff(path, "ld-linux");
    InterpreterIsReadBack(path, n);
  }

  /** An image without a PT_INTERP segment is static. */
  lemma ImageWithoutInterpreterIsStatic(b: Bytes, h: Header, table: seq<Phdr>)
    requires IsImage(b, h, table) && forall i :: 0 <= i < |table| ==> table[i].kind != PT_INTERP
    ensures Inspect(b) == Static
  {
    var k := WalkFindsFirst(b, h, 0);
    if k < h.num { ImageEntry(b, h, table, k); }
  }

  lemma OneEntryReads(wide: bool, size: Byte)
    requires size >= MinEntry(Header(wide, 64, size, 1))
    ensures HoldsEntry(OneEntry(wide, size), Header(wide, 64, size, 1), 64, Phdr(PT_INTERP, 0, 0, 0, 0, 0, 0, 0))
  {
    LittleEndianOfSmall(OneEntry(wide, size), 64, 4);
    OneEntrySegment(wide, size);
  }

  lemma OneEntrySegmentIsSane(wide: bool, size: Byte)
    requires size >= MinEntry(Header(wide, 64, size, 1))
    ensures SegmentIsSane(OneEntry(wide, size), Header(wide, 64, size, 1), 0)
  {
    OneEntryReads(wide, size);
    assert Base(Header(wide, 64, size, 1), 0) == 64;
  }

  lemma OneEntryIsSane(b: Bytes, h: Header)
    requires h.num == 1 && MinEntry(h) <= h.size && h.off + h.size < TWO_64 && SegmentIsSane(b, h, 0)
    ensures IsSane(b, h)
  {
    forall i: nat | i < h.num ensures SegmentIsSane(b, h, i) { assert i == 0; }
  }

  /** The conditions of the results above can be met: the smallest image with room for the fields is sane, ... */
  lemma OneEntryMeetsTheConditions(wide: bool, size: Byte)
    requires size >= MinEntry(Header(wide, 64, size, 1))
    ensures ParseHeader(OneEntry(wide, size)) == Some(Header(wide, 64, size, 1))
    ensures IsSane(OneEntry(wide, size), Header(wide, 64, size, 1))
  {
    OneEntryHeader(wide, size);
    OneEntrySegmentIsSane(wide, size);
    OneEntryIsSane(OneEntry(wide, size), Header(wide, 64, size, 1));
  }

  /** ... it is an image, and it names an interpreter, an empty one. */
  lemma OneEntryIsAnImage(wide: bool, size: Byte)
    requires size >= MinEntry(Header(wide, 64, size, 1))
    ensures IsImage(OneEntry(wide, size), Header(wide, 64, size, 1), [Phdr(PT_INTERP, 0, 0, 0, 0, 0, 0, 0)])
    ensures IsFirstInterp(OneEntry(wide, size), Header(wide, 64, size, 1), 0)
    ensures Inspect(OneEntry(wide, size)) != Static
  {
    var b, h, p := OneEntry(wide, size), Header(wide, 64, size, 1), Phdr(PT_INTERP, 0, 0, 0, 0, 0, 0, 0);
    OneEntryHeader(wide, size);
    OneEntryReads(wide, size);
    assert EntryIsAt(b, h, p, 0);
    FirstInterpOfImage(b, h, [p], 0);
    ImageIsClassifiedByItsInterpreter(b, h, [p], 0);
  }
}
