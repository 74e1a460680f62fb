/** The memory descriptions a device reports as property values: the
    reserved regions (pairs of start and end addresses) and the attributes
    of an external memory, whose first word is a set of flags telling which
    of the following fixed slots are present. */
module Memory {
  import opened Base

  /** `ReservedRegions`: `(start, end)` address pairs, in the order reported. */
  datatype ReservedRegions = ReservedRegions(regions: seq<(u32, u32)>)

  /** `ReservedRegions::parse`: consecutive words paired up. The source
      asserts an even count. */
  function ParseRegions(data: seq<u32>): (r: ReservedRegions)
    requires |data| % 2 == 0
    ensures |r.regions| == |data| / 2
    ensures forall i :: 0 <= i < |r.regions| ==> r.regions[i] == (data[2 * i], data[2 * i + 1])
  {
    if |data| == 0 then ReservedRegions([])
    else
      var rest := ParseRegions(data[2..]);
      var r := ReservedRegions([(data[0], data[1])] + rest.regions);
      assert forall i :: 1 <= i < |r.regions| ==> r.regions[i] == rest.regions[i - 1];
      r
  }

  /** The words a device sends for a list of regions. */
  function RegionWords(r: ReservedRegions): (data: seq<u32>)
    ensures |data| == 2 * |r.regions|
    ensures forall i :: 0 <= i < |r.regions| ==> data[2 * i] == r.regions[i].0 && data[2 * i + 1] == r.regions[i].1
    decreases |r.regions|
  {
    if |r.regions| == 0 then []
    else
      var rest := RegionWords(ReservedRegions(r.regions[1..]));
      var data := [r.regions[0].0, r.regions[0].1] + rest;
      assert forall i :: 1 <= i < |r.regions| ==> data[2 * i] == rest[2 * (i - 1)] && data[2 * i + 1] == rest[2 * (i - 1) + 1];
      data
  }

  lemma {:induction false} RegionsRoundTrip(r: ReservedRegions)
    ensures ParseRegions(RegionWords(r)) == r
  {
    var r' := ParseRegions(RegionWords(r));
    assert r'.regions == r.regions;
  }

  lemma {:induction false} RegionWordsRoundTrip(data: seq<u32>)
    requires |data| % 2 == 0
    ensures RegionWords(ParseRegions(data)) == data
  {
    var r := ParseRegions(data);
    var d' := RegionWords(r);
    forall i | 0 <= i < |data|
      ensures d'[i] == data[i]
    {
      var j := i / 2;
      assert r.regions[j] == (data[2 * j], data[2 * j + 1]);
      assert d'[2 * j] == r.regions[j].0 && d'[2 * j + 1] == r.regions[j].1;
    }
  }

  /** The `ext_mem_prop_tags` flags, as bit positions of the flags word:
      START_ADDRESS 0x01, SIZE_IN_KBYTES 0x02, PAGE_SIZE 0x04,
      SECTOR_SIZE 0x08, BLOCK_SIZE 0x10. */
  const StartAddressBit := 0
  const SizeInKbytesBit := 1
  const PageSizeBit := 2
  const SectorSizeBit := 3
  const BlockSizeBit := 4

  /** `ExternalMemoryAttributes` */
  datatype ExternalMemoryAttributes = ExternalMemoryAttributes(
    startAddress: Option<u32>,
    totalSize: Option<u32>,
    pageSize: Option<u32>,
    sectorSize: Option<u32>,
    blockSize: Option<u32>)

  /** Every word `ExternalMemoryAttributes::parse` indexes exists: the flags
      word, and slot `k + 1` for each flag bit `k` that is set. */
  predicate AttributesReadable(data: seq<u32>) {
    |data| >= 1 &&
    (forall k :: 0 <= k < 5 && Bit(data[0], k) ==> k + 1 < |data|)
  }

  /** Slot `k + 1` when flag bit `k` is set, otherwise nothing. */
  function Slot(data: seq<u32>, k: nat): (r: Option<u32>)
    requires AttributesReadable(data) && k < 5
    ensures r.Some? <==> Bit(data[0], k)
    ensures r.Some? ==> r.value == data[k + 1]
  {
    if Bit(data[0], k) then Some(data[k + 1]) else None
  }

  /** `ExternalMemoryAttributes::parse` */
  function ParseAttributes(data: seq<u32>): (r: ExternalMemoryAttributes)
    requires AttributesReadable(data)
    ensures r.startAddress.Some? <==> Bit(data[0], StartAddressBit)
    ensures r.totalSize.Some? <==> Bit(data[0], SizeInKbytesBit)
    ensures r.pageSize.Some? <==> Bit(data[0], PageSizeBit)
    ensures r.sectorSize.Some? <==> Bit(data[0], SectorSizeBit)
    ensures r.blockSize.Some? <==> Bit(data[0], BlockSizeBit)
    ensures r.startAddress.Some? ==> r.startAddress.value == data[1]
    ensures r.totalSize.Some? ==> r.totalSize.value == data[2]
    ensures r.pageSize.Some? ==> r.pageSize.value == data[3]
    ensures r.sectorSize.Some? ==> r.sectorSize.value == data[4]
    ensures r.blockSize.Some? ==> r.blockSize.value == data[5]
  {
    ExternalMemoryAttributes(
      Slot(data, StartAddressBit), Slot(data, SizeInKbytesBit), Slot(data, PageSizeBit),
      Slot(data, SectorSizeBit), Slot(data, BlockSizeBit))
  }

  /** The flags word that announces which attributes are present. */
  function AttributeFlags(a: ExternalMemoryAttributes): (f: u32)
    ensures f < 0x20
  {
    (if a.startAddress.Some? then 0x01 else 0) +
    (if a.totalSize.Some? then 0x02 else 0) +
    (if a.pageSize.Some? then 0x04 else 0) +
    (if a.sectorSize.Some? then 0x08 else 0) +
    (if a.blockSize.Some? then 0x10 else 0)
  }

  function SlotWord(o: Option<u32>): u32 {
    if o.Some? then o.value else 0
  }

  /** The six words a device sends for a set of attributes; absent slots
      are 0. */
  function AttributeWords(a: ExternalMemoryAttributes): (data: seq<u32>)
    ensures |data| == 6 && data[0] == AttributeFlags(a)
  {
    [AttributeFlags(a), SlotWord(a.startAddress), SlotWord(a.totalSize), SlotWord(a.pageSize),
     SlotWord(a.sectorSize), SlotWord(a.blockSize)]
  }

  /** The bits of a value below 0x20, one by one. */
  lemma FlagBits(f: nat)
    requires f < 0x20
    ensures Bit(f, 0) <==> f % 2 == 1
    ensures Bit(f, 1) <==> (f / 2) % 2 == 1
    ensures Bit(f, 2) <==> (f / 4) % 2 == 1
    ensures Bit(f, 3) <==> (f / 8) % 2 == 1
    ensures Bit(f, 4) <==> f / 16 == 1
  {
    assert Pow2(1) == 2 && Pow2(2) == 4 && Pow2(3) == 8 && Pow2(4) == 16;
  }

  lemma AttributesRoundTrip(a: ExternalMemoryAttributes)
    ensures AttributesReadable(AttributeWords(a))
    ensures ParseAttributes(AttributeWords(a)) == a
  {
    FlagBits(AttributeFlags(a));
  }

  /** Only the low five flag bits are looked at. */
  lemma HighFlagsIgnored(data: seq<u32>, f: u32)
    requires AttributesReadable(data) && |data| >= 6 && f % 0x20 == data[0] % 0x20
    ensures AttributesReadable(data[0 := f])
    ensures ParseAttributes(data[0 := f]) == ParseAttributes(data)
  {
    LowBits(f, data[0]);
  }

  /** Two words agreeing in their low five bits agree on bits 0 to 4. */
  lemma LowBits(a: nat, b: nat)
    requires a % 0x20 == b % 0x20
    ensures forall k :: 0 <= k < 5 ==> (Bit(a, k) <==> Bit(b, k))
  {
    FlagBits(a % 0x20);
    FlagBits(b % 0x20);
    assert Pow2(1) == 2 && Pow2(2) == 4 && Pow2(3) == 8 && Pow2(4) == 16;
    forall k | 0 <= k < 5
      ensures Bit(a, k) <==> Bit(a % 0x20, k)
      ensures Bit(b, k) <==> Bit(b % 0x20, k)
    {
      BitBelow(a, k);
      BitBelow(b, k);
    }
  }

  /** Bit `k < 5` of a value is bit `k` of its low five bits. */
  lemma BitBelow(a: nat, k: nat)
    requires k < 5
    ensures Bit(a, k) <==> Bit(a % 0x20, k)
  {
    assert Pow2(5) == 0x20;
    BitOfLowBits(a, k, 5);
  }

  /** A zero flags word describes no attribute at all. */
  lemma NoFlagsNoAttributes(data: seq<u32>)
    requires |data| >= 1 && data[0] == 0
    ensures AttributesReadable(data)
    ensures ParseAttributes(data) == ExternalMemoryAttributes(None, None, None, None, None)
  {
    FlagBits(0);
    assert forall k :: 0 <= k < 5 ==> !Bit(data[0], k) by {
      assert Pow2(1) == 2 && Pow2(2) == 4 && Pow2(3) == 8 && Pow2(4) == 16;
    }
  }
}
