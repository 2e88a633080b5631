/** Buffer layouts, computed independently by the worker, the guest and the broker.

    The sources multiply in fixed-width integers. The model keeps the width: every
    u32 or u64 product is reduced, as an optimised build does. */
module Layout {
  import opened Bits

  const NV12_VIDEO: u32 := 0x3432_3076
  const NV12_FULL: u32 := 0x3432_3066
  const P010_VIDEO: u32 := 0x7834_3230
  const P010_FULL: u32 := 0x7866_3230
  const BGRA: u32 := 0x4247_5241

  datatype Plane = Plane(offset: u32, width: u32, height: u32, bytesPerRow: u32)
  datatype BufferLayout = BufferLayout(planes: seq<Plane>, totalSize: u32)

  predicate IsNv12(format: u32) {
    format == NV12_VIDEO || format == NV12_FULL
  }

  predicate IsP010(format: u32) {
    format == P010_VIDEO || format == P010_FULL
  }

  predicate IsBiPlanar(format: u32) {
    IsNv12(format) || IsP010(format)
  }

  /** Bytes of pixel data in one row, before any alignment. */
  function RowBytes(width: u32, format: u32): (r: nat) {
    if IsNv12(format) then width else if IsP010(format) then width * 2 else width * 4
  }

  // ---------- worker ----------

  function AlignSize(value: nat, alignment: nat): (r: nat)
    ensures value <= r
    ensures alignment > 0 ==> r < value + alignment && r % alignment == 0
  {
    if alignment == 0 then value
    else
      var remainder := value % alignment;
      if remainder == 0 then value
      else
        AlignedAbove(value, alignment);
        value + (alignment - remainder)
  }

  lemma AlignedAbove(value: nat, alignment: nat)
    requires alignment > 0
    ensures (value + (alignment - value % alignment)) % alignment == 0
  {
    var q := value / alignment;
    var v := value + (alignment - value % alignment);
    assert v == alignment * q + alignment;
    assert alignment * (q + 1) == alignment * q + alignment;
    QuotientIs(v, alignment, q + 1);
    assert v == alignment * (v / alignment) + v % alignment;
  }

  function LayoutWithStride(width: u32, height: u32, format: u32, stride: u32): (r: BufferLayout) {
    if IsBiPlanar(format) then
      var chroma := Wrap32(stride * height);
      BufferLayout([Plane(0, width, height, stride), Plane(chroma, width / 2, height / 2, stride)],
                   Wrap32(chroma + Wrap32(stride * (height / 2))))
    else
      BufferLayout([Plane(0, width, height, stride)], Wrap32(stride * height))
  }

  /** `fill_buffer_layout`: round in `usize`, then truncate to u32. */
  function WorkerLayout(width: u32, height: u32, format: u32): (r: BufferLayout) {
    LayoutWithStride(width, height, format, Wrap32(AlignSize(RowBytes(width, format), 64)))
  }

  // ---------- guest ----------

  /** `(v + 63) & !63` in u32. */
  function GuestAlign64(v: u32): (r: nat) {
    BitAnd(Wrap32(v + 63), TWO_32 - 64)
  }

  /** `vtf_decode_layout_for_format`: every step in u32, its three branches written out. */
  function GuestLayout(width: u32, height: u32, format: u32): (r: BufferLayout) {
    if format == 0x3432_3076 || format == 0x3432_3066 then
      var stride := Wrap32(GuestAlign64(width));
      var second := Wrap32(stride * height);
      BufferLayout([Plane(0, width, height, stride), Plane(second, width / 2, height / 2, stride)],
                   Wrap32(second + Wrap32(stride * (height / 2))))
    else if format == 0x7834_3230 || format == 0x7866_3230 then
      var stride := Wrap32(GuestAlign64(Wrap32(width * 2)));
      var second := Wrap32(stride * height);
      BufferLayout([Plane(0, width, height, stride), Plane(second, width / 2, height / 2, stride)],
                   Wrap32(second + Wrap32(stride * (height / 2))))
    else
      var stride := Wrap32(GuestAlign64(Wrap32(width * 4)));
      BufferLayout([Plane(0, width, height, stride)], Wrap32(stride * height))
  }

  lemma PowersOfTwo()
    ensures Pow2(6) == 64 && Pow2(12) == 4096 && Pow2(32) == TWO_32 && Pow2(64) == TWO_64
  {
    assert Pow2(4) == 16;
    assert Pow2(8) == 256;
    assert Pow2(12) == 4096;
    assert Pow2(16) == 65536;
    assert Pow2(20) == 0x10_0000;
    assert Pow2(24) == 0x100_0000;
    assert Pow2(28) == 0x1000_0000;
    assert Pow2(32) == 0x1_0000_0000;
    assert Pow2(36) == 0x10_0000_0000;
    assert Pow2(40) == 0x100_0000_0000;
    assert Pow2(44) == 0x1000_0000_0000;
    assert Pow2(48) == 0x1_0000_0000_0000;
    assert Pow2(52) == 0x10_0000_0000_0000;
    assert Pow2(56) == 0x100_0000_0000_0000;
    assert Pow2(60) == 0x1000_0000_0000_0000;
  }

  lemma RoundModWord(v: nat)
    ensures Wrap32(Wrap32(v % TWO_32 + 63) / 64 * 64) == Wrap32((v + 63) / 64 * 64)
  {
    var q, r := v / TWO_32, v % TWO_32;
    RoundParts(q, r);
    WrapParts(q, (r + 63) / 64 * 64);
    RoundLow(r);
  }

  lemma RoundParts(q: nat, r: nat)
    ensures (TWO_32 * q + r + 63) / 64 * 64 == TWO_32 * q + (r + 63) / 64 * 64
  {
    WholeBlocks(0x400_0000 * q, r + 63);
  }

  lemma WholeBlocks(a: nat, b: nat)
    ensures (64 * a + b) / 64 * 64 == 64 * a + b / 64 * 64
  {
  }

  lemma WrapParts(q: nat, x: nat)
    ensures Wrap32(TWO_32 * q + x) == Wrap32(x)
  {
  }

  lemma RoundLow(r: nat)
    requires r < TWO_32
    ensures Wrap32(Wrap32(r + 63) / 64 * 64) == Wrap32((r + 63) / 64 * 64)
  {
    if r + 63 >= TWO_32 {
      assert (r + 63) / 64 * 64 == TWO_32;
      assert Wrap32(r + 63) / 64 * 64 == 0;
    }
  }

  lemma MaskRoundsLikeRemainder(v: nat)
    ensures Wrap32(GuestAlign64(Wrap32(v))) == Wrap32(AlignSize(v, 64))
  {
    var x := Wrap32(Wrap32(v) + 63);
    assert BitAnd(x, TWO_32 - 64) == FloorTo(x, 64) by {
      PowersOfTwo();
      AndHighOnes(x, 6, 26);
    }
    RoundModWord(v);
    CeilingIsFloor(v, 64);
  }

  /** The largest multiple of `p` not above `x`. */
  function FloorTo(x: nat, p: nat): (r: nat)
    requires p > 0
  {
    x / p * p
  }

  lemma CeilingIsFloor(value: nat, p: nat)
    requires p > 0
    ensures AlignSize(value, p) == FloorTo(value + p - 1, p)
  {
    var a := AlignSize(value, p);
    var d := a / p;
    assert a == p * d + a % p;
    assert p * d == a;
    QuotientIs(value + p - 1, p, d);
    assert d * p == p * d;
  }

  /** Guest and worker agree on every plane of every frame, for all u32 sizes and
      every format code. */
  lemma LayoutsAgree(width: u32, height: u32, format: u32)
    ensures GuestLayout(width, height, format) == WorkerLayout(width, height, format)
  {
    MaskRoundsLikeRemainder(RowBytes(width, format));
    GuestShape(width, height, format, Wrap32(GuestAlign64(Wrap32(RowBytes(width, format)))));
  }

  lemma GuestShape(width: u32, height: u32, format: u32, stride: u32)
    requires stride == Wrap32(GuestAlign64(Wrap32(RowBytes(width, format))))
    ensures GuestLayout(width, height, format) == LayoutWithStride(width, height, format, stride)
  {
    assert Wrap32(width) == width;
  }

  // ---------- what a layout promises ----------

  /** End of a plane's rows, in unbounded arithmetic. */
  function PlaneEnd(p: Plane): (r: nat) {
    p.offset + p.bytesPerRow * p.height
  }

  /** Every row fits its stride, every plane fits the total, and planes do not overlap. */
  ghost predicate Sound(l: BufferLayout, rowBytes: nat) {
    && (forall i :: 0 <= i < |l.planes| ==>
          rowBytes <= l.planes[i].bytesPerRow && PlaneEnd(l.planes[i]) <= l.totalSize)
    && (forall i, j :: 0 <= i < j < |l.planes| ==> PlaneEnd(l.planes[i]) <= l.planes[j].offset)
  }

  /** Size of the frame and of one row without any truncation. */
  function ExactStride(width: u32, format: u32): (r: nat) {
    AlignSize(RowBytes(width, format), 64)
  }

  function ExactTotal(width: u32, height: u32, format: u32): (r: nat) {
    ExactStride(width, format) * height
    + (if IsBiPlanar(format) then ExactStride(width, format) * (height / 2) else 0)
  }

  /** Bytes per sample by format code: one for 8-bit and two for 10-bit bi-planar frames, four per
      pixel for anything else. */
  ghost predicate HasDepth(format: u32, k: nat) {
    if format == 0x3432_3076 || format == 0x3432_3066 then k == 1
    else if format == 0x7834_3230 || format == 0x7866_3230 then k == 2
    else k == 4
  }

  /** Rows are padded to the next multiple of 64. */
  ghost predicate Padded(width: nat, k: nat, stride: nat) {
    width * k <= stride < width * k + 64 && stride % 64 == 0
  }

  /** The figures of a layout, for every size and format: one plane, or two of which the second is
      half as wide and high and follows the first; all of them in 32 bits. */
  lemma LayoutFigures(width: u32, height: u32, format: u32, k: nat) returns (stride: nat)
    requires HasDepth(format, k)
    ensures Padded(width, k, stride) && stride == ExactStride(width, format)
    ensures ExactTotal(width, height, format)
         == if k < 4 then stride * height + stride * (height / 2) else stride * height
    ensures var l, s := WorkerLayout(width, height, format), stride % 0x1_0000_0000;
            if k < 4 then
              && l.planes == [Plane(0, width, height, s),
                              Plane(s * height % 0x1_0000_0000, width / 2, height / 2, s)]
              && l.totalSize == (s * height + s * (height / 2)) % 0x1_0000_0000
            else
              l.planes == [Plane(0, width, height, s)] && l.totalSize == s * height % 0x1_0000_0000
  {
    stride := AlignSize(RowBytes(width, format), 64);
    var s := Wrap32(stride);
    WrapSum(s * height, s * (height / 2));
  }

  lemma WrapSum(a: nat, b: nat)
    ensures Wrap32(Wrap32(a) + Wrap32(b)) == (a + b) % 0x1_0000_0000
  {
  }

  /** The layout is sound exactly when neither the stride nor the frame size overflows u32. */
  lemma LayoutSoundIff(width: u32, height: u32, format: u32, k: nat, stride: nat)
    requires HasDepth(format, k) && Padded(width, k, stride)
    ensures Sound(WorkerLayout(width, height, format), width * k)
       <==> stride < 0x1_0000_0000 && stride * height + (if k < 4 then stride * (height / 2) else 0) < 0x1_0000_0000
  {
    var exact := LayoutFigures(width, height, format, k);
    OnePadding(width * k, stride, exact);
    SoundIffFits(width, height, format);
  }

  lemma OnePadding(row: nat, a: nat, b: nat)
    requires row <= a < row + 64 && a % 64 == 0 && row <= b < row + 64 && b % 64 == 0
    ensures a == b
  {
  }

  lemma SoundIffFits(width: u32, height: u32, format: u32)
    ensures Sound(WorkerLayout(width, height, format), RowBytes(width, format))
       <==> ExactStride(width, format) < TWO_32 && ExactTotal(width, height, format) < TWO_32
  {
    var l := WorkerLayout(width, height, format);
    var row, stride := RowBytes(width, format), ExactStride(width, format);
    var s := Wrap32(stride);
    assert l.planes[0] == Plane(0, width, height, s);
    if stride >= TWO_32 {
      assert s < row;
    } else if IsBiPlanar(format) {
      SoundBiPlanar(width, height, format);
    } else {
      assert s == stride;
      assert PlaneEnd(l.planes[0]) == stride * height == ExactTotal(width, height, format);
      TruncatedIsSmaller(stride * height);
    }
  }

  lemma TruncatedIsSmaller(x: nat)
    ensures Wrap32(x) <= x
    ensures x <= Wrap32(x) <==> x < TWO_32
  {
  }

  lemma SoundBiPlanar(width: u32, height: u32, format: u32)
    requires IsBiPlanar(format) && ExactStride(width, format) < TWO_32
    ensures Sound(WorkerLayout(width, height, format), RowBytes(width, format))
       <==> ExactTotal(width, height, format) < TWO_32
  {
    var l := WorkerLayout(width, height, format);
    var s := ExactStride(width, format);
    var luma, chroma := s * height, s * (height / 2);
    MulMonotone(0, s, height);
    MulMonotone(0, s, height / 2);
    assert Wrap32(s) == s;
    SoundIffNoOverflow(l, RowBytes(width, format), luma, chroma);
  }

  lemma SoundIffNoOverflow(l: BufferLayout, row: nat, luma: nat, chroma: nat)
    requires |l.planes| == 2
    requires row <= l.planes[0].bytesPerRow && row <= l.planes[1].bytesPerRow
    requires PlaneEnd(l.planes[0]) == luma
    requires l.planes[1].offset == Wrap32(luma) && PlaneEnd(l.planes[1]) == Wrap32(luma) + chroma
    requires l.totalSize == Wrap32(Wrap32(luma) + Wrap32(chroma))
    ensures Sound(l, row) <==> luma + chroma < TWO_32
  {
    TruncatedIsSmaller(luma);
    TruncatedIsSmaller(chroma);
    TruncatedIsSmaller(Wrap32(luma) + Wrap32(chroma));
  }

  // ---------- broker ----------

  /** Alignments the broker uses: 64 and the page size. */
  ghost predicate PowerOfTwo(p: nat) {
    exists k: nat :: k <= 32 && Pow2(k) == p
  }

  /** `align_up` and `page_round_up`: `(value + a - 1) & !(a - 1)` in u64. */
  function AlignUp(value: u64, alignment: nat): (r: nat)
    requires 0 < alignment <= TWO_32
  {
    BitAnd(Wrap64(value + alignment - 1), TWO_64 - alignment)
  }

  lemma WordMask(x: u64, p: nat)
    requires PowerOfTwo(p) && 0 < p <= TWO_32
    ensures BitAnd(x, TWO_64 - p) == FloorTo(x, p)
  {
    PowersOfTwo();
    var k: nat :| k <= 32 && Pow2(k) == p;
    AndHighOnes(x, k, 64 - k);
  }

  lemma Fits64(x: nat)
    requires x < TWO_64
    ensures Wrap64(x) == x
  {
  }

  /** Masking with a power of two rounds up to the next multiple. */
  lemma AlignUpRounds(value: u64, p: nat)
    requires PowerOfTwo(p) && 0 < p <= TWO_32 && value + p - 1 < TWO_64
    ensures AlignUp(value, p) == AlignSize(value, p)
  {
    Fits64(value + p - 1);
    WordMask(value + p - 1, p);
    CeilingIsFloor(value, p);
  }

  /** Pixel bytes of one slot as the broker counts them; rows are padded for NV12 only. */
  function BrokerRawSize(width: u32, height: u32, format: u32): (r: u64)
    requires format == BGRA || format == NV12_VIDEO
  {
    if format == BGRA then Wrap64(Wrap64(width * 4) * height)
    else BiPlanarBytes64(Wrap64(AlignUp(width, 64)), height)
  }

  function BiPlanarBytes64(stride: u64, height: u32): (r: u64) {
    Wrap64(Wrap64(stride * height) + Wrap64(stride * (height / 2)))
  }

  lemma BiPlanarBytesExact(stride: u64, height: u32)
    requires stride * height + stride * (height / 2) < TWO_32
    ensures BiPlanarBytes64(stride, height) == stride * height + stride * (height / 2)
  {
    MulMonotone(0, stride, height);
    MulMonotone(0, stride, height / 2);
    Fits64(stride * height);
    Fits64(stride * (height / 2));
  }

  datatype SlotSize = Unsupported | Size(bytes: nat)

  /** `pool_slot_alloc_size`. */
  function PoolSlotAllocSize(width: u32, height: u32, format: u32, page: nat): (r: SlotSize)
    requires 0 < page <= TWO_32
  {
    if format == BGRA || format == NV12_VIDEO then Size(AlignUp(BrokerRawSize(width, height, format), page))
    else Unsupported
  }

  lemma MulMonotone(a: nat, b: nat, c: nat)
    requires a <= b
    ensures a * c <= b * c
  {
  }

  lemma Nv12RawExact(width: u32, height: u32)
    requires ExactTotal(width, height, NV12_VIDEO) < TWO_32
    ensures BrokerRawSize(width, height, NV12_VIDEO) == ExactTotal(width, height, NV12_VIDEO)
  {
    var s := ExactStride(width, NV12_VIDEO);
    assert AlignUp(width, 64) == s by {
      assert Pow2(6) == 64;
      AlignUpRounds(width, 64);
    }
    Fits64(s);
    BiPlanarBytesExact(s, height);
  }

  lemma BgraRawExact(width: u32, height: u32)
    requires ExactTotal(width, height, BGRA) < TWO_32
    ensures BrokerRawSize(width, height, BGRA) == width * 4 * height < TWO_32
  {
    var row, s := width * 4, ExactStride(width, BGRA);
    assert row <= s;
    Fits64(row);
    MulMonotone(row, s, height);
    Fits64(row * height);
  }

  /** What the broker reserves per slot, for every frame the worker can lay out. */
  lemma SlotBytes(width: u32, height: u32, format: u32, page: nat)
    requires format == BGRA || format == NV12_VIDEO
    requires PowerOfTwo(page) && 0 < page <= TWO_32
    requires ExactTotal(width, height, format) < TWO_32
    ensures PoolSlotAllocSize(width, height, format, page)
         == Size(AlignSize(if format == BGRA then width * 4 * height else ExactTotal(width, height, format), page))
  {
    if format == BGRA {
      BgraRawExact(width, height);
    } else {
      Nv12RawExact(width, height);
    }
    AlignUpRounds(BrokerRawSize(width, height, format), page);
  }

  ghost predicate SlotHoldsLayout(width: u32, height: u32, format: u32, page: nat)
    requires 0 < page <= TWO_32
  {
    var slot := PoolSlotAllocSize(width, height, format, page);
    slot.Size? && ExactTotal(width, height, format) <= slot.bytes
  }

  /** Slots start on page boundaries when packed back to back. */
  lemma SlotPageAligned(width: u32, height: u32, format: u32, page: nat)
    requires format == BGRA || format == NV12_VIDEO
    requires PowerOfTwo(page) && 0 < page <= TWO_32
    requires ExactTotal(width, height, format) < TWO_32
    ensures PoolSlotAllocSize(width, height, format, page).bytes % page == 0
  {
    SlotBytes(width, height, format, page);
  }

  /** An NV12 slot always holds one whole layout. */
  lemma Nv12SlotHoldsLayout(width: u32, height: u32, page: nat)
    requires PowerOfTwo(page) && 0 < page <= TWO_32
    requires ExactTotal(width, height, NV12_VIDEO) < TWO_32
    ensures SlotHoldsLayout(width, height, NV12_VIDEO, page)
  {
    SlotBytes(width, height, NV12_VIDEO, page);
  }

  lemma BgraSlotHoldsWhen(width: u32, height: u32, page: nat)
    requires PowerOfTwo(page) && 0 < page <= TWO_32
    requires ExactTotal(width, height, BGRA) < TWO_32
    ensures SlotHoldsLayout(width, height, BGRA, page)
       <==> ExactTotal(width, height, BGRA) <= AlignSize(width * 4 * height, page)
  {
    SlotBytes(width, height, BGRA, page);
  }

  lemma BgraSlotHolds(width: u32, height: u32, page: nat)
    requires PowerOfTwo(page) && 0 < page <= TWO_32 && width % 16 == 0
    requires ExactTotal(width, height, BGRA) < TWO_32
    ensures SlotHoldsLayout(width, height, BGRA, page)
  {
    BgraSlotHoldsWhen(width, height, page);
    UnpaddedRowsFit(width, height, page);
  }

  lemma UnpaddedRowsFit(width: u32, height: u32, page: nat)
    requires 0 < page && width % 16 == 0
    ensures ExactTotal(width, height, BGRA) <= AlignSize(width * 4 * height, page)
  {
    PlainStride(width);
    assert ExactTotal(width, height, BGRA) == width * 4 * height;
  }

  lemma PlainStride(width: u32)
    requires width % 16 == 0
    ensures ExactStride(width, BGRA) == width * 4
  {
  }

  /** With padded rows, a frame one page high outgrows its slot. */
  lemma BgraSlotOverflows(width: u32, page: nat)
    requires PowerOfTwo(page) && 0 < page < TWO_32 && width % 16 != 0
    requires ExactTotal(width, page, BGRA) < TWO_32
    ensures !SlotHoldsLayout(width, page, BGRA, page)
  {
    BgraSlotHoldsWhen(width, page, page);
    PaddedRowsOverflow(width, page);
  }

  lemma PaddedRowsOverflow(width: u32, page: nat)
    requires 0 < page < TWO_32 && width % 16 != 0
    ensures AlignSize(width * 4 * page, page) < ExactTotal(width, page, BGRA)
  {
    assert width * 4 < ExactStride(width, BGRA);
    OutgrowsByAPage(width * 4, ExactStride(width, BGRA), page);
  }

  lemma OutgrowsByAPage(row: nat, stride: nat, page: nat)
    requires row < stride && 0 < page
    ensures AlignSize(row * page, page) < stride * page
  {
    MulMonotone(row + 1, stride, page);
    assert (row + 1) * page == row * page + page;
    var a := AlignSize(row * page, page);
    assert a < row * page + page;
  }

  /** A BGRA slot holds one layout at every height exactly when rows need no padding. */
  lemma BgraSlotHoldsIff(width: u32, page: nat)
    requires PowerOfTwo(page) && 0 < page < TWO_32
    requires ExactTotal(width, page, BGRA) < TWO_32
    ensures (forall height: u32 | ExactTotal(width, height, BGRA) < TWO_32 ::
               SlotHoldsLayout(width, height, BGRA, page))
       <==> width % 16 == 0
  {
    if width % 16 == 0 {
      forall height: u32 | ExactTotal(width, height, BGRA) < TWO_32
        ensures SlotHoldsLayout(width, height, BGRA, page)
      {
        BgraSlotHolds(width, height, page);
      }
    } else {
      BgraSlotOverflows(width, page);
    }
  }

  /** `raw_alloc` in `allocate_pools`: bytes asked of the packed surface. */
  function PackedAlloc(width: u32, slot: nat, count: u32): (r: nat)
    requires 0 < width
  {
    var total := slot * count;
    var row := width * 4;
    var rows := Wrap32((total + row - 1) / row);
    if row * rows > total then row * rows else total
  }

  /** The packed surface is large enough and wastes less than one row. */
  lemma PackedAllocTight(width: u32, slot: nat, count: u32)
    requires 0 < width
    ensures slot * count <= PackedAlloc(width, slot, count) < slot * count + width * 4
  {
    var total, row := slot * count, width * 4;
    var rows := (total + row - 1) / row;
    RoundedRows(total, row);
    assert Wrap32(rows) <= rows;
    MulMonotone(Wrap32(rows), rows, row);
    assert row * rows == rows * row && row * Wrap32(rows) == Wrap32(rows) * row;
  }

  lemma RoundedRows(total: nat, row: nat)
    requires row > 0
    ensures row * ((total + row - 1) / row) < total + row
  {
    var x := total + row - 1;
    assert x == row * (x / row) + x % row;
  }

  /** Packed slots do not overlap, start on page boundaries and end inside the allocation. */
  lemma PackedSlotsDisjoint(width: u32, slot: nat, count: u32, page: nat, i: nat, j: nat)
    requires 0 < width && 0 < page && slot % page == 0
    requires i < count && j < count
    ensures i < j ==> slot * i + slot <= slot * j
    ensures slot * j + slot <= PackedAlloc(width, slot, count)
    ensures slot * j % page == 0
  {
    if i < j {
      MulMonotone(i + 1, j, slot);
    }
    MulMonotone(j + 1, count, slot);
    assert slot * i + slot == (i + 1) * slot && slot * j + slot == (j + 1) * slot && slot * count == count * slot;
    MultipleOfMultiple(slot, page, j);
  }

  lemma MultipleOfMultiple(a: nat, p: nat, j: nat)
    requires p > 0 && a % p == 0
    ensures a * j % p == 0
  {
    var m := a / p;
    assert a == p * m + a % p;
    assert a * j == p * (m * j);
    QuotientIs(a * j, p, m * j);
    assert a * j == p * (a * j / p) + a * j % p;
  }
}
