/** Parameter sets on their way from a format description to the worker, and the splitting of
    length-prefixed bitstreams. */
module ParameterSets {
  import opened Bits
  import opened Wire
  import opened BigEndian
  import opened ConfigRecords
  import opened HevcRecords

  const MAX_PARAMETER_SETS: nat := 4
  const MAX_PARAMETER_SET_BYTES: nat := 128
  const INVALID_PARAMETER: int := -12710
  const UNSUPPORTED: int := -12902
  const AVC1: u32 := 0x6176_6331
  const HVC1: u32 := 0x6876_6331

  datatype Result<T> = Success(value: T) | Failure(status: int)

  /** At most four sets, each its own copy. */
  datatype FormatDescription = FormatDescription(codec: u32, sets: seq<seq<byte>>, nalHeaderLength: int)

  /** `SetDecodeFormatPayload`: set sizes and one flat byte area. */
  datatype Payload = Payload(codec: u32, nalHeaderLength: int, sizes: seq<nat>, data: seq<byte>)

  function Concat(sets: seq<seq<byte>>): (r: seq<byte>) {
    if |sets| == 0 then [] else Concat(sets[..|sets| - 1]) + sets[|sets| - 1]
  }

  function Sizes(sets: seq<seq<byte>>): (r: seq<nat>)
    ensures |r| == |sets|
  {
    seq(|sets|, i requires 0 <= i < |sets| => |sets[i]|)
  }

  // ---------- building a description ----------

  /** Cut `data` by `sizes` from `at` on, stopping at an empty or overlong set. */
  function Cut(data: seq<byte>, sizes: seq<nat>, i: nat, count: nat, at: nat): (r: seq<seq<byte>>)
    decreases count - i
  {
    if i >= count then []
    else
      var size := if i < |sizes| then sizes[i] else 0;
      if size == 0 || at + size > |data| then [] else [data[at..at + size]] + Cut(data, sizes, i + 1, count, at + size)
  }

  function CountOf(wanted: nat): (n: nat) {
    if wanted < MAX_PARAMETER_SETS then wanted else MAX_PARAMETER_SETS
  }

  /** The copying loop of `vtf_create_video_format_description`. */
  method CutSets(data: seq<byte>, sizes: seq<nat>, wanted: nat) returns (sets: seq<seq<byte>>)
    ensures sets == Cut(data, sizes, 0, CountOf(wanted), 0)
  {
    var count := CountOf(wanted);
    sets := [];
    var offset, i := 0, 0;
    ghost var whole := Cut(data, sizes, 0, count, 0);
    assert [] + whole == whole;
    while i < count
      invariant 0 <= i <= count && 0 <= offset
      invariant whole == sets + Cut(data, sizes, i, count, offset)
    {
      var size := if i < |sizes| then sizes[i] else 0;
      if size == 0 || offset + size > |data| {
        assert sets + [] == sets;
        return;
      }
      Associate(sets, data[offset..offset + size], Cut(data, sizes, i + 1, count, offset + size));
      sets := sets + [data[offset..offset + size]];
      offset, i := offset + size, i + 1;
    }
    assert sets + [] == sets;
  }

  lemma Associate(a: seq<seq<byte>>, x: seq<byte>, rest: seq<seq<byte>>)
    ensures a + ([x] + rest) == (a + [x]) + rest
  {
  }

  predicate NoneEmpty(sets: seq<seq<byte>>) {
    forall i :: 0 <= i < |sets| ==> 0 < |sets[i]| < TWO_32
  }

  /** An explicit list: one to four sets, none of them empty. */
  function FromSets(codec: u32, sets: seq<seq<byte>>, nalHeaderLength: int): (r: Result<FormatDescription>) {
    if |sets| == 0 || |sets| > MAX_PARAMETER_SETS || !NoneEmpty(sets) then Failure(INVALID_PARAMETER)
    else Success(FormatDescription(codec, Cut(Concat(sets), Sizes(sets), 0, |sets|, 0), nalHeaderLength))
  }

  /** A parsed record: its sets as they are. */
  function FromConfig(codec: u32, config: Config): (d: FormatDescription) {
    var n := if |config.sets| <= MAX_PARAMETER_SETS then |config.sets| else MAX_PARAMETER_SETS;
    FormatDescription(codec, config.sets[..n], config.lengthSize)
  }

  lemma {:induction false} ConcatPrefix(sets: seq<seq<byte>>, i: nat)
    requires i < |sets|
    ensures |Concat(sets[..i])| + |sets[i]| <= |Concat(sets)|
    ensures Concat(sets)[|Concat(sets[..i])|..|Concat(sets[..i])| + |sets[i]|] == sets[i]
    ensures Concat(sets[..i + 1]) == Concat(sets[..i]) + sets[i]
  {
    assert sets[..i + 1][..i] == sets[..i];
    var n := |sets| - 1;
    if i < n {
      ConcatPrefix(sets[..n], i);
      assert sets[..n][..i] == sets[..i] && sets[..n][i] == sets[i];
    } else {
      assert sets[..|sets|] == sets;
    }
  }

  lemma {:induction false} CutOfConcat(sets: seq<seq<byte>>, i: nat)
    requires i <= |sets| && forall j :: 0 <= j < |sets| ==> |sets[j]| > 0
    ensures Cut(Concat(sets), Sizes(sets), i, |sets|, |Concat(sets[..i])|) == sets[i..]
    decreases |sets| - i
  {
    if i < |sets| {
      ConcatPrefix(sets, i);
      CutOfConcat(sets, i + 1);
      assert sets[i..] == [sets[i]] + sets[i + 1..];
    }
  }

  /** A description made from a list holds exactly that list. */
  lemma FromSetsKeeps(codec: u32, sets: seq<seq<byte>>, nalHeaderLength: int)
    ensures var r := FromSets(codec, sets, nalHeaderLength);
            && (r.Success? <==> 1 <= |sets| <= MAX_PARAMETER_SETS && NoneEmpty(sets))
            && (r.Success? ==> r.value == FormatDescription(codec, sets, nalHeaderLength))
            && (r.Failure? ==> r.status == INVALID_PARAMETER)
  {
    if 1 <= |sets| <= MAX_PARAMETER_SETS && NoneEmpty(sets) {
      CutOfConcat(sets, 0);
      assert sets[..0] == [] && sets[0..] == sets;
    }
  }

  // ---------- packing for the wire ----------

  function Accessible(d: FormatDescription, codec: u32): (ok: bool) {
    d.codec == if codec == HVC1 then HVC1 else AVC1
  }

  function Pack(d: FormatDescription, codec: u32): (r: Result<Payload>) {
    if !Accessible(d, codec) || |d.sets| == 0 then Failure(INVALID_PARAMETER)
    else if |d.sets| > MAX_PARAMETER_SETS || |Concat(d.sets)| > MAX_PARAMETER_SET_BYTES then Failure(UNSUPPORTED)
    else Success(Payload(codec, d.nalHeaderLength, Sizes(d.sets), Concat(d.sets)))
  }

  /** The packing loop, filling the payload's fixed areas set by set. */
  method PackLoop(d: FormatDescription, codec: u32) returns (status: int, sizes: array<nat>, area: array<byte>)
    ensures fresh(sizes) && fresh(area) && sizes.Length == MAX_PARAMETER_SETS && area.Length == MAX_PARAMETER_SET_BYTES
    ensures status == 0 <==> Pack(d, codec).Success?
    ensures status != 0 ==> Pack(d, codec) == Failure(status)
    ensures status == 0 ==> |Concat(d.sets)| <= area.Length && area[..|Concat(d.sets)|] == Concat(d.sets)
    ensures status == 0 ==> |d.sets| <= sizes.Length && sizes[..|d.sets|] == Sizes(d.sets)
  {
    sizes := new nat[MAX_PARAMETER_SETS](_ => 0);
    area := new byte[MAX_PARAMETER_SET_BYTES](_ => 0);
    if !Accessible(d, codec) || |d.sets| == 0 {
      return INVALID_PARAMETER, sizes, area;
    }
    if |d.sets| > MAX_PARAMETER_SETS {
      return UNSUPPORTED, sizes, area;
    }
    var offset, i := 0, 0;
    assert d.sets[..0] == [];
    while i < |d.sets|
      invariant 0 <= i <= |d.sets| && offset == |Concat(d.sets[..i])| <= MAX_PARAMETER_SET_BYTES
      invariant area[..offset] == Concat(d.sets[..i])
      invariant sizes[..i] == Sizes(d.sets)[..i]
    {
      ConcatPrefix(d.sets, i);
      var s := d.sets[i];
      if offset + |s| > MAX_PARAMETER_SET_BYTES {
        return UNSUPPORTED, sizes, area;
      }
      CopyInto(area, offset, s);
      sizes[i] := |s|;
      offset, i := offset + |s|, i + 1;
    }
    assert d.sets[..i] == d.sets;
    return 0, sizes, area;
  }

  method CopyInto(area: array<byte>, at: nat, s: seq<byte>)
    requires at + |s| <= area.Length
    modifies area
    ensures area[..at + |s|] == old(area[..at]) + s
  {
    var i := 0;
    while i < |s|
      invariant 0 <= i <= |s|
      invariant area[..at] == old(area[..at])
      invariant area[at..at + i] == s[..i]
    {
      area[at + i] := s[i];
      i := i + 1;
    }
    assert area[..at + |s|] == area[..at] + area[at..at + |s|];
  }

  /** The receiver's reading: slice the byte area by the sizes. */
  function Slices(data: seq<byte>, sizes: seq<nat>): (r: seq<seq<byte>>)
    requires Total(sizes) <= |data|
    ensures |r| == |sizes|
  {
    if |sizes| == 0 then []
    else
      var before := sizes[..|sizes| - 1];
      Slices(data, before) + [data[Total(before)..Total(sizes)]]
  }

  function Total(sizes: seq<nat>): (n: nat) {
    if |sizes| == 0 then 0 else Total(sizes[..|sizes| - 1]) + sizes[|sizes| - 1]
  }

  lemma {:induction false} TotalOfSizes(sets: seq<seq<byte>>)
    ensures Total(Sizes(sets)) == |Concat(sets)|
  {
    if |sets| > 0 {
      TotalOfSizes(sets[..|sets| - 1]);
      assert Sizes(sets)[..|sets| - 1] == Sizes(sets[..|sets| - 1]);
    }
  }

  lemma {:induction false} SlicesOfConcat(sets: seq<seq<byte>>, area: seq<byte>)
    requires |Concat(sets)| <= |area| && area[..|Concat(sets)|] == Concat(sets)
    ensures Total(Sizes(sets)) <= |area| && Slices(area, Sizes(sets)) == sets
  {
    TotalOfSizes(sets);
    if |sets| > 0 {
      var n := |sets| - 1;
      var before := sets[..n];
      assert Sizes(sets)[..n] == Sizes(before);
      TotalOfSizes(before);
      assert area[..|Concat(before)|] == Concat(sets)[..|Concat(before)|] == Concat(before);
      SlicesOfConcat(before, area);
      assert area[|Concat(before)|..|Concat(sets)|] == Concat(sets)[|Concat(before)|..] == sets[n];
      assert sets == before + [sets[n]];
    }
  }

  /** Packing succeeds exactly for a description of the right codec with one to four sets of at
      most 128 bytes together, and what arrives, sliced by its sizes, is what was described. */
  lemma PackRoundTrip(d: FormatDescription, codec: u32)
    ensures var r := Pack(d, codec);
            var usable := d.codec == (if codec == HVC1 then HVC1 else AVC1) && |d.sets| > 0;
            && (r.Success? <==> usable && |d.sets| <= 4 && |Concat(d.sets)| <= MAX_PARAMETER_SET_BYTES)
            && (r.Success? ==> r.value.codec == codec && r.value.nalHeaderLength == d.nalHeaderLength)
            && (r.Success? ==> Total(r.value.sizes) == |r.value.data| && Slices(r.value.data, r.value.sizes) == d.sets)
            && (r.Failure? ==> r.status == if usable then UNSUPPORTED else INVALID_PARAMETER)
  {
    TotalOfSizes(d.sets);
    assert Concat(d.sets)[..|Concat(d.sets)|] == Concat(d.sets);
    SlicesOfConcat(d.sets, Concat(d.sets));
  }

  /** The sets of any parsed record reach the worker unchanged whenever they fit together. */
  lemma ConfigReachesWorker(codec: u32, config: Config)
    requires (codec == AVC1 || codec == HVC1) && 1 <= |config.sets| <= MAX_PARAMETER_SETS
    ensures var p := Pack(FromConfig(codec, config), codec);
            && (p.Success? <==> |Concat(config.sets)| <= MAX_PARAMETER_SET_BYTES)
            && (p.Success? ==>
                  && Total(p.value.sizes) <= |p.value.data|
                  && Slices(p.value.data, p.value.sizes) == config.sets)
            && (p.Success? ==> p.value.nalHeaderLength == config.lengthSize)
  {
    assert config.sets[..|config.sets|] == config.sets;
    PackRoundTrip(FromConfig(codec, config), codec);
  }

  /** From an avcC record to the worker: the first SPS and the first PPS arrive unchanged
      whenever they fit the payload together. */
  lemma AvccReachesWorker(r: AvcRecord, tail: seq<byte>)
    requires AvcOk(r)
    ensures Avcc(WriteAvcc(r) + tail).Some?
    ensures var p := Pack(FromConfig(AVC1, Avcc(WriteAvcc(r) + tail).value.config), AVC1);
            && (p.Success? <==> |r.sps[0]| + |r.pps[0]| <= MAX_PARAMETER_SET_BYTES)
            && (p.Success? ==>
                  && Total(p.value.sizes) <= |p.value.data|
                  && Slices(p.value.data, p.value.sizes) == [r.sps[0], r.pps[0]])
            && (p.Success? ==> p.value.nalHeaderLength == r.lengthSize)
  {
    AvccRoundTrip(r);
    AvccIgnoresTail(WriteAvcc(r), tail);
    ConcatOfTwo(r.sps[0], r.pps[0]);
    ConfigReachesWorker(AVC1, Config([r.sps[0], r.pps[0]], r.lengthSize));
  }

  lemma ConcatOfTwo(a: seq<byte>, b: seq<byte>)
    ensures |Concat([a, b])| == |a| + |b|
  {
    assert [a, b][..1] == [a] && [a][..0] == [];
    assert Concat([a]) == Concat([]) + a;
  }

  /** From an hvcC record to the worker: the first VPS, SPS and PPS in array order arrive
      unchanged whenever they fit the payload together. */
  lemma HvccReachesWorker(r: HevcRecord, tail: seq<byte>)
    requires HevcOk(r, 2)
    requires var nals := AllNals(r.arrays); First(nals, VPS).Some? && First(nals, SPS).Some? && First(nals, PPS).Some?
    ensures Hvcc(WriteHvcc(r) + tail).Some?
    ensures var nals := AllNals(r.arrays);
            var vps, sps, pps := First(nals, VPS).value, First(nals, SPS).value, First(nals, PPS).value;
            var p := Pack(FromConfig(HVC1, Hvcc(WriteHvcc(r) + tail).value.config), HVC1);
            && (p.Success? <==> |vps| + |sps| + |pps| <= MAX_PARAMETER_SET_BYTES)
            && (p.Success? ==>
                  && Total(p.value.sizes) <= |p.value.data|
                  && Slices(p.value.data, p.value.sizes) == [vps, sps, pps])
            && (p.Success? ==> p.value.nalHeaderLength == r.lengthSize)
  {
    var nals := AllNals(r.arrays);
    var vps, sps, pps := First(nals, VPS).value, First(nals, SPS).value, First(nals, PPS).value;
    HvccRoundTrip(r);
    HvccIgnoresTail(WriteHvcc(r), tail);
    ConcatOfThree(vps, sps, pps);
    ConfigReachesWorker(HVC1, Config([vps, sps, pps], r.lengthSize));
  }

  lemma ConcatOfThree(a: seq<byte>, b: seq<byte>, c: seq<byte>)
    ensures |Concat([a, b, c])| == |a| + |b| + |c|
  {
    assert [a, b, c][..2] == [a, b];
    ConcatOfTwo(a, b);
  }

  // ---------- splitting a bitstream ----------

  function SplitFrom(data: seq<byte>, at: nat, k: nat): (r: seq<seq<byte>>)
    requires k > 0
    decreases |data| - at
  {
    var u := UnitAt(data, at, k);
    if u.None? || |u.value| == 0 then [] else [u.value] + SplitFrom(data, at + k + |u.value|, k)
  }

  /** `vtf_split_avcc_bitstream`: prefixes of one to four bytes, stop at an empty or cut-off NAL. */
  function Split(data: seq<byte>, k: nat): (r: seq<seq<byte>>) {
    if k == 0 || k > 4 then [] else SplitFrom(data, 0, k)
  }

  method SplitLoop(data: seq<byte>, k: nat) returns (units: seq<seq<byte>>)
    ensures units == Split(data, k)
  {
    units := [];
    if k == 0 || k > 4 {
      return;
    }
    var offset := 0;
    ghost var whole := SplitFrom(data, 0, k);
    while offset + k <= |data|
      invariant 0 <= offset
      invariant whole == units + SplitFrom(data, offset, k)
      decreases |data| - offset
    {
      var n := ReadPrefix(data, offset, k);
      if n == 0 || offset + k + n > |data| {
        break;
      }
      var u := data[offset + k..offset + k + n];
      Associate(units, u, SplitFrom(data, offset + k + n, k));
      units := units + [u];
      offset := offset + k + n;
    }
    assert units + [] == units;
  }

  predicate Splittable(units: seq<seq<byte>>, k: nat) {
    |units| == 0 || (0 < |units[0]| < Pow256(k) && Splittable(units[1..], k))
  }

  lemma {:induction false} SplitOfJoin(b: seq<byte>, at: nat, units: seq<seq<byte>>, k: nat)
    requires k > 0 && Splittable(units, k) && Holds(b, at, Join(units, k)) && at + |Join(units, k)| == |b|
    ensures SplitFrom(b, at, k) == units
    decreases |units|
  {
    if |units| > 0 {
      JoinHead(b, at, units, k);
      SplitOfJoin(b, at + k + |units[0]|, units[1..], k);
      assert units == [units[0]] + units[1..];
    }
  }

  /** Splitting undoes joining for non-empty units whose lengths fit the prefix. */
  lemma SplitInvertsJoin(units: seq<seq<byte>>, k: nat)
    requires 1 <= k <= 4 && Splittable(units, k)
    ensures Split(Join(units, k), k) == units
  {
    var b := Join(units, k);
    assert b[0..|b|] == b;
    HoldsSlice(b, 0, b);
    SplitOfJoin(b, 0, units, k);
  }

  lemma {:induction false} JoinOfSplit(data: seq<byte>, at: nat, k: nat)
    requires k > 0 && at <= |data|
    ensures Holds(data, at, Join(SplitFrom(data, at, k), k))
    decreases |data| - at
  {
    var u := UnitAt(data, at, k);
    if u.Some? && |u.value| > 0 {
      var next := at + k + |u.value|;
      JoinOfSplit(data, next, k);
      UnitIsWritten(data, at, k);
      HoldsSlice(data, at, Unit(u.value, k));
      var rest := SplitFrom(data, next, k);
      assert ([u.value] + rest)[1..] == rest;
      HoldsParts(data, at, Unit(u.value, k), Join(rest, k));
    }
  }

  /** On any input, what was split off joins back to a prefix of that input. */
  lemma SplitRejoinsToPrefix(data: seq<byte>, k: nat)
    requires 1 <= k <= 4
    ensures Join(Split(data, k), k) <= data
  {
    JoinOfSplit(data, 0, k);
    HoldsSlice(data, 0, Join(Split(data, k), k));
  }
}
