/** The hvcC record: arrays of typed NAL units after a fixed 23-byte head. */
module HevcRecords {
  import opened Bits
  import opened Collections
  import opened Wire
  import opened BigEndian
  import opened ConfigRecords

  const VPS: nat := 32
  const SPS: nat := 33
  const PPS: nat := 34

  /** A NAL unit with the type its array declares. */
  datatype Nal = Nal(kind: nat, bytes: seq<byte>)

  datatype Flat = Flat(nals: seq<Nal>, next: nat)

  function Ahead(nals: seq<Nal>, r: Option<Flat>): (s: Option<Flat>) {
    if r.None? then None else Some(Flat(nals + r.value.nals, r.value.next))
  }

  /** `n` units of one type from `at` on. */
  function Nals(b: seq<byte>, at: nat, n: nat, kind: nat, k: nat): (r: Option<Flat>)
    ensures r.Some? ==> at <= r.value.next
    decreases n
  {
    if n == 0 then Some(Flat([], at))
    else
      var u := UnitAt(b, at, k);
      if u.None? then None else Ahead([Nal(kind, u.value)], Nals(b, at + k + |u.value|, n - 1, kind, k))
  }

  /** The units of the array at `at`. Counts and lengths take `k` bytes. */
  function ArrayAt(b: seq<byte>, at: nat, k: nat): (r: Option<Flat>)
    ensures r.Some? ==> at + 1 + k <= r.value.next
  {
    if at + 1 + k > |b| then None else Nals(b, at + 1 + k, ReadBE(b, at + 1, k), b[at] % 64, k)
  }

  /** `n` arrays from `at` on, flattened in order. */
  function Arrays(b: seq<byte>, at: nat, n: nat, k: nat): (r: Option<Flat>)
    ensures r.Some? ==> at <= r.value.next
    decreases n
  {
    if n == 0 then Some(Flat([], at))
    else
      var a := ArrayAt(b, at, k);
      if a.None? then None else Ahead(a.value.nals, Arrays(b, a.value.next, n - 1, k))
  }

  function KindIs(kind: nat): (p: Nal -> bool) { (x: Nal) => x.kind == kind }

  /** The first unit of a type, in flattened order. */
  function First(nals: seq<Nal>, kind: nat): (r: Option<seq<byte>>) {
    var i := IndexWhere(nals, KindIs(kind));
    if i.None? then None else Some(nals[i.value].bytes)
  }

  datatype Best = Best(vps: Option<seq<byte>>, sps: Option<seq<byte>>, pps: Option<seq<byte>>)

  function Chosen(nals: seq<Nal>): (r: Best) {
    Best(First(nals, VPS), First(nals, SPS), First(nals, PPS))
  }

  function HvccOf(b: seq<byte>, k: nat): (r: Option<Parsed>) {
    if |b| < 23 || b[0] != 1 then None
    else
      var r := Arrays(b, 23, b[22], k);
      if r.None? then None
      else
        var c := Chosen(r.value.nals);
        if c.vps.None? || c.sps.None? || c.pps.None? then None
        else Some(Parsed(Config([c.vps.value, c.sps.value, c.pps.value], b[21] % 4 + 1), r.value.next))
  }

  /** The record as it is: 16-bit counts and lengths. */
  function Hvcc(b: seq<byte>): (r: Option<Parsed>) {
    HvccOf(b, 2)
  }

  // ---------- the nested loops ----------

  /** One more unit seen: it is kept if its type is wanted and still missing. */
  function Offer(best: Best, x: Nal): (r: Best) {
    if x.kind == VPS && best.vps.None? then best.(vps := Some(x.bytes))
    else if x.kind == SPS && best.sps.None? then best.(sps := Some(x.bytes))
    else if x.kind == PPS && best.pps.None? then best.(pps := Some(x.bytes))
    else best
  }

  lemma FirstGrows(nals: seq<Nal>, x: Nal, kind: nat)
    ensures First(nals + [x], kind)
         == if First(nals, kind).Some? then First(nals, kind) else if x.kind == kind then Some(x.bytes) else None
  {
    var all := nals + [x];
    assert all[..|all| - 1] == nals;
  }

  /** What the loops hold after a list of units. */
  function Fold(nals: seq<Nal>): (r: Best) {
    if |nals| == 0 then Best(None, None, None) else Offer(Fold(nals[..|nals| - 1]), nals[|nals| - 1])
  }

  lemma FoldGrows(nals: seq<Nal>, x: Nal)
    ensures Fold(nals + [x]) == Offer(Fold(nals), x)
  {
    assert (nals + [x])[..|nals|] == nals;
  }

  /** Offering units one by one finds the first of each type. */
  lemma {:induction false} FoldIsChosen(nals: seq<Nal>)
    ensures Fold(nals) == Chosen(nals)
  {
    if |nals| > 0 {
      var n := |nals| - 1;
      FoldIsChosen(nals[..n]);
      assert nals == nals[..n] + [nals[n]];
      FirstGrows(nals[..n], nals[n], VPS);
      FirstGrows(nals[..n], nals[n], SPS);
      FirstGrows(nals[..n], nals[n], PPS);
    }
  }

  lemma FoldMore(seen: seq<Nal>, got: seq<Nal>, x: Nal)
    ensures Fold(seen + (got + [x])) == Offer(Fold(seen + got), x)
  {
    assert seen + (got + [x]) == (seen + got) + [x];
    FoldGrows(seen + got, x);
  }

  lemma NextNal(b: seq<byte>, at: nat, n: nat, kind: nat, k: nat, got: seq<Nal>)
    requires n > 0
    ensures var u := UnitAt(b, at, k);
            Ahead(got, Nals(b, at, n, kind, k))
            == if u.None? then None else Ahead(got + [Nal(kind, u.value)], Nals(b, at + k + |u.value|, n - 1, kind, k))
  {
    var u := UnitAt(b, at, k);
    if u.Some? {
      AheadTwice(got, [Nal(kind, u.value)], Nals(b, at + k + |u.value|, n - 1, kind, k));
    }
  }

  /** The inner loop over one array; `seen` are the units of the arrays before it. */
  method ScanArray(b: seq<byte>, at: nat, n: nat, kind: nat, k: nat, start: Best, ghost seen: seq<Nal>)
    returns (best: Best, next: Option<nat>, ghost nals: seq<Nal>)
    requires start == Fold(seen)
    ensures Nals(b, at, n, kind, k) == if next.None? then None else Some(Flat(nals, next.value))
    ensures next.Some? ==> best == Fold(seen + nals)
  {
    best := start;
    nals := [];
    var offset: nat, left: nat := at, n;
    ghost var whole := Nals(b, at, n, kind, k);
    AheadTwice([], [], whole);
    assert seen + nals == seen;
    while left > 0
      invariant whole == Ahead(nals, Nals(b, offset, left, kind, k))
      invariant best == Fold(seen + nals)
    {
      NextNal(b, offset, left, kind, k, nals);
      var u := ReadUnit(b, offset, k);
      if u.None? {
        return best, None, nals;
      }
      FoldMore(seen, nals, Nal(kind, u.value));
      best := Offer(best, Nal(kind, u.value));
      nals := nals + [Nal(kind, u.value)];
      offset, left := offset + k + |u.value|, left - 1;
    }
    assert nals + [] == nals;
    return best, Some(offset), nals;
  }

  lemma AheadTwice(a: seq<Nal>, b: seq<Nal>, r: Option<Flat>)
    ensures Ahead(a, Ahead(b, r)) == Ahead(a + b, r)
    ensures Ahead([], r) == r
  {
    if r.Some? {
      assert a + (b + r.value.nals) == (a + b) + r.value.nals;
      assert [] + r.value.nals == r.value.nals;
    }
  }

  method ParseHvcc(b: seq<byte>) returns (r: Option<Config>)
    ensures r == match Hvcc(b) case None => None case Some(p) => Some(p.config)
  {
    r := ParseHvccOf(b, 2);
  }

  method ParseHvccOf(b: seq<byte>, k: nat) returns (r: Option<Config>)
    ensures r == match HvccOf(b, k) case None => None case Some(p) => Some(p.config)
  {
    if |b| < 23 || b[0] != 1 {
      return None;
    }
    var best, n;
    ghost var nals;
    best, n, nals := ScanArrays(b, 23, b[22], k);
    FoldIsChosen(nals);
    if n.None? || best.vps.None? || best.sps.None? || best.pps.None? {
      return None;
    }
    return Some(Config([best.vps.value, best.sps.value, best.pps.value], b[21] % 4 + 1));
  }

  lemma ArrayThenArrays(b: seq<byte>, at: nat, n: nat, k: nat)
    requires n > 0
    ensures Arrays(b, at, n, k)
         == var a := ArrayAt(b, at, k);
            if a.None? then None else Ahead(a.value.nals, Arrays(b, a.value.next, n - 1, k))
  {
  }

  lemma NextArray(b: seq<byte>, at: nat, n: nat, k: nat, seen: seq<Nal>)
    requires n > 0
    ensures var a := ArrayAt(b, at, k);
            Ahead(seen, Arrays(b, at, n, k))
            == if a.None? then None else Ahead(seen + a.value.nals, Arrays(b, a.value.next, n - 1, k))
  {
    ArrayThenArrays(b, at, n, k);
    var a := ArrayAt(b, at, k);
    if a.Some? {
      AheadTwice(seen, a.value.nals, Arrays(b, a.value.next, n - 1, k));
    }
  }

  /** The array at `at`: its type and count, then its units. */
  method ScanNext(b: seq<byte>, at: nat, k: nat, start: Best, ghost seen: seq<Nal>)
    returns (best: Best, next: Option<nat>, ghost more: seq<Nal>)
    requires start == Fold(seen)
    ensures ArrayAt(b, at, k) == if next.None? then None else Some(Flat(more, next.value))
    ensures next.Some? ==> best == Fold(seen + more)
  {
    if at + 1 + k > |b| {
      return start, None, [];
    }
    var count := ReadPrefix(b, at + 1, k);
    assert ArrayAt(b, at, k) == Nals(b, at + 1 + k, count, b[at] % 64, k);
    best, next, more := ScanArray(b, at + 1 + k, count, b[at] % 64, k, start, seen);
  }

  /** The outer loop over the arrays. */
  method ScanArrays(b: seq<byte>, at: nat, n: nat, k: nat) returns (best: Best, next: Option<nat>, ghost nals: seq<Nal>)
    ensures Arrays(b, at, n, k) == if next.None? then None else Some(Flat(nals, next.value))
    ensures next.Some? ==> best == Fold(nals)
  {
    best := Best(None, None, None);
    nals := [];
    var offset: nat, left: nat := at, n;
    ghost var whole := Arrays(b, at, n, k);
    AheadTwice([], [], whole);
    while left > 0
      invariant whole == Ahead(nals, Arrays(b, offset, left, k))
      invariant best == Fold(nals)
    {
      NextArray(b, offset, left, k, nals);
      var end;
      ghost var more;
      best, end, more := ScanNext(b, offset, k, best, nals);
      if end.None? {
        return best, None, nals;
      }
      nals := nals + more;
      offset, left := end.value, left - 1;
    }
    assert nals + [] == nals;
    return best, Some(offset), nals;
  }

  // ---------- truncation and trailing bytes ----------

  lemma {:induction false} NalsOfPrefix(b: seq<byte>, at: nat, n: nat, kind: nat, k: nat, cut: nat)
    requires at <= cut <= |b|
    ensures var r := Nals(b, at, n, kind, k);
            Nals(b[..cut], at, n, kind, k) == if r.Some? && r.value.next <= cut then r else None
    decreases n
  {
    if n > 0 {
      UnitOfPrefix(b, at, k, cut);
      var u := UnitAt(b, at, k);
      if u.Some? && at + k + |u.value| <= cut {
        NalsOfPrefix(b, at + k + |u.value|, n - 1, kind, k, cut);
      }
    }
  }

  lemma ArrayOfPrefix(b: seq<byte>, at: nat, k: nat, cut: nat)
    requires at <= cut <= |b|
    ensures var r := ArrayAt(b, at, k);
            ArrayAt(b[..cut], at, k) == if r.Some? && r.value.next <= cut then r else None
  {
    if at + 1 + k <= cut {
      assert b[..cut][at + 1..at + 1 + k] == b[at + 1..at + 1 + k];
      ReadSameBytes(b[..cut], at + 1, b, at + 1, k);
      NalsOfPrefix(b, at + 1 + k, ReadBE(b, at + 1, k), b[at] % 64, k, cut);
    }
  }

  lemma {:induction false} ArraysOfPrefix(b: seq<byte>, at: nat, n: nat, k: nat, cut: nat)
    requires at <= cut <= |b|
    ensures var r := Arrays(b, at, n, k);
            Arrays(b[..cut], at, n, k) == if r.Some? && r.value.next <= cut then r else None
    decreases n
  {
    if n > 0 {
      ArrayOfPrefix(b, at, k, cut);
      var a := ArrayAt(b, at, k);
      if a.Some? && a.value.next <= cut {
        ArraysOfPrefix(b, a.value.next, n - 1, k, cut);
      }
    }
  }

  /** As for avcC: a prefix parses to the same result or to none, and the last byte of the
      record decides which. */
  lemma HvccOfPrefix(b: seq<byte>, k: nat)
    requires k <= |b|
    ensures var r := Hvcc(b);
            Hvcc(b[..k]) == if r.Some? && r.value.end <= k then r else None
  {
    if 23 <= k {
      ArraysOfPrefix(b, 23, b[22], 2, k);
    }
  }

  lemma HvccIgnoresTail(b: seq<byte>, tail: seq<byte>)
    requires Hvcc(b).Some?
    ensures Hvcc(b + tail) == Hvcc(b)
  {
    HvccOfPrefix(b + tail, |b|);
    assert (b + tail)[..|b|] == b;
  }

  // ---------- round trip ----------

  /** An array's tag byte has two flag bits and the type of its units. */
  datatype NalArray = NalArray(tag: byte, units: seq<seq<byte>>)

  datatype HevcRecord = HevcRecord(head: seq<byte>, reserved: nat, lengthSize: nat, arrays: seq<NalArray>)

  predicate ArrayOk(a: NalArray, k: nat) {
    |a.units| < Pow256(k) && Fitting(a.units, k)
  }

  predicate ArraysOk(arrays: seq<NalArray>, k: nat) {
    |arrays| == 0 || (ArrayOk(arrays[0], k) && ArraysOk(arrays[1..], k))
  }

  predicate HevcOk(r: HevcRecord, k: nat) {
    |r.head| == 20 && r.reserved < 64 && 1 <= r.lengthSize <= 4 && |r.arrays| < 256 && ArraysOk(r.arrays, k)
  }

  function WriteArray(a: NalArray, k: nat): (b: seq<byte>) {
    [a.tag] + WriteBE(|a.units|, k) + Join(a.units, k)
  }

  function WriteArrays(arrays: seq<NalArray>, k: nat): (b: seq<byte>) {
    if |arrays| == 0 then [] else WriteArray(arrays[0], k) + WriteArrays(arrays[1..], k)
  }

  function HevcHead(r: HevcRecord): (b: seq<byte>)
    requires 1 <= r.lengthSize
    ensures |r.head| == 20 ==> |b| == 23
  {
    [1] + r.head + [(r.reserved * 4 + (r.lengthSize - 1)) % 256] + [|r.arrays| % 256]
  }

  function WriteHvccOf(r: HevcRecord, k: nat): (b: seq<byte>)
    requires 1 <= r.lengthSize
  {
    HevcHead(r) + WriteArrays(r.arrays, k)
  }

  function WriteHvcc(r: HevcRecord): (b: seq<byte>)
    requires 1 <= r.lengthSize
  {
    WriteHvccOf(r, 2)
  }

  function Tagged(units: seq<seq<byte>>, kind: nat): (r: seq<Nal>) {
    if |units| == 0 then [] else [Nal(kind, units[0])] + Tagged(units[1..], kind)
  }

  /** All units of a record, in array order. */
  function AllNals(arrays: seq<NalArray>): (r: seq<Nal>) {
    if |arrays| == 0 then [] else Tagged(arrays[0].units, arrays[0].tag % 64) + AllNals(arrays[1..])
  }

  lemma {:induction false} ArrayRoundTrip(b: seq<byte>, at: nat, a: NalArray, k: nat)
    requires ArrayOk(a, k) && Holds(b, at, WriteArray(a, k))
    ensures ArrayAt(b, at, k) == Some(Flat(Tagged(a.units, a.tag % 64), at + |WriteArray(a, k)|))
  {
    ArrayParts(b, at, a, k);
    ArrayCount(b, at, a, k);
    ArrayIs(b, at, a, k, Join(a.units, k));
  }

  lemma ArrayCount(b: seq<byte>, at: nat, a: NalArray, k: nat)
    requires at + 1 + k <= |b| && |a.units| < Pow256(k) && Holds(b, at + 1, WriteBE(|a.units|, k))
    ensures ReadBE(b, at + 1, k) == |a.units|
  {
    HoldsSlice(b, at + 1, WriteBE(|a.units|, k));
    ReadWrittenAt(b, at + 1, |a.units|, k);
  }

  lemma {:induction false} ArrayIs(b: seq<byte>, at: nat, a: NalArray, k: nat, body: seq<byte>)
    requires at + 1 + k <= |b| && b[at] % 64 == a.tag % 64 && ReadBE(b, at + 1, k) == |a.units|
    requires Fitting(a.units, k) && body == Join(a.units, k) && Holds(b, at + 1 + k, body)
    ensures ArrayAt(b, at, k) == Some(Flat(Tagged(a.units, a.tag % 64), at + 1 + k + |body|))
  {
    JoinIsLaid(b, at + 1 + k, a.units, k);
    TaggedAt(b, at, a.units, at + 1 + k + |body|, a.tag % 64, k);
  }

  lemma {:induction false} TaggedAt(b: seq<byte>, at: nat, units: seq<seq<byte>>, next: nat, kind: nat, k: nat)
    requires at + 1 + k <= |b| && b[at] % 64 == kind && ReadBE(b, at + 1, k) == |units|
    requires Laid(b, at + 1 + k, units, next, k)
    ensures ArrayAt(b, at, k) == Some(Flat(Tagged(units, kind), next))
  {
    LaidIsTagged(b, at + 1 + k, units, next, kind, k);
  }

  lemma {:induction false} LaidIsTagged(b: seq<byte>, at: nat, units: seq<seq<byte>>, next: nat, kind: nat, k: nat)
    requires Laid(b, at, units, next, k)
    ensures Nals(b, at, |units|, kind, k) == Some(Flat(Tagged(units, kind), next))
    decreases |units|
  {
    if |units| > 0 {
      LaidIsTagged(b, at + k + |units[0]|, units[1..], next, kind, k);
    }
  }

  lemma {:induction false} ArrayParts(b: seq<byte>, at: nat, a: NalArray, k: nat)
    requires ArrayOk(a, k) && Holds(b, at, WriteArray(a, k))
    ensures at + 1 + k <= |b| && b[at] % 64 == a.tag % 64 && |WriteArray(a, k)| == 1 + k + |Join(a.units, k)|
    ensures Holds(b, at + 1, WriteBE(|a.units|, k)) && Holds(b, at + 1 + k, Join(a.units, k))
  {
    var tag: seq<byte> := [a.tag];
    var count := WriteBE(|a.units|, k);
    HoldsParts(b, at, tag + count, Join(a.units, k));
    HoldsParts(b, at, tag, count);
    HoldsSlice(b, at + 1, count);
  }

  /** The arrays lie end to end from `at` to `next`, each read back as it was. */
  ghost predicate ArraysLaid(b: seq<byte>, at: nat, arrays: seq<NalArray>, next: nat, k: nat)
    decreases |arrays|
  {
    if |arrays| == 0 then at == next
    else
      && ArrayAt(b, at, k).Some? && ArrayAt(b, at, k).value.nals == Tagged(arrays[0].units, arrays[0].tag % 64)
      && ArraysLaid(b, ArrayAt(b, at, k).value.next, arrays[1..], next, k)
  }

  lemma {:induction false} WrittenIsLaid(b: seq<byte>, at: nat, arrays: seq<NalArray>, k: nat) returns (next: nat)
    requires ArraysOk(arrays, k) && Holds(b, at, WriteArrays(arrays, k))
    ensures next == at + |WriteArrays(arrays, k)| && ArraysLaid(b, at, arrays, next, k)
    decreases |arrays|
  {
    if |arrays| == 0 {
      next := at;
    } else {
      var at' := FirstArray(b, at, arrays, k);
      next := WrittenIsLaid(b, at', arrays[1..], k);
    }
  }

  lemma {:induction false} LaidIsRead(b: seq<byte>, at: nat, arrays: seq<NalArray>, next: nat, k: nat)
    requires ArraysLaid(b, at, arrays, next, k)
    ensures Arrays(b, at, |arrays|, k) == Some(Flat(AllNals(arrays), next))
    decreases |arrays|
  {
    if |arrays| > 0 {
      LaidIsRead(b, ArrayAt(b, at, k).value.next, arrays[1..], next, k);
    }
  }

  lemma {:induction false} ArraysRoundTrip(b: seq<byte>, at: nat, arrays: seq<NalArray>, k: nat)
    requires ArraysOk(arrays, k) && Holds(b, at, WriteArrays(arrays, k))
    ensures Arrays(b, at, |arrays|, k) == Some(Flat(AllNals(arrays), at + |WriteArrays(arrays, k)|))
  {
    var next := WrittenIsLaid(b, at, arrays, k);
    LaidIsRead(b, at, arrays, next, k);
  }

  lemma {:induction false} FirstArray(b: seq<byte>, at: nat, arrays: seq<NalArray>, k: nat) returns (at': nat)
    requires |arrays| > 0 && ArraysOk(arrays, k) && Holds(b, at, WriteArrays(arrays, k))
    ensures ArrayAt(b, at, k) == Some(Flat(Tagged(arrays[0].units, arrays[0].tag % 64), at'))
    ensures Holds(b, at', WriteArrays(arrays[1..], k))
    ensures at' + |WriteArrays(arrays[1..], k)| == at + |WriteArrays(arrays, k)|
  {
    at' := at + |WriteArray(arrays[0], k)|;
    HoldsParts(b, at, WriteArray(arrays[0], k), WriteArrays(arrays[1..], k));
    ArrayRoundTrip(b, at, arrays[0], k);
  }

  /** Parsing a written record gives the first VPS, SPS and PPS in flattened array order, and
      no result at all when one of the three is missing. */
  lemma HvccRoundTrip(r: HevcRecord)
    requires HevcOk(r, 2)
    ensures Hvcc(WriteHvcc(r)) == Picked(AllNals(r.arrays), r.lengthSize, |WriteHvcc(r)|)
  {
    RoundTripOf(r, 2);
  }

  lemma RoundTripOf(r: HevcRecord, k: nat)
    requires HevcOk(r, k)
    ensures HvccOf(WriteHvccOf(r, k), k) == Picked(AllNals(r.arrays), r.lengthSize, |WriteHvccOf(r, k)|)
  {
    HevcHeadReads(r, k);
    HeadThenArrays(WriteHvccOf(r, k), r, k);
  }

  ghost predicate HeadIs(b: seq<byte>, r: HevcRecord, k: nat) {
    && |b| == 23 + |WriteArrays(r.arrays, k)| && b[0] == 1 && b[21] % 4 + 1 == r.lengthSize && b[22] == |r.arrays|
    && Holds(b, 23, WriteArrays(r.arrays, k))
  }

  lemma {:induction false} HeadThenArrays(b: seq<byte>, r: HevcRecord, k: nat)
    requires ArraysOk(r.arrays, k) && HeadIs(b, r, k)
    ensures HvccOf(b, k) == Picked(AllNals(r.arrays), r.lengthSize, |b|)
  {
    ArraysRoundTrip(b, 23, r.arrays, k);
    PickedFrom(b, AllNals(r.arrays), |b|, k);
  }

  lemma PickedFrom(b: seq<byte>, nals: seq<Nal>, next: nat, k: nat)
    requires |b| >= 23 && b[0] == 1 && Arrays(b, 23, b[22], k) == Some(Flat(nals, next))
    ensures HvccOf(b, k) == Picked(nals, b[21] % 4 + 1, next)
  {
    ReadAsPicked(b, k);
  }

  /** The result for a list of units: the first of each wanted type, if all three are there. */
  function Picked(nals: seq<Nal>, lengthSize: nat, end: nat): (r: Option<Parsed>) {
    var v, s, p := First(nals, VPS), First(nals, SPS), First(nals, PPS);
    if v.None? || s.None? || p.None? then None else Some(Parsed(Config([v.value, s.value, p.value], lengthSize), end))
  }

  lemma ReadAsPicked(b: seq<byte>, k: nat)
    requires |b| >= 23 && b[0] == 1 && Arrays(b, 23, b[22], k).Some?
    ensures var r := Arrays(b, 23, b[22], k).value;
            HvccOf(b, k) == Picked(r.nals, b[21] % 4 + 1, r.next)
  {
  }

  lemma HevcHeadReads(r: HevcRecord, k: nat)
    requires HevcOk(r, k)
    ensures HeadIs(WriteHvccOf(r, k), r, k)
  {
    HeadBytes(r);
    AfterHead(HevcHead(r), WriteArrays(r.arrays, k));
  }

  lemma HeadBytes(r: HevcRecord)
    requires |r.head| == 20 && r.reserved < 64 && 1 <= r.lengthSize <= 4 && |r.arrays| < 256
    ensures var h := HevcHead(r);
            h[0] == 1 && h[21] % 4 + 1 == r.lengthSize && h[22] == |r.arrays|
  {
    var h := HevcHead(r);
    assert h[21] == r.reserved * 4 + (r.lengthSize - 1);
  }

  lemma AfterHead(h: seq<byte>, rest: seq<byte>)
    requires |h| == 23
    ensures var b := h + rest;
            b[0] == h[0] && b[21] == h[21] && b[22] == h[22] && Holds(b, 23, rest)
  {
    HoldsSlice(h + rest, 23, rest);
  }

  lemma HvccExact(r: HevcRecord, k: nat, tail: seq<byte>)
    requires HevcOk(r, 2) && k < |WriteHvcc(r)|
    ensures Hvcc(WriteHvcc(r)[..k]) == None
    ensures Hvcc(WriteHvcc(r)).Some? ==> Hvcc(WriteHvcc(r) + tail) == Hvcc(WriteHvcc(r))
  {
    HvccRoundTrip(r);
    HvccOfPrefix(WriteHvcc(r), k);
    if Hvcc(WriteHvcc(r)).Some? {
      HvccIgnoresTail(WriteHvcc(r), tail);
    }
  }
}
