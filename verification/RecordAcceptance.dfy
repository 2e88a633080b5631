/** The other half of the configuration record parsers: whatever they accept begins with a
    well-formed record, and they return its sets. */
module RecordAcceptance {
  import opened Bits
  import opened Collections
  import opened Wire
  import opened BigEndian
  import opened ConfigRecords
  import opened HevcRecords

  // ---------- units ----------

  lemma {:induction false} ReadFits(b: seq<byte>, at: nat, k: nat)
    requires at + k <= |b|
    ensures ReadBE(b, at, k) < Pow256(k)
    decreases k
  {
    if k > 0 {
      ReadFits(b, at, k - 1);
    }
  }

  lemma UnitFits(b: seq<byte>, at: nat, k: nat)
    requires UnitAt(b, at, k).Some?
    ensures |UnitAt(b, at, k).value| < Pow256(k)
  {
    ReadFits(b, at, k);
  }

  lemma Abut(b: seq<byte>, i: nat, j: nat, k: nat)
    requires i <= j <= k <= |b|
    ensures b[i..j] + b[j..k] == b[i..k]
  {
  }

  /** A run of units that can be read is written there. */
  lemma {:induction false} UnitsWritten(b: seq<byte>, at: nat, n: nat, k: nat)
    requires at <= |b| && ConfigRecords.Units(b, at, n, k).Some?
    ensures var r := ConfigRecords.Units(b, at, n, k).value;
            at <= r.next <= |b| && b[at..r.next] == Join(r.units, k) && Fitting(r.units, k)
    decreases n
  {
    if n > 0 {
      var u := UnitAt(b, at, k).value;
      var next := at + k + |u|;
      UnitsStep(b, at, n, k, Some(u));
      UnitsWritten(b, next, n - 1, k);
      UnitIsWritten(b, at, k);
      UnitFits(b, at, k);
      var rest := ConfigRecords.Units(b, next, n - 1, k).value;
      Abut(b, at, next, rest.next);
      FrontOfJoin(u, rest.units, k);
    }
  }

  lemma FrontOfJoin(u: seq<byte>, rest: seq<seq<byte>>, k: nat)
    ensures Join([u] + rest, k) == Unit(u, k) + Join(rest, k)
    ensures Fitting([u] + rest, k) <==> |u| < Pow256(k) && Fitting(rest, k)
  {
    assert ([u] + rest)[1..] == rest;
  }

  // ---------- avcC ----------

  lemma HeadIsWritten(b: seq<byte>, r: AvcRecord)
    requires |b| >= 6 && AvcOk(r) && b[0] == 1 && r.profile == b[1..4]
    requires b[4] == r.reserved * 4 + (r.lengthSize - 1) && b[5] == r.reserved' * 32 + |r.sps|
    ensures b[..6] == AvcHead(r)
  {
    assert b[..6] == [b[0]] + b[1..4] + [b[4]] + [b[5]];
  }

  lemma AvccFound(b: seq<byte>) returns (sps: Block, pps: Block)
    requires Avcc(b).Some?
    ensures |b| >= 7 && b[0] == 1 && b[5] % 32 > 0 && ConfigRecords.Units(b, 6, b[5] % 32, 2) == Some(sps)
    ensures sps.next < |b| && b[sps.next] > 0
    ensures ConfigRecords.Units(b, sps.next + 1, b[sps.next], 2) == Some(pps)
    ensures |sps.units| == b[5] % 32 && |pps.units| == b[sps.next]
    ensures Avcc(b) == Some(Parsed(Config([sps.units[0], pps.units[0]], b[4] % 4 + 1), pps.next))
  {
    sps := AvccSps(b).value;
    pps := AvccPps(b, sps.next).value;
  }

  lemma AvcRebuilt(b: seq<byte>, sps: Block, pps: Block) returns (r: AvcRecord)
    requires |b| >= 7 && b[0] == 1 && 6 <= sps.next < |b| && sps.next + 1 <= pps.next <= |b|
    requires 0 < |sps.units| == b[5] % 32 && 0 < |pps.units| == b[sps.next]
    requires Fitting(sps.units, 2) && Fitting(pps.units, 2)
    requires b[6..sps.next] == Join(sps.units, 2) && b[sps.next + 1..pps.next] == Join(pps.units, 2)
    ensures AvcOk(r) && r.sps == sps.units && r.pps == pps.units && r.lengthSize == b[4] % 4 + 1
    ensures b[..pps.next] == WriteAvcc(r)
  {
    r := AvcRecord(b[1..4], b[4] / 4, b[4] % 4 + 1, b[5] / 32, sps.units, pps.units);
    HeadIsWritten(b, r);
    Glued(b, sps.next, pps.next, AvcHead(r), Join(sps.units, 2), Join(pps.units, 2));
  }

  /** Whatever the avcC parser accepts begins with a record: the bytes it consumed are that record
      written out, and its result is the record's first sets and length size. */
  lemma AvccIsWritten(b: seq<byte>) returns (r: AvcRecord)
    requires Avcc(b).Some?
    ensures AvcOk(r) && Avcc(b).value.end <= |b| && b[..Avcc(b).value.end] == WriteAvcc(r)
    ensures Avcc(b).value.config == Config([r.sps[0], r.pps[0]], r.lengthSize)
  {
    var sps, pps := AvccFound(b);
    UnitsWritten(b, 6, b[5] % 32, 2);
    UnitsWritten(b, sps.next + 1, b[sps.next], 2);
    r := AvcRebuilt(b, sps, pps);
  }

  lemma Glued(b: seq<byte>, mid: nat, end: nat, head: seq<byte>, first: seq<byte>, second: seq<byte>)
    requires 6 <= mid < end <= |b| || (6 <= mid < |b| && end == mid + 1)
    requires b[..6] == head && b[6..mid] == first && b[mid + 1..end] == second
    ensures b[..end] == head + first + [b[mid]] + second
  {
    assert b[..end] == b[..6] + b[6..mid] + [b[mid]] + b[mid + 1..end];
  }

  /** `b` begins with this record. */
  ghost predicate BeginsAvc(b: seq<byte>, r: AvcRecord) {
    AvcOk(r) && WriteAvcc(r) <= b
  }

  lemma AvcBegunIsAccepted(b: seq<byte>, r: AvcRecord)
    requires BeginsAvc(b, r)
    ensures Avcc(b).Some?
  {
    AvccRoundTrip(r);
    AvcTailDropped(b, WriteAvcc(r));
  }

  lemma AvcTailDropped(b: seq<byte>, head: seq<byte>)
    requires head <= b && Avcc(head).Some?
    ensures Avcc(b).Some?
  {
    AvccIgnoresTail(head, b[|head|..]);
    assert head + b[|head|..] == b;
  }

  lemma AvcAcceptedBegins(b: seq<byte>) returns (r: AvcRecord)
    requires Avcc(b).Some?
    ensures BeginsAvc(b, r)
  {
    r := AvccIsWritten(b);
  }

  /** So it accepts exactly the strings that begin with a record. */
  lemma AvccAcceptsIff(b: seq<byte>)
    ensures Avcc(b).Some? <==> exists r: AvcRecord :: BeginsAvc(b, r)
  {
    if Avcc(b).Some? {
      var r := AvcAcceptedBegins(b);
    }
    if exists r: AvcRecord :: BeginsAvc(b, r) {
      var r: AvcRecord :| BeginsAvc(b, r);
      AvcBegunIsAccepted(b, r);
    }
  }

  // ---------- hvcC ----------

  lemma {:induction false} NalsWritten(b: seq<byte>, at: nat, n: nat, kind: nat, k: nat) returns (units: seq<seq<byte>>)
    requires at <= |b| && Nals(b, at, n, kind, k).Some?
    ensures var r := Nals(b, at, n, kind, k).value;
            at <= r.next <= |b| && b[at..r.next] == Join(units, k) && r.nals == Tagged(units, kind)
    ensures |units| == n && Fitting(units, k)
    decreases n
  {
    if n == 0 {
      units := [];
    } else {
      var u := UnitAt(b, at, k).value;
      var next := at + k + |u|;
      var rest := NalsWritten(b, next, n - 1, kind, k);
      units := [u] + rest;
      UnitIsWritten(b, at, k);
      UnitFits(b, at, k);
      Abut(b, at, next, Nals(b, next, n - 1, kind, k).value.next);
      FrontOfJoin(u, rest, k);
      assert units[1..] == rest;
    }
  }

  lemma ArrayIsWritten(b: seq<byte>, at: nat, k: nat) returns (a: NalArray)
    requires ArrayAt(b, at, k).Some?
    ensures var r := ArrayAt(b, at, k).value;
            at < r.next <= |b| && b[at..r.next] == WriteArray(a, k) && r.nals == Tagged(a.units, a.tag % 64)
    ensures ArrayOk(a, k)
  {
    var count := ReadBE(b, at + 1, k);
    var units := NalsWritten(b, at + 1 + k, count, b[at] % 64, k);
    a := NalArray(b[at], units);
    ReadFits(b, at + 1, k);
    WriteRead(b, at + 1, k);
    GluedArray(b, at, k, ArrayAt(b, at, k).value.next);
  }

  lemma GluedArray(b: seq<byte>, at: nat, k: nat, next: nat)
    requires at + 1 + k <= next <= |b|
    ensures b[at..next] == [b[at]] + b[at + 1..at + 1 + k] + b[at + 1 + k..next]
  {
  }

  lemma {:induction false} ArraysWritten(b: seq<byte>, at: nat, n: nat, k: nat) returns (arrays: seq<NalArray>)
    requires at <= |b| && Arrays(b, at, n, k).Some?
    ensures var r := Arrays(b, at, n, k).value;
            at <= r.next <= |b| && b[at..r.next] == WriteArrays(arrays, k) && r.nals == AllNals(arrays)
    ensures |arrays| == n && ArraysOk(arrays, k)
    decreases n
  {
    if n == 0 {
      arrays := [];
    } else {
      var a := ArrayIsWritten(b, at, k);
      var next := ArrayAt(b, at, k).value.next;
      var rest := ArraysWritten(b, next, n - 1, k);
      arrays := [a] + rest;
      ArrayThenArrays(b, at, n, k);
      Abut(b, at, next, Arrays(b, next, n - 1, k).value.next);
      assert arrays[1..] == rest;
    }
  }

  lemma HevcHeadIsWritten(b: seq<byte>, r: HevcRecord)
    requires |b| >= 23 && b[0] == 1 && r.head == b[1..21] && 1 <= r.lengthSize <= 4 && r.reserved < 64
    requires b[21] == r.reserved * 4 + (r.lengthSize - 1) && b[22] == |r.arrays|
    ensures b[..23] == HevcHead(r)
  {
    assert b[..23] == [b[0]] + b[1..21] + [b[21]] + [b[22]];
  }

  /** Whatever the hvcC parser accepts begins with a record, which has a VPS, an SPS and a PPS, and
      the result is the first of each. */
  lemma HvccIsWritten(b: seq<byte>) returns (r: HevcRecord)
    requires Hvcc(b).Some?
    ensures HevcOk(r, 2) && Hvcc(b).value.end <= |b| && b[..Hvcc(b).value.end] == WriteHvcc(r)
    ensures Hvcc(b) == Picked(AllNals(r.arrays), r.lengthSize, Hvcc(b).value.end)
  {
    r := HvccOfIsWritten(b, 2);
  }

  lemma HvccFound(b: seq<byte>, k: nat) returns (found: Flat)
    requires HvccOf(b, k).Some?
    ensures |b| >= 23 && b[0] == 1 && Arrays(b, 23, b[22], k) == Some(found)
    ensures HvccOf(b, k).value.end == found.next && HvccOf(b, k) == Picked(found.nals, b[21] % 4 + 1, found.next)
  {
    found := Arrays(b, 23, b[22], k).value;
    ReadAsPicked(b, k);
  }

  lemma HevcRebuilt(b: seq<byte>, arrays: seq<NalArray>, next: nat, k: nat) returns (r: HevcRecord)
    requires |b| >= 23 && b[0] == 1 && |arrays| == b[22] && ArraysOk(arrays, k)
    requires 23 <= next <= |b| && b[23..next] == WriteArrays(arrays, k)
    ensures HevcOk(r, k) && r.arrays == arrays && r.lengthSize == b[21] % 4 + 1 && b[..next] == WriteHvccOf(r, k)
  {
    r := HevcRecord(b[1..21], b[21] / 4, b[21] % 4 + 1, arrays);
    HevcHeadIsWritten(b, r);
    assert b[..next] == b[..23] + b[23..next];
  }

  lemma HvccOfIsWritten(b: seq<byte>, k: nat) returns (r: HevcRecord)
    requires HvccOf(b, k).Some?
    ensures HevcOk(r, k) && HvccOf(b, k).value.end <= |b| && b[..HvccOf(b, k).value.end] == WriteHvccOf(r, k)
    ensures HvccOf(b, k) == Picked(AllNals(r.arrays), r.lengthSize, HvccOf(b, k).value.end)
  {
    var found := HvccFound(b, k);
    var arrays := ArraysWritten(b, 23, b[22], k);
    r := HevcRebuilt(b, arrays, found.next, k);
  }

  /** `b` begins with this record, which has all three sets. */
  ghost predicate Begins(b: seq<byte>, r: HevcRecord) {
    && HevcOk(r, 2) && WriteHvcc(r) <= b
    && First(AllNals(r.arrays), VPS).Some? && First(AllNals(r.arrays), SPS).Some? && First(AllNals(r.arrays), PPS).Some?
  }

  lemma BegunIsAccepted(b: seq<byte>, r: HevcRecord)
    requires Begins(b, r)
    ensures Hvcc(b).Some?
  {
    HvccRoundTrip(r);
    TailDropped(b, WriteHvcc(r));
  }

  lemma TailDropped(b: seq<byte>, head: seq<byte>)
    requires head <= b && Hvcc(head).Some?
    ensures Hvcc(b).Some?
  {
    HvccIgnoresTail(head, b[|head|..]);
    assert head + b[|head|..] == b;
  }

  lemma AcceptedBegins(b: seq<byte>) returns (r: HevcRecord)
    requires Hvcc(b).Some?
    ensures Begins(b, r)
  {
    r := HvccIsWritten(b);
  }

  /** It accepts exactly the strings that begin with a record that has all three. */
  lemma HvccAcceptsIff(b: seq<byte>)
    ensures Hvcc(b).Some? <==> exists r: HevcRecord :: Begins(b, r)
  {
    if Hvcc(b).Some? {
      var r := AcceptedBegins(b);
    }
    if exists r: HevcRecord :: Begins(b, r) {
      var r: HevcRecord :| Begins(b, r);
      BegunIsAccepted(b, r);
    }
  }
}
