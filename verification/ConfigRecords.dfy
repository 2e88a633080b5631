/** Decoder configuration records: the parameter sets inside avcC (ISO/IEC 14496-15 section
    5.2.4.1) and hvcC (section 8.3.3.1), as the guest reads them. */
module ConfigRecords {
  import opened Bits
  import opened Collections
  import opened Wire
  import opened BigEndian

  /** The chosen parameter sets, and how many bytes a NAL length takes. */
  datatype Config = Config(sets: seq<seq<byte>>, lengthSize: nat)

  // ---------- runs of length-prefixed sets ----------

  datatype Block = Block(units: seq<seq<byte>>, next: nat)

  /** `n` sets from `at` on, each after a length of `k` bytes. */
  function Units(b: seq<byte>, at: nat, n: nat, k: nat): (r: Option<Block>)
    ensures r.Some? ==> |r.value.units| == n && at <= r.value.next
    decreases n
  {
    if n == 0 then Some(Block([], at))
    else
      var u := UnitAt(b, at, k);
      if u.None? then None else Before([u.value], Units(b, at + k + |u.value|, n - 1, k))
  }

  function Before(units: seq<seq<byte>>, r: Option<Block>): (s: Option<Block>) {
    if r.None? then None else Some(Block(units + r.value.units, r.value.next))
  }

  lemma BeforeNone(r: Option<Block>)
    ensures Before([], r) == r
  {
    if r.Some? {
      assert [] + r.value.units == r.value.units;
    }
  }

  lemma BeforeTwice(a: seq<seq<byte>>, u: seq<byte>, r: Option<Block>)
    ensures Before(a, Before([u], r)) == Before(a + [u], r)
  {
    if r.Some? {
      assert a + ([u] + r.value.units) == (a + [u]) + r.value.units;
    }
  }

  /** The loop over one run of sets; only the first is kept. */
  method ScanUnits(b: seq<byte>, at: nat, n: nat, k: nat) returns (first: Option<seq<byte>>, next: Option<nat>)
    ensures next.Some? <==> Units(b, at, n, k).Some?
    ensures next.Some? ==> next.value == Units(b, at, n, k).value.next
    ensures next.Some? ==> first == if n == 0 then None else Some(Units(b, at, n, k).value.units[0])
  {
    var offset: nat, left: nat := at, n;
    first := None;
    ghost var seen: seq<seq<byte>> := [];
    ghost var whole := Units(b, at, n, k);
    BeforeNone(whole);
    while left > 0
      invariant left + |seen| == n && first == if seen == [] then None else Some(seen[0])
      invariant whole == Before(seen, Units(b, offset, left, k))
    {
      var u := ReadUnit(b, offset, k);
      UnitsStep(b, offset, left, k, u);
      if u.None? {
        return first, None;
      }
      BeforeTwice(seen, u.value, Units(b, offset + k + |u.value|, left - 1, k));
      if first.None? {
        first := u;
      }
      seen := seen + [u.value];
      offset, left := offset + k + |u.value|, left - 1;
    }
    assert seen + [] == seen;
    return first, Some(offset);
  }

  /** A run is read from a truncated input exactly as from the whole one, or not at all. */
  lemma {:induction false} UnitsOfPrefix(b: seq<byte>, at: nat, n: nat, k: nat, cut: nat)
    requires at <= cut <= |b|
    ensures var r := Units(b, at, n, k);
            Units(b[..cut], at, n, k) == if r.Some? && r.value.next <= cut then r else None
    decreases n
  {
    if n > 0 {
      UnitOfPrefix(b, at, k, cut);
      if UnitAt(b[..cut], at, k).Some? {
        UnitsOfPrefix(b, at + k + |UnitAt(b, at, k).value|, n - 1, k, cut);
        PrefixGoesOn(b, b[..cut], at, n, k, cut, UnitAt(b, at, k).value);
      } else {
        PrefixStops(b, b[..cut], at, n, k, cut);
      }
    }
  }

  /** The result of reading from `c`, which is `b` cut off. */
  ghost predicate CutOff(r: Option<Block>, r': Option<Block>, cut: nat) {
    r' == if r.Some? && r.value.next <= cut then r else None
  }

  lemma PrefixGoesOn(b: seq<byte>, c: seq<byte>, at: nat, n: nat, k: nat, cut: nat, u: seq<byte>)
    requires n > 0 && UnitAt(b, at, k) == UnitAt(c, at, k) == Some(u)
    requires CutOff(Units(b, at + k + |u|, n - 1, k), Units(c, at + k + |u|, n - 1, k), cut)
    ensures CutOff(Units(b, at, n, k), Units(c, at, n, k), cut)
  {
    UnitsStep(b, at, n, k, Some(u));
    UnitsStep(c, at, n, k, Some(u));
    BeforeCutOff(u, Units(b, at + k + |u|, n - 1, k), Units(c, at + k + |u|, n - 1, k), cut);
  }

  lemma PrefixStops(b: seq<byte>, c: seq<byte>, at: nat, n: nat, k: nat, cut: nat)
    requires n > 0 && UnitAt(c, at, k).None?
    requires var u := UnitAt(b, at, k); u.Some? ==> at + k + |u.value| > cut
    ensures CutOff(Units(b, at, n, k), Units(c, at, n, k), cut)
  {
    UnitsStep(b, at, n, k, UnitAt(b, at, k));
    UnitsStep(c, at, n, k, None);
  }

  lemma BeforeCutOff(u: seq<byte>, rest: Option<Block>, rest': Option<Block>, cut: nat)
    requires CutOff(rest, rest', cut)
    ensures CutOff(Before([u], rest), Before([u], rest'), cut)
  {
  }

  lemma UnitsStep(b: seq<byte>, at: nat, n: nat, k: nat, u: Option<seq<byte>>)
    requires n > 0 && u == UnitAt(b, at, k)
    ensures Units(b, at, n, k) == if u.None? then None else Before([u.value], Units(b, at + k + |u.value|, n - 1, k))
    ensures Units(b, at, n, k).Some? ==> at + k + |u.value| <= Units(b, at, n, k).value.next
  {
  }

  /** Every unit's length fits its length field. */
  predicate Fitting(units: seq<seq<byte>>, k: nat) {
    |units| == 0 || (|units[0]| < Pow256(k) && Fitting(units[1..], k))
  }

  /** The units lie end to end from `at` to `next`. */
  predicate Laid(b: seq<byte>, at: nat, units: seq<seq<byte>>, next: nat, k: nat)
    decreases |units|
  {
    if |units| == 0 then at == next
    else UnitAt(b, at, k) == Some(units[0]) && Laid(b, at + k + |units[0]|, units[1..], next, k)
  }

  lemma {:induction false} JoinIsLaid(b: seq<byte>, at: nat, units: seq<seq<byte>>, k: nat)
    requires Fitting(units, k) && Holds(b, at, Join(units, k))
    ensures Laid(b, at, units, at + |Join(units, k)|, k)
    decreases |units|
  {
    if |units| > 0 {
      JoinHead(b, at, units, k);
      JoinIsLaid(b, at + k + |units[0]|, units[1..], k);
    }
  }

  lemma {:induction false} LaidIsRead(b: seq<byte>, at: nat, units: seq<seq<byte>>, next: nat, k: nat)
    requires Laid(b, at, units, next, k)
    ensures Units(b, at, |units|, k) == Some(Block(units, next))
    decreases |units|
  {
    if |units| > 0 {
      LaidIsRead(b, at + k + |units[0]|, units[1..], next, k);
      UnitThenUnits(b, at, units[0], |units| - 1, k);
      FirstThenRest(units, next);
    }
  }

  lemma JoinHead(b: seq<byte>, at: nat, units: seq<seq<byte>>, k: nat)
    requires |units| > 0 && |units[0]| < Pow256(k) && Holds(b, at, Join(units, k))
    ensures UnitAt(b, at, k) == Some(units[0])
    ensures Holds(b, at + k + |units[0]|, Join(units[1..], k))
    ensures |Join(units, k)| == k + |units[0]| + |Join(units[1..], k)|
  {
    HoldsParts(b, at, Unit(units[0], k), Join(units[1..], k));
    UnitRoundTrip(b, at, units[0], k);
  }

  lemma FirstThenRest(units: seq<seq<byte>>, next: nat)
    requires |units| > 0
    ensures Before([units[0]], Some(Block(units[1..], next))) == Some(Block(units, next))
  {
    assert units == [units[0]] + units[1..];
  }

  lemma UnitThenUnits(b: seq<byte>, at: nat, u: seq<byte>, n: nat, k: nat)
    requires UnitAt(b, at, k) == Some(u)
    ensures Units(b, at, n + 1, k) == Before([u], Units(b, at + k + |u|, n, k))
  {
  }

  // ---------- avcC ----------

  function AvccSps(b: seq<byte>): (r: Option<Block>) {
    if |b| < 7 || b[0] != 1 || b[5] % 32 == 0 then None else Units(b, 6, b[5] % 32, 2)
  }

  function AvccPps(b: seq<byte>, at: nat): (r: Option<Block>) {
    if at >= |b| || b[at] == 0 then None else Units(b, at + 1, b[at], 2)
  }

  datatype Parsed = Parsed(config: Config, end: nat)

  function Avcc(b: seq<byte>): (r: Option<Parsed>) {
    var sps := AvccSps(b);
    if sps.None? then None
    else
      var pps := AvccPps(b, sps.value.next);
      if pps.None? then None
      else Some(Parsed(Config([sps.value.units[0], pps.value.units[0]], b[4] % 4 + 1), pps.value.next))
  }

  method ParseAvcc(b: seq<byte>) returns (r: Option<Config>)
    ensures r == match Avcc(b) case None => None case Some(p) => Some(p.config)
  {
    if |b| < 7 || b[0] != 1 {
      return None;
    }
    var numSps := b[5] % 32;
    if numSps == 0 {
      return None;
    }
    var sps, offset := ScanUnits(b, 6, numSps, 2);
    if offset.None? || offset.value >= |b| {
      return None;
    }
    var numPps := b[offset.value];
    if numPps == 0 {
      return None;
    }
    var pps, end := ScanUnits(b, offset.value + 1, numPps, 2);
    if end.None? {
      return None;
    }
    return Some(Config([sps.value, pps.value], b[4] % 4 + 1));
  }

  /** Truncation either leaves the result as it is or makes the parser reject, at exactly the
      byte where the record ends; in particular a rejected input has no accepted prefix. */
  lemma AvccOfPrefix(b: seq<byte>, k: nat)
    requires k <= |b|
    ensures var r := Avcc(b);
            Avcc(b[..k]) == if r.Some? && r.value.end <= k then r else None
  {
    if k >= 7 {
      AvccSpsOfPrefix(b, k);
      var sps := AvccSps(b);
      if sps.Some? && sps.value.next < k {
        AvccPpsOfPrefix(b, k, sps.value.next);
      }
    } else {
      AvccIsLong(b);
    }
  }

  lemma AvccSpsOfPrefix(b: seq<byte>, k: nat)
    requires 7 <= k <= |b|
    ensures var r := AvccSps(b);
            AvccSps(b[..k]) == if r.Some? && r.value.next <= k then r else None
  {
    UnitsOfPrefix(b, 6, b[5] % 32, 2, k);
  }

  lemma AvccPpsOfPrefix(b: seq<byte>, k: nat, at: nat)
    requires at < k <= |b|
    ensures var r := AvccPps(b, at);
            AvccPps(b[..k], at) == if r.Some? && r.value.next <= k then r else None
  {
    UnitsOfPrefix(b, at + 1, b[at], 2, k);
  }

  lemma AvccIsLong(b: seq<byte>)
    ensures Avcc(b).Some? ==> 7 <= Avcc(b).value.end
  {
  }

  /** Bytes after an accepted record change nothing. */
  lemma AvccIgnoresTail(b: seq<byte>, tail: seq<byte>)
    requires Avcc(b).Some?
    ensures Avcc(b + tail) == Avcc(b)
  {
    AvccOfPrefix(b + tail, |b|);
    assert (b + tail)[..|b|] == b;
  }

  datatype AvcRecord = AvcRecord(profile: seq<byte>, reserved: nat, lengthSize: nat, reserved': nat,
                                 sps: seq<seq<byte>>, pps: seq<seq<byte>>)

  predicate AvcOk(r: AvcRecord) {
    && |r.profile| == 3 && r.reserved < 64 && 1 <= r.lengthSize <= 4 && r.reserved' < 8
    && 1 <= |r.sps| < 32 && 1 <= |r.pps| < 256 && Fitting(r.sps, 2) && Fitting(r.pps, 2)
  }

  function AvcHead(r: AvcRecord): (b: seq<byte>)
    requires AvcOk(r)
    ensures |b| == 6
  {
    [1] + r.profile + [r.reserved * 4 + (r.lengthSize - 1)] + [r.reserved' * 32 + |r.sps|]
  }

  function WriteAvcc(r: AvcRecord): (b: seq<byte>)
    requires AvcOk(r)
  {
    AvcHead(r) + Join(r.sps, 2) + [|r.pps|] + Join(r.pps, 2)
  }

  /** Parsing a written record gives back its first SPS and first PPS and consumes all of it. */
  lemma AvccRoundTrip(r: AvcRecord)
    requires AvcOk(r)
    ensures Avcc(WriteAvcc(r)) == Some(Parsed(Config([r.sps[0], r.pps[0]], r.lengthSize), |WriteAvcc(r)|))
  {
    WrittenAvcc(r);
    AvccOfWritten(WriteAvcc(r), r);
  }

  /** The bytes are those of the record, piece by piece. */
  ghost predicate AvcWritten(b: seq<byte>, r: AvcRecord) {
    var n := 6 + |Join(r.sps, 2)|;
    && |b| == n + 1 + |Join(r.pps, 2)| && b[0] == 1 && b[4] % 4 + 1 == r.lengthSize && b[5] % 32 == |r.sps|
    && Holds(b, 6, Join(r.sps, 2)) && b[n] == |r.pps| && Holds(b, n + 1, Join(r.pps, 2))
  }

  lemma WrittenAvcc(r: AvcRecord)
    requires AvcOk(r)
    ensures AvcWritten(WriteAvcc(r), r)
  {
    AvcHeadReads(r);
    AvccParts(r);
  }

  lemma {:induction false} AvccOfWritten(b: seq<byte>, r: AvcRecord)
    requires AvcOk(r) && AvcWritten(b, r)
    ensures Avcc(b) == Some(Parsed(Config([r.sps[0], r.pps[0]], r.lengthSize), |b|))
  {
    var n := 6 + |Join(r.sps, 2)|;
    BothLaid(b, 6, r.sps, n, r.pps, |b|, 2);
    AvccOfLaid(b, r.sps, r.pps, n);
  }

  /** Two runs of units in `b`, with one byte between them. */
  ghost predicate TwoRuns(b: seq<byte>, at: nat, first: seq<seq<byte>>, mid: nat, second: seq<seq<byte>>, end: nat,
      k: nat) {
    Laid(b, at, first, mid, k) && Laid(b, mid + 1, second, end, k)
  }

  lemma {:induction false} BothLaid(b: seq<byte>, at: nat, first: seq<seq<byte>>, mid: nat, second: seq<seq<byte>>,
      end: nat, k: nat)
    requires Fitting(first, k) && Fitting(second, k)
    requires mid == at + |Join(first, k)| && end == mid + 1 + |Join(second, k)|
    requires Holds(b, at, Join(first, k)) && Holds(b, mid + 1, Join(second, k))
    ensures TwoRuns(b, at, first, mid, second, end, k)
  {
    JoinIsLaid(b, at, first, k);
    JoinIsLaid(b, mid + 1, second, k);
  }

  lemma {:induction false} AvccOfLaid(b: seq<byte>, sps: seq<seq<byte>>, pps: seq<seq<byte>>, n: nat)
    requires |b| >= 7 && b[0] == 1 && b[5] % 32 == |sps| > 0 && n < |b| && b[n] == |pps| > 0
    requires TwoRuns(b, 6, sps, n, pps, |b|, 2)
    ensures Avcc(b) == Some(Parsed(Config([sps[0], pps[0]], b[4] % 4 + 1), |b|))
  {
    LaidIsRead(b, 6, sps, n, 2);
    LaidIsRead(b, n + 1, pps, |b|, 2);
    AvccRead(b, sps, pps, n, |b|);
  }

  lemma AvccRead(b: seq<byte>, sps: seq<seq<byte>>, pps: seq<seq<byte>>, mid: nat, end: nat)
    requires |b| >= 7 && b[0] == 1 && b[5] % 32 == |sps| > 0 && |pps| > 0
    requires Units(b, 6, |sps|, 2) == Some(Block(sps, mid)) && AvccPps(b, mid) == Some(Block(pps, end))
    ensures Avcc(b) == Some(Parsed(Config([sps[0], pps[0]], b[4] % 4 + 1), end))
  {
  }

  /** Where the pieces of a written record lie. */
  lemma AvccParts(r: AvcRecord)
    requires AvcOk(r)
    ensures var b, n := WriteAvcc(r), 6 + |Join(r.sps, 2)|;
            && |b| == n + 1 + |Join(r.pps, 2)| && Holds(b, 6, Join(r.sps, 2))
            && b[n] == |r.pps| && Holds(b, n + 1, Join(r.pps, 2))
  {
    FourParts(AvcHead(r), Join(r.sps, 2), |r.pps|, Join(r.pps, 2));
  }

  lemma FourParts(head: seq<byte>, first: seq<byte>, count: byte, second: seq<byte>)
    ensures var b, n := head + first + [count] + second, |head| + |first|;
            && |b| == n + 1 + |second| && Holds(b, |head|, first) && b[n] == count && Holds(b, n + 1, second)
  {
    var b, n := head + first + [count] + second, |head| + |first|;
    assert b[|head|..n] == first && b[n + 1..n + 1 + |second|] == second;
    HoldsSlice(b, |head|, first);
    HoldsSlice(b, n + 1, second);
  }

  lemma AvcHeadReads(r: AvcRecord)
    requires AvcOk(r)
    ensures var b := WriteAvcc(r);
            |b| >= 6 && b[0] == 1 && b[4] % 4 + 1 == r.lengthSize && b[5] % 32 == |r.sps|
  {
    var b, head := WriteAvcc(r), AvcHead(r);
    assert b[0] == head[0] && b[4] == head[4] && b[5] == head[5];
  }

  /** Every strict prefix of a written record is rejected; the record followed by anything is not. */
  lemma AvccExact(r: AvcRecord, k: nat, tail: seq<byte>)
    requires AvcOk(r) && k < |WriteAvcc(r)|
    ensures Avcc(WriteAvcc(r)[..k]) == None
    ensures Avcc(WriteAvcc(r) + tail).Some?
    ensures Avcc(WriteAvcc(r) + tail).value.config == Config([r.sps[0], r.pps[0]], r.lengthSize)
  {
    AvccRoundTrip(r);
    AvccOfPrefix(WriteAvcc(r), k);
    AvccIgnoresTail(WriteAvcc(r), tail);
  }
}
