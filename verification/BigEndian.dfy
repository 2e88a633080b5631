/** Big-endian lengths, and the length-prefixed units built on them. */
module BigEndian {
  import opened Bits
  import opened Collections
  import opened Wire

  /** The k bytes at `at`, most significant first. */
  function ReadBE(b: seq<byte>, at: nat, k: nat): (r: nat)
    requires at + k <= |b|
    decreases k, |b|
  {
    if k == 0 then 0 else ReadBE(b, at, k - 1) * 256 + b[at + k - 1]
  }

  function WriteBE(n: nat, k: nat): (r: seq<byte>)
    ensures |r| == k
    decreases k, n
  {
    if k == 0 then [] else WriteBE(n / 256, k - 1) + [n % 256]
  }

  /** The shift-and-or loop over the prefix bytes. */
  method ReadPrefix(b: seq<byte>, at: nat, k: nat) returns (r: nat)
    requires at + k <= |b|
    ensures r == ReadBE(b, at, k)
  {
    r := 0;
    var i := 0;
    while i < k
      invariant 0 <= i <= k
      invariant r == ReadBE(b, at, i)
    {
      r := r * 256 + b[at + i];
      i := i + 1;
    }
  }

  lemma {:induction false} ReadSameBytes(b: seq<byte>, at: nat, c: seq<byte>, at': nat, k: nat)
    requires at + k <= |b| && at' + k <= |c| && b[at..at + k] == c[at'..at' + k]
    ensures ReadBE(b, at, k) == ReadBE(c, at', k)
    decreases k
  {
    if k > 0 {
      assert b[at..at + k - 1] == b[at..at + k][..k - 1] == c[at'..at' + k][..k - 1] == c[at'..at' + k - 1];
      assert b[at + k - 1] == b[at..at + k][k - 1] == c[at'..at' + k][k - 1] == c[at' + k - 1];
      ReadSameBytes(b, at, c, at', k - 1);
    }
  }

  lemma {:induction false} ReadWritten(n: nat, k: nat)
    requires n < Pow256(k)
    ensures ReadBE(WriteBE(n, k), 0, k) == n
    decreases k
  {
    if k > 0 {
      ReadWritten(n / 256, k - 1);
      assert WriteBE(n, k)[0..k - 1] == WriteBE(n / 256, k - 1) == WriteBE(n / 256, k - 1)[0..k - 1];
      ReadSameBytes(WriteBE(n, k), 0, WriteBE(n / 256, k - 1), 0, k - 1);
    }
  }

  lemma ReadWrittenAt(b: seq<byte>, at: nat, n: nat, k: nat)
    requires at + k <= |b| && n < Pow256(k) && b[at..at + k] == WriteBE(n, k)
    ensures ReadBE(b, at, k) == n
  {
    ReadWritten(n, k);
    assert WriteBE(n, k)[0..k] == WriteBE(n, k);
    ReadSameBytes(b, at, WriteBE(n, k), 0, k);
  }

  lemma {:induction false} WriteRead(b: seq<byte>, at: nat, k: nat)
    requires at + k <= |b|
    ensures WriteBE(ReadBE(b, at, k), k) == b[at..at + k]
    decreases k
  {
    if k > 0 {
      WriteRead(b, at, k - 1);
      assert b[at..at + k] == b[at..at + k - 1] + [b[at + k - 1]];
    }
  }

  // ---------- length-prefixed units ----------

  function Unit(u: seq<byte>, k: nat): (r: seq<byte>)
    ensures |r| == k + |u|
  {
    WriteBE(|u|, k) + u
  }

  function Join(units: seq<seq<byte>>, k: nat): (r: seq<byte>) {
    if |units| == 0 then [] else Unit(units[0], k) + Join(units[1..], k)
  }

  /** The unit at `at`, if it is all there. */
  function UnitAt(b: seq<byte>, at: nat, k: nat): (u: Option<seq<byte>>)
    ensures u.Some? ==> at + k + |u.value| <= |b|
  {
    if at + k > |b| then None
    else
      var n := ReadBE(b, at, k);
      if at + k + n > |b| then None else Some(b[at + k..at + k + n])
  }

  /** The length prefix, then that many bytes, each checked against the end of the input. */
  method ReadUnit(b: seq<byte>, at: nat, k: nat) returns (u: Option<seq<byte>>)
    ensures u == UnitAt(b, at, k)
  {
    if at + k > |b| {
      return None;
    }
    var len := ReadPrefix(b, at, k);
    if at + k + len > |b| {
      return None;
    }
    return Some(b[at + k..at + k + len]);
  }

  /** A unit written somewhere is read back from there. */
  lemma UnitRoundTrip(b: seq<byte>, at: nat, u: seq<byte>, k: nat)
    requires |u| < Pow256(k) && Holds(b, at, Unit(u, k))
    ensures UnitAt(b, at, k) == Some(u)
  {
    HoldsParts(b, at, WriteBE(|u|, k), u);
    HoldsSlice(b, at, WriteBE(|u|, k));
    HoldsSlice(b, at + k, u);
    ReadWrittenAt(b, at, |u|, k);
  }

  /** `b` has the bytes `x` at `at`. */
  predicate Holds(b: seq<byte>, at: nat, x: seq<byte>)
    decreases |x|
  {
    if |x| == 0 then at <= |b| else at < |b| && b[at] == x[0] && Holds(b, at + 1, x[1..])
  }

  lemma {:induction false} HoldsSlice(b: seq<byte>, at: nat, x: seq<byte>)
    ensures Holds(b, at, x) <==> at + |x| <= |b| && b[at..at + |x|] == x
    decreases |x|
  {
    if |x| > 0 {
      HoldsSlice(b, at + 1, x[1..]);
      if at + |x| <= |b| {
        assert b[at..at + |x|] == [b[at]] + b[at + 1..at + |x|];
        assert x == [x[0]] + x[1..];
        assert b[at..at + |x|][1..] == b[at + 1..at + |x|] && b[at..at + |x|][0] == b[at];
      }
    }
  }

  lemma {:induction false} HoldsParts(b: seq<byte>, at: nat, x: seq<byte>, y: seq<byte>)
    ensures Holds(b, at, x + y) <==> Holds(b, at, x) && Holds(b, at + |x|, y)
    decreases |x|
  {
    if |x| == 0 {
      assert x + y == y;
      if Holds(b, at, y) {
        HoldsInside(b, at, y);
      }
    } else {
      assert (x + y)[1..] == x[1..] + y;
      HoldsParts(b, at + 1, x[1..], y);
    }
  }

  lemma {:induction false} HoldsInside(b: seq<byte>, at: nat, x: seq<byte>)
    requires Holds(b, at, x)
    ensures at + |x| <= |b|
    decreases |x|
  {
    if |x| > 0 {
      HoldsInside(b, at + 1, x[1..]);
    }
  }

  /** What is read as a unit is that unit written out. */
  lemma UnitIsWritten(b: seq<byte>, at: nat, k: nat)
    requires UnitAt(b, at, k).Some?
    ensures var u := UnitAt(b, at, k).value;
            b[at..at + k + |u|] == Unit(u, k)
  {
    var u := UnitAt(b, at, k).value;
    WriteRead(b, at, k);
    assert b[at..at + k + |u|] == b[at..at + k] + b[at + k..at + k + |u|];
  }

  /** Cutting the input off: a unit is read exactly as before, or not at all. */
  lemma UnitOfPrefix(b: seq<byte>, at: nat, k: nat, n: nat)
    requires n <= |b|
    ensures var u := UnitAt(b, at, k);
            UnitAt(b[..n], at, k) == if u.Some? && at + k + |u.value| <= n then u else None
  {
    if at + k <= n {
      assert b[..n][at..at + k] == b[at..at + k];
      ReadSameBytes(b[..n], at, b, at, k);
      var m := ReadBE(b, at, k);
      if at + k + m <= n {
        assert b[..n][at + k..at + k + m] == b[at + k..at + k + m];
      }
    }
  }
}
