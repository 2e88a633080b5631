/** Reference counts are exact, releases end, and an object is finalized exactly when nothing
    that survives refers to it. */
module RefCountInvariant {
  import opened Collections
  import opened RefCounting

  function Hit(x: nat): (f: Ref -> nat) { (r: Ref) => if r == Some(x) then 1 else 0 }

  function Count(rs: seq<Ref>, x: nat): (n: nat) {
    SumBy(rs, Hit(x))
  }

  /** References a live object holds on `x`; a dying one holds none, they are being released. */
  function RefsTo(x: nat): (f: Cell -> nat) {
    (c: Cell) => if c.status.Live? then Count(c.keys, x) + Count(c.values, x) else 0
  }

  function Occurrences(h: Heap, x: nat): (n: nat) {
    SumBy(h.cells, RefsTo(x))
  }

  function Existing(): (f: Cell -> nat) { (c: Cell) => if !c.isStatic && !c.status.Freed? then 1 else 0 }

  ghost predicate InRange(rs: seq<Ref>, n: nat) {
    forall i :: 0 <= i < |rs| && rs[i].Some? ==> rs[i].value < n
  }

  ghost predicate ChildrenInRange(h: Heap) {
    forall x :: 0 <= x < |h.cells| ==> InRange(h.cells[x].keys, |h.cells|) && InRange(h.cells[x].values, |h.cells|)
  }

  ghost predicate StaticsOk(h: Heap) {
    forall x :: 0 <= x < |h.cells| && h.cells[x].isStatic ==>
      h.cells[x].status.Live? && h.cells[x].kind.Plain? && h.cells[x].keys == [] && h.cells[x].values == []
  }

  /** The count of `x`: callers' references, references waiting to be released, and
      occurrences in live containers. */
  ghost predicate Balanced(h: Heap, held: seq<nat>, owed: seq<Ref>, x: nat)
    requires x < |h.cells| == |held|
  {
    h.cells[x].isStatic ||
    (h.cells[x].rc == held[x] + Count(owed, x) + Occurrences(h, x) && (h.cells[x].status.Live? <==> h.cells[x].rc > 0))
  }

  ghost predicate Inv(h: Heap, held: seq<nat>, owed: seq<Ref>) {
    && !h.fault
    && |held| == |h.cells|
    && ChildrenInRange(h) && StaticsOk(h) && InRange(owed, |h.cells|)
    && (forall x :: 0 <= x < |h.cells| ==> Balanced(h, held, owed, x))
    && h.alive == SumBy(h.cells, Existing())
  }

  // ---------- counting ----------

  lemma CountFirst(r: Ref, rest: seq<Ref>, x: nat)
    ensures Count([r] + rest, x) == Hit(x)(r) + Count(rest, x)
  {
    SumByConcat([r], rest, Hit(x));
    assert [r][..0] == [];
  }

  lemma CountConcat(a: seq<Ref>, b: seq<Ref>, x: nat)
    ensures Count(a + b, x) == Count(a, x) + Count(b, x)
  {
    SumByConcat(a, b, Hit(x));
  }

  lemma OccurrencesAfter(h: Heap, y: nat, c: Cell, x: nat)
    requires y < |h.cells|
    ensures Occurrences(SetCell(h, y, c), x) + RefsTo(x)(h.cells[y]) == Occurrences(h, x) + RefsTo(x)(c)
  {
    SumByUpdate(h.cells, y, c, RefsTo(x));
  }

  lemma ExistingAfter(h: Heap, y: nat, c: Cell)
    requires y < |h.cells|
    ensures SumBy(SetCell(h, y, c).cells, Existing()) + Existing()(h.cells[y])
         == SumBy(h.cells, Existing()) + Existing()(c)
  {
    SumByUpdate(h.cells, y, c, Existing());
  }

  lemma RangeConcat(a: seq<Ref>, b: seq<Ref>, n: nat)
    ensures InRange(a + b, n) <==> InRange(a, n) && InRange(b, n)
  {
    if InRange(a + b, n) {
      forall i | 0 <= i < |a| && a[i].Some? ensures a[i].value < n {
        assert (a + b)[i] == a[i];
      }
      forall i | 0 <= i < |b| && b[i].Some? ensures b[i].value < n {
        assert (a + b)[|a| + i] == b[i];
      }
    }
  }

  // ---------- retain ----------

  /** A change of the count alone. */
  function Recount(h: Heap, x: nat, n: nat): (s: Heap)
    requires x < |h.cells|
  {
    SetCell(h, x, h.cells[x].(rc := n))
  }

  lemma RecountOccurrences(h: Heap, x: nat, n: nat, y: nat)
    requires x < |h.cells|
    ensures Occurrences(Recount(h, x, n), y) == Occurrences(h, y)
  {
    OccurrencesAfter(h, x, h.cells[x].(rc := n), y);
  }

  lemma RecountShape(h: Heap, x: nat, n: nat)
    requires x < |h.cells| && ChildrenInRange(h) && StaticsOk(h)
    ensures ChildrenInRange(Recount(h, x, n)) && StaticsOk(Recount(h, x, n))
    ensures SumBy(Recount(h, x, n).cells, Existing()) == SumBy(h.cells, Existing())
  {
    ExistingAfter(h, x, h.cells[x].(rc := n));
  }

  /** Trading one count for one pending reference, either way. */
  lemma RecountKeeps(h: Heap, held: seq<nat>, owed: seq<Ref>, owed': seq<Ref>, x: nat, n: nat)
    requires Inv(h, held, owed) && x < |h.cells| && h.cells[x].status.Live? && n > 0 && InRange(owed', |h.cells|)
    requires n + Count(owed, x) == h.cells[x].rc + Count(owed', x)
    requires forall y :: 0 <= y < |h.cells| && y != x ==> Count(owed', y) == Count(owed, y)
    ensures Inv(Recount(h, x, n), held, owed')
  {
    var s := Recount(h, x, n);
    RecountShape(h, x, n);
    forall y | 0 <= y < |h.cells| ensures Balanced(s, held, owed', y) {
      RecountOccurrences(h, x, n, y);
      assert Balanced(h, held, owed, y);
    }
  }

  /** A retain creates a reference that someone must come to own. */
  lemma RetainKeeps(h: Heap, held: seq<nat>, owed: seq<Ref>, r: Ref)
    requires Inv(h, held, owed) && (r.Some? ==> Usable(h, r.value))
    ensures Inv(Retain(h, r), held, [r] + owed)
  {
    RangeConcat([r], owed, |h.cells|);
    forall y ensures Count([r] + owed, y) == Hit(y)(r) + Count(owed, y) {
      CountFirst(r, owed, y);
    }
    if r.Some? && !h.cells[r.value].isStatic {
      RecountKeeps(h, held, owed, [r] + owed, r.value, h.cells[r.value].rc + 1);
    } else {
      SameHeapKeeps(h, held, owed, [r] + owed);
    }
  }

  lemma SameHeapKeeps(h: Heap, held: seq<nat>, owed: seq<Ref>, owed': seq<Ref>)
    requires Inv(h, held, owed) && InRange(owed', |h.cells|)
    requires forall y :: 0 <= y < |h.cells| && !h.cells[y].isStatic ==> Count(owed', y) == Count(owed, y)
    ensures Inv(h, held, owed')
  {
    forall y | 0 <= y < |h.cells| ensures Balanced(h, held, owed', y) {
      assert Balanced(h, held, owed, y);
    }
  }

  // ---------- release ----------

  /** A pending reference is to a live object. */
  lemma OwedIsLive(h: Heap, held: seq<nat>, r: Ref, rest: seq<Ref>)
    requires Inv(h, held, [r] + rest) && r.Some?
    ensures Usable(h, r.value) && (!h.cells[r.value].isStatic ==> h.cells[r.value].rc > 0)
  {
    RangeConcat([r], rest, |h.cells|);
    assert [r][0] == r;
    CountFirst(r, rest, r.value);
    assert Balanced(h, held, [r] + rest, r.value);
  }

  lemma ExpireOccurrences(h: Heap, x: nat, y: nat)
    requires Usable(h, x)
    ensures Occurrences(Expire(h, x), y) + Count(Children(h.cells[x]), y) == Occurrences(h, y)
  {
    OccurrencesAfter(h, x, h.cells[x].(rc := 0, status := Dying), y);
    CountConcat(h.cells[x].keys, h.cells[x].values, y);
  }

  lemma ExpireShape(h: Heap, x: nat)
    requires Usable(h, x) && !h.cells[x].isStatic && ChildrenInRange(h) && StaticsOk(h)
    ensures ChildrenInRange(Expire(h, x)) && StaticsOk(Expire(h, x))
    ensures SumBy(Expire(h, x).cells, Existing()) == SumBy(h.cells, Existing())
    ensures InRange(Children(h.cells[x]), |h.cells|)
  {
    ExistingAfter(h, x, h.cells[x].(rc := 0, status := Dying));
    RangeConcat(h.cells[x].keys, h.cells[x].values, |h.cells|);
  }

  /** When the last reference goes, the object's own references become pending. */
  lemma ExpireKeeps(h: Heap, held: seq<nat>, r: Ref, rest: seq<Ref>)
    requires Inv(h, held, [r] + rest) && r.Some? && Usable(h, r.value)
    requires !h.cells[r.value].isStatic && h.cells[r.value].rc == 1
    ensures Inv(Expire(h, r.value), held, Children(h.cells[r.value]) + rest)
  {
    var x, s := r.value, Expire(h, r.value);
    var owed := Children(h.cells[x]) + rest;
    ExpireShape(h, x);
    RangeConcat([r], rest, |h.cells|);
    RangeConcat(Children(h.cells[x]), rest, |h.cells|);
    forall y | 0 <= y < |h.cells| ensures Balanced(s, held, owed, y) {
      ExpireBalances(h, held, r, rest, y);
    }
  }

  lemma ExpireBalances(h: Heap, held: seq<nat>, r: Ref, rest: seq<Ref>, y: nat)
    requires Inv(h, held, [r] + rest) && r.Some? && Usable(h, r.value) && y < |h.cells|
    requires !h.cells[r.value].isStatic && h.cells[r.value].rc == 1
    ensures Balanced(Expire(h, r.value), held, Children(h.cells[r.value]) + rest, y)
  {
    ExpireOccurrences(h, r.value, y);
    CountConcat(Children(h.cells[r.value]), rest, y);
    CountFirst(r, rest, y);
    assert Balanced(h, held, [r] + rest, y);
  }

  lemma FreeKeeps(h: Heap, held: seq<nat>, owed: seq<Ref>, x: nat)
    requires Inv(h, held, owed) && x < |h.cells| && h.cells[x].status.Dying?
    ensures Inv(Free(h, x), held, owed)
  {
    var c := h.cells[x].(status := Freed);
    ExistingAfter(h, x, c);
    forall y | 0 <= y < |h.cells| ensures Balanced(Free(h, x), held, owed, y) {
      OccurrencesAfter(h, x, c, y);
      assert Balanced(h, held, owed, y);
    }
  }

  /** What a release leaves alone: every object keeps its contents, none comes back to life,
      and those already dying or freed are not touched. */
  ghost predicate Shrunk(h: Heap, s: Heap) {
    && |s.cells| == |h.cells|
    && forall x :: 0 <= x < |h.cells| ==> ShrunkAt(h, s, x)
  }

  ghost predicate ShrunkAt(h: Heap, s: Heap, x: nat)
    requires x < |h.cells| == |s.cells|
  {
    && s.cells[x] == h.cells[x].(rc := s.cells[x].rc, status := s.cells[x].status)
    && (!h.cells[x].status.Live? ==> s.cells[x] == h.cells[x])
    && (s.cells[x].status.Dying? ==> h.cells[x].status.Dying?)
    && (h.cells[x].isStatic ==> s.cells[x] == h.cells[x])
  }

  lemma ShrunkTwice(a: Heap, b: Heap, c: Heap)
    requires Shrunk(a, b) && Shrunk(b, c)
    ensures Shrunk(a, c)
  {
    forall x | 0 <= x < |a.cells| ensures ShrunkAt(a, c, x) {
      assert ShrunkAt(a, b, x) && ShrunkAt(b, c, x);
    }
  }

  lemma {:induction false} ReleaseShrinks(h: Heap, r: Ref)
    ensures Shrunk(h, Release(h, r))
    decreases Weight(h), 0
  {
    if r.Some? && Usable(h, r.value) && !h.cells[r.value].isStatic && h.cells[r.value].rc == 1 {
      var x := r.value;
      WeightAfter(h, x, h.cells[x].(rc := 0, status := Dying));
      var mid := Expire(h, x);
      var s := ReleaseEach(mid, Children(h.cells[x]));
      ReleaseEachShrinks(mid, Children(h.cells[x]));
      FreedShrinks(h, x, s);
    }
  }

  lemma FreedShrinks(h: Heap, x: nat, s: Heap)
    requires Usable(h, x) && !h.cells[x].isStatic && Shrunk(Expire(h, x), s)
    ensures Shrunk(h, Free(s, x))
  {
    forall y | 0 <= y < |h.cells| ensures ShrunkAt(h, Free(s, x), y) {
      assert ShrunkAt(Expire(h, x), s, y);
    }
  }

  lemma {:induction false} ReleaseEachShrinks(h: Heap, rs: seq<Ref>)
    ensures Shrunk(h, ReleaseEach(h, rs))
    decreases Weight(h), |rs| + 1
  {
    if |rs| > 0 {
      ReleaseShrinks(h, rs[0]);
      ReleaseEachShrinks(Release(h, rs[0]), rs[1..]);
      ShrunkTwice(h, Release(h, rs[0]), ReleaseEach(h, rs));
    }
  }

  /** Releasing a pending reference keeps every count exact, through the whole recursion. */
  lemma {:induction false} ReleaseKeeps(h: Heap, held: seq<nat>, r: Ref, rest: seq<Ref>)
    requires Inv(h, held, [r] + rest)
    ensures Inv(Release(h, r), held, rest)
    decreases Weight(h), 0
  {
    RangeConcat([r], rest, |h.cells|);
    if r.None? {
      NullOwed(h, held, r, rest);
    } else {
      OwedIsLive(h, held, r, rest);
      var x, c := r.value, h.cells[r.value];
      if c.isStatic {
        NullOwed(h, held, r, rest);
      } else if c.rc > 1 {
        OneFewer(h, held, r, rest);
      } else {
        LastReleased(h, held, r, rest);
      }
    }
  }

  lemma NullOwed(h: Heap, held: seq<nat>, r: Ref, rest: seq<Ref>)
    requires Inv(h, held, [r] + rest) && InRange(rest, |h.cells|)
    requires r.Some? ==> r.value < |h.cells| && h.cells[r.value].isStatic
    ensures Inv(h, held, rest)
  {
    forall y ensures Count([r] + rest, y) == Hit(y)(r) + Count(rest, y) {
      CountFirst(r, rest, y);
    }
    SameHeapKeeps(h, held, [r] + rest, rest);
  }

  lemma OneFewer(h: Heap, held: seq<nat>, r: Ref, rest: seq<Ref>)
    requires Inv(h, held, [r] + rest) && InRange(rest, |h.cells|)
    requires r.Some? && Usable(h, r.value) && !h.cells[r.value].isStatic && h.cells[r.value].rc > 1
    ensures Inv(Release(h, r), held, rest)
  {
    forall y ensures Count([r] + rest, y) == Hit(y)(r) + Count(rest, y) {
      CountFirst(r, rest, y);
    }
    RecountKeeps(h, held, [r] + rest, rest, r.value, h.cells[r.value].rc - 1);
  }

  lemma {:induction false} LastReleased(h: Heap, held: seq<nat>, r: Ref, rest: seq<Ref>)
    requires Inv(h, held, [r] + rest)
    requires r.Some? && Usable(h, r.value) && !h.cells[r.value].isStatic && h.cells[r.value].rc == 1
    ensures Inv(Release(h, r), held, rest)
    decreases Weight(h), 0, 0
  {
    var x := r.value;
    var mid, kids := Expire(h, x), Children(h.cells[x]);
    WeightAfter(h, x, h.cells[x].(rc := 0, status := Dying));
    ExpireKeeps(h, held, r, rest);
    ReleaseEachKeeps(mid, held, kids, rest);
    ReleaseEachShrinks(mid, kids);
    assert ShrunkAt(mid, ReleaseEach(mid, kids), x);
    FreeKeeps(ReleaseEach(mid, kids), held, rest, x);
  }

  lemma {:induction false} ReleaseEachKeeps(h: Heap, held: seq<nat>, rs: seq<Ref>, rest: seq<Ref>)
    requires Inv(h, held, rs + rest)
    ensures Inv(ReleaseEach(h, rs), held, rest)
    decreases Weight(h), |rs| + 1
  {
    if |rs| == 0 {
      assert rs + rest == rest;
    } else {
      assert rs + rest == [rs[0]] + (rs[1..] + rest);
      ReleaseKeeps(h, held, rs[0], rs[1..] + rest);
      ReleaseEachKeeps(Release(h, rs[0]), held, rs[1..], rest);
    }
  }
}
