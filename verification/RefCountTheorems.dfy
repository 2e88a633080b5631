/** Who survives a release, when the container calls are safe, and whole runs of CF calls. */
module RefCountTheorems {
  import opened Collections
  import opened RefCounting
  import opened RefCountInvariant

  // ---------- exactly the unsupported are finalized ----------

  /** Every member is static, or held by a caller, or referred to by a member. */
  ghost predicate Supported(h: Heap, held: seq<nat>, group: set<nat>)
    requires |held| == |h.cells|
  {
    forall x :: x in group ==>
      && Usable(h, x)
      && (h.cells[x].isStatic || held[x] > 0 || exists y :: y in group && Refers(h, y, x))
  }

  ghost predicate Refers(h: Heap, y: nat, x: nat) {
    y < |h.cells| && RefsTo(x)(h.cells[y]) > 0
  }

  ghost predicate Survives(h: Heap, held: seq<nat>, x: nat)
    requires |held| == |h.cells|
  {
    exists group :: x in group && Supported(h, held, group)
  }

  /** A supported object is never the one whose count runs out. */
  lemma SupportedCount(h: Heap, held: seq<nat>, r: Ref, rest: seq<Ref>, group: set<nat>)
    requires Inv(h, held, [r] + rest) && Supported(h, held, group)
    requires r.Some? && r.value in group && !h.cells[r.value].isStatic
    ensures h.cells[r.value].rc > 1
  {
    var x := r.value;
    CountFirst(r, rest, x);
    assert Balanced(h, held, [r] + rest, x);
    if held[x] == 0 {
      var y :| y in group && Refers(h, y, x);
      SumByMember(h.cells, y, RefsTo(x));
    }
  }

  /** Support does not depend on counts or on objects outside the group. */
  lemma SupportStays(h: Heap, s: Heap, held: seq<nat>, group: set<nat>)
    requires |held| == |h.cells| == |s.cells| && Supported(h, held, group)
    requires forall x :: x in group ==> SameBody(h, s, x)
    ensures Supported(s, held, group)
  {
    forall x | x in group
      ensures Usable(s, x) && (s.cells[x].isStatic || held[x] > 0 || exists y :: y in group && Refers(s, y, x))
    {
      assert SameBody(h, s, x);
      if !h.cells[x].isStatic && held[x] == 0 {
        var y :| y in group && Refers(h, y, x);
        assert SameBody(h, s, y);
        assert Refers(s, y, x);
      }
    }
  }

  ghost predicate SameBody(h: Heap, s: Heap, x: nat) {
    x < |h.cells| == |s.cells| && s.cells[x] == h.cells[x].(rc := s.cells[x].rc)
  }

  lemma {:induction false} ReleaseSpares(h: Heap, held: seq<nat>, r: Ref, rest: seq<Ref>, group: set<nat>)
    requires Inv(h, held, [r] + rest) && Supported(h, held, group)
    ensures Supported(Release(h, r), held, group)
    decreases Weight(h), 0
  {
    if r.Some? {
      OwedIsLive(h, held, r, rest);
      var x, c := r.value, h.cells[r.value];
      if !c.isStatic {
        if c.rc > 1 {
          SupportStays(h, Release(h, r), held, group);
        } else {
          LastSpares(h, held, r, rest, group);
        }
      }
    }
  }

  lemma {:induction false} LastSpares(h: Heap, held: seq<nat>, r: Ref, rest: seq<Ref>, group: set<nat>)
    requires Inv(h, held, [r] + rest) && Supported(h, held, group)
    requires r.Some? && Usable(h, r.value) && !h.cells[r.value].isStatic && h.cells[r.value].rc == 1
    ensures Supported(Release(h, r), held, group)
    decreases Weight(h), 0, 0
  {
    var x := r.value;
    if x in group {
      SupportedCount(h, held, r, rest, group);
    }
    var mid, kids := Expire(h, x), Children(h.cells[x]);
    WeightAfter(h, x, h.cells[x].(rc := 0, status := Dying));
    ExpireKeeps(h, held, r, rest);
    SupportStays(h, mid, held, group);
    ReleaseEachSpares(mid, held, kids, rest, group);
    SupportStays(ReleaseEach(mid, kids), Free(ReleaseEach(mid, kids), x), held, group);
  }

  lemma {:induction false} ReleaseEachSpares(h: Heap, held: seq<nat>, rs: seq<Ref>, rest: seq<Ref>, group: set<nat>)
    requires Inv(h, held, rs + rest) && Supported(h, held, group)
    ensures Supported(ReleaseEach(h, rs), held, group)
    decreases Weight(h), |rs| + 1
  {
    if |rs| > 0 {
      assert rs + rest == [rs[0]] + (rs[1..] + rest);
      ReleaseKeeps(h, held, rs[0], rs[1..] + rest);
      ReleaseSpares(h, held, rs[0], rs[1..] + rest, group);
      ReleaseEachSpares(Release(h, rs[0]), held, rs[1..], rest, group);
    }
  }

  ghost function LiveSet(h: Heap): (r: set<nat>) {
    set x | 0 <= x < |h.cells| && h.cells[x].status.Live?
  }

  /** With nothing pending, whatever is live is supported by what is live. */
  lemma LiveIsSupported(h: Heap, held: seq<nat>)
    requires Inv(h, held, [])
    ensures Supported(h, held, LiveSet(h))
  {
    forall x | x in LiveSet(h)
      ensures h.cells[x].isStatic || held[x] > 0 || exists y :: y in LiveSet(h) && Refers(h, y, x)
    {
      assert Balanced(h, held, [], x);
      if !h.cells[x].isStatic && held[x] == 0 {
        var y := SumByPositive(h.cells, RefsTo(x));
        assert y in LiveSet(h) && Refers(h, y, x);
      }
    }
  }

  /** A release finalizes exactly the objects that no supported group contains: the ones no
      caller and no surviving object refers to. */
  lemma ReleaseFinalizesExactly(h: Heap, held: seq<nat>, r: Ref, x: nat)
    requires Inv(h, held, [r]) && Usable(h, x)
    ensures Usable(Release(h, r), x) <==> Survives(h, held, x)
  {
    var s := Release(h, r);
    assert [r] + [] == [r];
    ReleaseKeeps(h, held, r, []);
    if Survives(h, held, x) {
      var group :| x in group && Supported(h, held, group);
      ReleaseSpares(h, held, r, [], group);
    }
    if Usable(s, x) {
      LiveIsSupported(s, held);
      ReleaseShrinks(h, r);
      forall y | y in LiveSet(s) ensures SameBody(s, h, y) {
        assert ShrunkAt(h, s, y);
      }
      SupportStays(s, h, held, LiveSet(s));
      assert x in LiveSet(s);
    }
  }

  // ---------- containers ----------

  lemma {:induction false} RetainEachKeeps(h: Heap, held: seq<nat>, owed: seq<Ref>, rs: seq<Ref>)
    requires Inv(h, held, owed) && AllUsable(h, rs)
    ensures Inv(RetainEach(h, rs), held, rs + owed) && SameBodies(h, RetainEach(h, rs))
    decreases |rs|
  {
    if |rs| == 0 {
      assert rs + owed == owed;
    } else {
      var h1 := Retain(h, rs[0]);
      RetainKeeps(h, held, owed, rs[0]);
      StillUsable(h, h1, rs[1..]);
      RetainEachKeeps(h1, held, [rs[0]] + owed, rs[1..]);
      assert rs == [rs[0]] + rs[1..];
      OwedReordered(RetainEach(h, rs), held, rs[1..] + ([rs[0]] + owed), rs + owed, rs[0], rs[1..], owed);
      SameBodiesTwice(h, h1, RetainEach(h, rs));
    }
  }

  lemma SameBodiesTwice(a: Heap, b: Heap, c: Heap)
    requires SameBodies(a, b) && SameBodies(b, c)
    ensures SameBodies(a, c)
  {
    forall x | 0 <= x < |a.cells| ensures SameBody(a, c, x) {
      assert SameBody(a, b, x) && SameBody(b, c, x);
    }
  }

  ghost predicate AllUsable(h: Heap, rs: seq<Ref>) {
    forall i :: 0 <= i < |rs| && rs[i].Some? ==> Usable(h, rs[i].value)
  }

  ghost predicate SameBodies(h: Heap, s: Heap) {
    |s.cells| == |h.cells| && forall x :: 0 <= x < |h.cells| ==> SameBody(h, s, x)
  }

  lemma StillUsable(h: Heap, s: Heap, rs: seq<Ref>)
    requires SameBodies(h, s)
    ensures AllUsable(h, rs) <==> AllUsable(s, rs)
  {
    forall i | 0 <= i < |rs| && rs[i].Some? ensures Usable(h, rs[i].value) <==> Usable(s, rs[i].value) {
      if rs[i].value < |h.cells| {
        assert SameBody(h, s, rs[i].value);
      }
    }
  }

  lemma OwedReordered(h: Heap, held: seq<nat>, a: seq<Ref>, b: seq<Ref>, r: Ref, rs: seq<Ref>, owed: seq<Ref>)
    requires Inv(h, held, a) && a == rs + ([r] + owed) && b == [r] + rs + owed
    ensures Inv(h, held, b)
  {
    forall y ensures Count(a, y) == Count(b, y) {
      CountConcat(rs, [r] + owed, y);
      CountConcat([r], owed, y);
      CountConcat([r] + rs, owed, y);
      CountConcat([r], rs, y);
    }
    RangeConcat(rs, [r] + owed, |h.cells|);
    RangeConcat([r], owed, |h.cells|);
    RangeConcat([r], rs, |h.cells|);
    RangeConcat([r] + rs, owed, |h.cells|);
    SameHeapKeeps(h, held, a, b);
  }

  /** A new container takes over the references retained for it. */
  lemma AllocateKeeps(h: Heap, held: seq<nat>, kind: Kind, keys: seq<Ref>, values: seq<Ref>)
    requires Inv(h, held, keys + values)
    ensures Inv(Allocate(h, kind, keys, values), held + [1], [])
  {
    var s := Allocate(h, kind, keys, values);
    var c := Cell(false, kind, Live, 1, keys, values);
    SumByAppend(h.cells, c, Existing());
    RangeConcat(keys, values, |h.cells|);
    AllocateShape(h, kind, keys, values);
    forall y | 0 <= y < |s.cells| ensures Balanced(s, held + [1], [], y) {
      SumByAppend(h.cells, c, RefsTo(y));
      CountConcat(keys, values, y);
      if y < |h.cells| {
        assert Balanced(h, held, keys + values, y);
      } else {
        NothingRefersBeyond(h, y);
        OutOfRangeCount(keys, |h.cells|, y);
        OutOfRangeCount(values, |h.cells|, y);
      }
    }
  }

  lemma AllocateShape(h: Heap, kind: Kind, keys: seq<Ref>, values: seq<Ref>)
    requires ChildrenInRange(h) && StaticsOk(h) && InRange(keys, |h.cells|) && InRange(values, |h.cells|)
    ensures ChildrenInRange(Allocate(h, kind, keys, values)) && StaticsOk(Allocate(h, kind, keys, values))
  {
    var s := Allocate(h, kind, keys, values);
    forall x | 0 <= x < |s.cells| ensures InRange(s.cells[x].keys, |s.cells|) && InRange(s.cells[x].values, |s.cells|) {
      if x < |h.cells| {
        assert InRange(h.cells[x].keys, |h.cells|);
      }
    }
  }

  lemma OutOfRangeCount(rs: seq<Ref>, n: nat, y: nat)
    requires InRange(rs, n) && n <= y
    ensures Count(rs, y) == 0
  {
    if Count(rs, y) > 0 {
      var i := SumByPositive(rs, Hit(y));
      assert false;
    }
  }

  lemma NothingRefersBeyond(h: Heap, y: nat)
    requires ChildrenInRange(h) && |h.cells| <= y
    ensures Occurrences(h, y) == 0
  {
    if Occurrences(h, y) > 0 {
      var x := SumByPositive(h.cells, RefsTo(y));
      OutOfRangeCount(h.cells[x].keys, |h.cells|, y);
      OutOfRangeCount(h.cells[x].values, |h.cells|, y);
      assert false;
    }
  }

  lemma ArrayCreateKeeps(h: Heap, held: seq<nat>, values: seq<Ref>)
    requires Inv(h, held, []) && AllUsable(h, values)
    ensures Inv(ArrayCreate(h, values), held + [1], [])
  {
    RetainEachKeeps(h, held, [], values);
    assert [] + values == values + [];
    AllocateKeeps(RetainEach(h, values), held, ArrayKind, [], values);
  }

  lemma {:induction false} InterleaveCounts(keys: seq<Ref>, values: seq<Ref>, y: nat)
    requires |keys| == |values|
    ensures Count(Interleave(keys, values), y) == Count(keys, y) + Count(values, y)
    decreases |keys|
  {
    if |keys| > 0 {
      InterleaveCounts(keys[1..], values[1..], y);
      CountHead(keys, y);
      CountHead(values, y);
      InterleaveHead(keys, values, y);
    }
  }

  lemma InterleaveHead(keys: seq<Ref>, values: seq<Ref>, y: nat)
    requires |keys| == |values| > 0
    ensures Count(Interleave(keys, values), y)
         == Hit(y)(keys[0]) + Hit(y)(values[0]) + Count(Interleave(keys[1..], values[1..]), y)
  {
    var rest := Interleave(keys[1..], values[1..]);
    assert Interleave(keys, values) == [keys[0]] + ([values[0]] + rest);
    CountFirst(keys[0], [values[0]] + rest, y);
    CountFirst(values[0], rest, y);
  }

  lemma CountHead(rs: seq<Ref>, y: nat)
    requires |rs| > 0
    ensures Count(rs, y) == Hit(y)(rs[0]) + Count(rs[1..], y)
  {
    assert rs == [rs[0]] + rs[1..];
    CountFirst(rs[0], rs[1..], y);
  }

  lemma {:induction false} InterleaveMembers(keys: seq<Ref>, values: seq<Ref>, i: nat) returns (j: nat)
    requires |keys| == |values| && i < |Interleave(keys, values)|
    ensures j < |keys| && (Interleave(keys, values)[i] == keys[j] || Interleave(keys, values)[i] == values[j])
    decreases |keys|
  {
    if i < 2 {
      j := 0;
    } else {
      var k := InterleaveMembers(keys[1..], values[1..], i - 2);
      j := k + 1;
    }
  }

  lemma DictionaryCreateKeeps(h: Heap, held: seq<nat>, keys: seq<Ref>, values: seq<Ref>)
    requires Inv(h, held, []) && |keys| == |values| && AllUsable(h, keys) && AllUsable(h, values)
    ensures Inv(DictionaryCreate(h, keys, values), held + [1], [])
  {
    var all := Interleave(keys, values);
    forall i | 0 <= i < |all| && all[i].Some? ensures Usable(h, all[i].value) {
      var j := InterleaveMembers(keys, values, i);
    }
    RetainEachKeeps(h, held, [], all);
    assert all + [] == all;
    var s := RetainEach(h, all);
    forall y ensures Count(all, y) == Count(keys + values, y) {
      InterleaveCounts(keys, values, y);
      CountConcat(keys, values, y);
    }
    UsableInRange(h, keys);
    UsableInRange(h, values);
    RangeConcat(keys, values, |h.cells|);
    SameHeapKeeps(s, held, all, keys + values);
    AllocateKeeps(s, held, DictionaryKind, keys, values);
  }

  lemma UsableInRange(h: Heap, rs: seq<Ref>)
    requires AllUsable(h, rs)
    ensures InRange(rs, |h.cells|)
  {
  }

  /** With nothing pending, every reference in a live container is to a live object. */
  lemma ChildrenUsable(h: Heap, held: seq<nat>, d: nat)
    requires Inv(h, held, []) && Usable(h, d)
    ensures AllUsable(h, h.cells[d].keys) && AllUsable(h, h.cells[d].values)
  {
    ListUsable(h, held, d, h.cells[d].keys);
    ListUsable(h, held, d, h.cells[d].values);
  }

  lemma ListUsable(h: Heap, held: seq<nat>, d: nat, rs: seq<Ref>)
    requires Inv(h, held, []) && Usable(h, d) && (rs == h.cells[d].keys || rs == h.cells[d].values)
    ensures AllUsable(h, rs)
  {
    forall i | 0 <= i < |rs| && rs[i].Some? ensures Usable(h, rs[i].value) {
      var x := rs[i].value;
      assert InRange(h.cells[d].keys, |h.cells|) && InRange(h.cells[d].values, |h.cells|);
      SumByMember(rs, i, Hit(x));
      SumByMember(h.cells, d, RefsTo(x));
      assert Balanced(h, held, [], x);
    }
  }

  lemma DictionaryCopyKeeps(h: Heap, held: seq<nat>, d: nat)
    requires Inv(h, held, []) && Usable(h, d) && IsDictionary(h, d)
    ensures Inv(DictionaryCopy(h, d), held + [1], [])
  {
    var c := h.cells[d];
    ChildrenUsable(h, held, d);
    RetainEachKeeps(h, held, [], c.keys);
    assert c.keys + [] == c.keys;
    var h1 := RetainEach(h, c.keys);
    StillUsable(h, h1, c.values);
    RetainEachKeeps(h1, held, c.keys, c.values);
    var h2 := RetainEach(h1, c.values);
    forall y ensures Count(c.values + c.keys, y) == Count(c.keys + c.values, y) {
      CountConcat(c.keys, c.values, y);
      CountConcat(c.values, c.keys, y);
    }
    RangeConcat(c.values, c.keys, |h.cells|);
    RangeConcat(c.keys, c.values, |h.cells|);
    SameHeapKeeps(h2, held, c.values + c.keys, c.keys + c.values);
    AllocateKeeps(h2, held, DictionaryKind, c.keys, c.values);
  }

  // ---------- replacing a dictionary value ----------

  /** Changing one slot trades the reference it held for the new one. */
  lemma SlotTraded(h: Heap, held: seq<nat>, owed: seq<Ref>, owed': seq<Ref>, d: nat, i: nat, value: Ref)
    requires Inv(h, held, owed) && Usable(h, d) && i < |h.cells[d].values|
    requires InRange(owed', |h.cells|) && InRange([value], |h.cells|)
    requires forall y :: 0 <= y < |h.cells| ==>
               Count(owed', y) + Hit(y)(value) == Count(owed, y) + Hit(y)(h.cells[d].values[i])
    ensures Inv(SetSlot(h, d, i, value), held, owed')
  {
    var s := SetSlot(h, d, i, value);
    SlotShape(h, d, i, value);
    ExistingAfter(h, d, s.cells[d]);
    forall y | 0 <= y < |h.cells| ensures Balanced(s, held, owed', y) {
      SlotOccurrences(h, d, i, value, y);
      assert Balanced(h, held, owed, y);
    }
  }

  lemma SlotOccurrences(h: Heap, d: nat, i: nat, value: Ref, y: nat)
    requires Usable(h, d) && i < |h.cells[d].values|
    ensures Occurrences(SetSlot(h, d, i, value), y) + Hit(y)(h.cells[d].values[i]) == Occurrences(h, y) + Hit(y)(value)
  {
    SumByUpdate(h.cells[d].values, i, value, Hit(y));
    OccurrencesAfter(h, d, h.cells[d].(values := h.cells[d].values[i := value]), y);
  }

  lemma SlotShape(h: Heap, d: nat, i: nat, value: Ref)
    requires ChildrenInRange(h) && StaticsOk(h) && d < |h.cells| && i < |h.cells[d].values|
        && InRange([value], |h.cells|)
    ensures ChildrenInRange(SetSlot(h, d, i, value)) && StaticsOk(SetSlot(h, d, i, value))
  {
    var s := SetSlot(h, d, i, value);
    assert [value][0] == value;
    forall x | 0 <= x < |s.cells| ensures InRange(s.cells[x].keys, |s.cells|) && InRange(s.cells[x].values, |s.cells|) {
      assert InRange(h.cells[x].keys, |h.cells|) && InRange(h.cells[x].values, |h.cells|);
    }
  }

  /** As long as the dictionary itself lives, what its slot holds does not affect a release. */
  lemma {:induction false} SlotIsIgnored(h: Heap, d: nat, i: nat, value: Ref, r: Ref)
    requires d < |h.cells| && i < |h.cells[d].values| && Usable(Release(h, r), d)
    ensures i < |Release(h, r).cells[d].values|
    ensures Release(SetSlot(h, d, i, value), r) == SetSlot(Release(h, r), d, i, value)
    decreases Weight(h), 0
  {
    ReleaseShrinks(h, r);
    assert ShrunkAt(h, Release(h, r), d);
    if r.Some? && Usable(h, r.value) && !h.cells[r.value].isStatic && h.cells[r.value].rc > 0 {
      if h.cells[r.value].rc > 1 {
        RecountCommutes(h, d, i, value, r.value, h.cells[r.value].rc - 1);
      } else {
        SlotIgnoredLast(h, d, i, value, r.value);
      }
    }
  }

  lemma RecountCommutes(h: Heap, d: nat, i: nat, value: Ref, x: nat, n: nat)
    requires d < |h.cells| && i < |h.cells[d].values| && x < |h.cells|
    ensures Recount(SetSlot(h, d, i, value), x, n) == SetSlot(Recount(h, x, n), d, i, value)
  {
  }

  lemma {:induction false} SlotIgnoredLast(h: Heap, d: nat, i: nat, value: Ref, x: nat)
    requires d < |h.cells| && i < |h.cells[d].values| && Usable(Release(h, Some(x)), d)
    requires Usable(h, x) && !h.cells[x].isStatic && h.cells[x].rc == 1
    ensures i < |Release(h, Some(x)).cells[d].values|
    ensures Release(SetSlot(h, d, i, value), Some(x)) == SetSlot(Release(h, Some(x)), d, i, value)
    decreases Weight(h), 0, 0
  {
    assert x != d;
    var mid, kids := Expire(h, x), Children(h.cells[x]);
    WeightAfter(h, x, h.cells[x].(rc := 0, status := Dying));
    assert Expire(SetSlot(h, d, i, value), x) == SetSlot(mid, d, i, value);
    var s := ReleaseEach(mid, kids);
    assert Usable(s, d);
    SlotIgnoredEach(mid, d, i, value, kids);
    assert Free(SetSlot(s, d, i, value), x) == SetSlot(Free(s, x), d, i, value);
  }

  lemma {:induction false} SlotIgnoredEach(h: Heap, d: nat, i: nat, value: Ref, rs: seq<Ref>)
    requires d < |h.cells| && i < |h.cells[d].values| && Usable(ReleaseEach(h, rs), d)
    ensures i < |ReleaseEach(h, rs).cells[d].values|
    ensures ReleaseEach(SetSlot(h, d, i, value), rs) == SetSlot(ReleaseEach(h, rs), d, i, value)
    decreases Weight(h), |rs| + 1
  {
    if |rs| > 0 {
      var h1 := Release(h, rs[0]);
      ReleaseEachShrinks(h1, rs[1..]);
      assert ShrunkAt(h1, ReleaseEach(h, rs), d);
      SlotIsIgnored(h, d, i, value, rs[0]);
      SlotIgnoredEach(h1, d, i, value, rs[1..]);
    }
  }

  /** The state the release really starts from: the slot's reference is the one being dropped. */
  lemma SlotDropped(h: Heap, held: seq<nat>, d: nat, i: nat)
    requires Inv(h, held, []) && Usable(h, d) && i < |h.cells[d].values|
    ensures Inv(SetSlot(h, d, i, None), held, [h.cells[d].values[i]])
  {
    var o := h.cells[d].values[i];
    assert InRange(h.cells[d].values, |h.cells|);
    forall y ensures Count([o], y) == Hit(y)(o) {
      assert [o] + [] == [o];
      CountFirst(o, [], y);
    }
    SlotTraded(h, held, [], [o], d, i, None);
  }

  /** The slot with its reference taken out, the point from which survival is judged. */
  function Emptied(h: Heap, d: nat, i: nat): (s: Heap)
    requires d < |h.cells| && i < |h.cells[d].values|
  {
    SetSlot(h, d, i, None)
  }

  /** Replacing a value is safe exactly when the dictionary and the new value survive the loss
      of the old one; a value that lived only through the old one is retained too late. */
  lemma ReplaceSafeIff(h: Heap, held: seq<nat>, d: nat, i: nat, value: Ref)
    requires Inv(h, held, []) && Usable(h, d) && i < |h.cells[d].values| && AllUsable(h, [value])
    ensures !Replace(h, d, i, value).fault
       <==> Survives(Emptied(h, d, i), held, d) && (value.Some? ==> Survives(Emptied(h, d, i), held, value.value))
  {
    var h0, o := Emptied(h, d, i), h.cells[d].values[i];
    SlotDropped(h, held, d, i);
    ReleaseFinalizesExactly(h0, held, o, d);
    assert [value][0] == value;
    if value.Some? {
      ReleaseFinalizesExactly(h0, held, o, value.value);
    }
    if Usable(Release(h0, o), d) {
      ReplaceTracks(h, held, d, i, value);
    } else {
      ReplaceLosesDictionary(h, d, i, value);
    }
  }

  lemma ReplaceLosesDictionary(h: Heap, d: nat, i: nat, value: Ref)
    requires d < |h.cells| && i < |h.cells[d].values| && !Usable(Release(Emptied(h, d, i), h.cells[d].values[i]), d)
    ensures Replace(h, d, i, value).fault
  {
    var o := h.cells[d].values[i];
    if Usable(Release(h, o), d) {
      SlotIsIgnored(h, d, i, None, o);
    }
  }

  lemma SlotRestored(h: Heap, d: nat, i: nat)
    requires d < |h.cells| && i < |h.cells[d].values|
    ensures SetSlot(Emptied(h, d, i), d, i, h.cells[d].values[i]) == h
  {
    var o := h.cells[d].values[i];
    assert h.cells[d].values[i := None][i := o] == h.cells[d].values;
    assert h.cells[d := h.cells[d]] == h.cells;
  }

  lemma ReplaceTracks(h: Heap, held: seq<nat>, d: nat, i: nat, value: Ref)
    requires Inv(h, held, []) && Usable(h, d) && i < |h.cells[d].values| && AllUsable(h, [value])
    requires Usable(Release(Emptied(h, d, i), h.cells[d].values[i]), d)
    ensures var s0 := Release(Emptied(h, d, i), h.cells[d].values[i]);
            !Replace(h, d, i, value).fault <==> (value.Some? ==> Usable(s0, value.value))
    ensures !Replace(h, d, i, value).fault ==> Inv(Replace(h, d, i, value), held, [])
  {
    var h0, o := Emptied(h, d, i), h.cells[d].values[i];
    var s0 := Release(h0, o);
    SlotDropped(h, held, d, i);
    assert [o] + [] == [o];
    ReleaseKeeps(h0, held, o, []);
    SlotIsIgnored(h0, d, i, o, o);
    SlotRestored(h, d, i);
    ReleaseShrinks(h0, o);
    assert ShrunkAt(h0, s0, d);
    assert [value][0] == value;
    StoreTracks(s0, held, d, i, o, value, Release(h, o));
  }

  /** The second half of a replacement: retain the new value, overwrite the stale slot. */
  lemma StoreTracks(s0: Heap, held: seq<nat>, d: nat, i: nat, o: Ref, value: Ref, h1: Heap)
    requires Inv(s0, held, []) && Usable(s0, d) && i < |s0.cells[d].values| && s0.cells[d].values[i] == None
    requires h1 == SetSlot(s0, d, i, o) && (value.Some? ==> value.value < |s0.cells|)
    ensures var h2 := Retain(h1, value);
            && Usable(h2, d) && i < |h2.cells[d].values|
            && (!h2.fault <==> (value.Some? ==> Usable(s0, value.value)))
            && (!h2.fault ==> Inv(SetSlot(h2, d, i, value), held, []))
  {
    if value.Some? ==> Usable(s0, value.value) {
      RetainKeeps(s0, held, [], value);
      var s1 := Retain(s0, value);
      OverwriteSame(s0, d, i, o, value);
      forall y ensures Count([value] + [], y) == Hit(y)(value) {
        CountFirst(value, [], y);
      }
      assert [value] + [] == [value];
      SlotTraded(s1, held, [value], [], d, i, value);
    }
  }

  lemma OverwriteSame(s0: Heap, d: nat, i: nat, o: Ref, value: Ref)
    requires d < |s0.cells| && i < |s0.cells[d].values|
    ensures var h2 := Retain(SetSlot(s0, d, i, o), value);
            var s1 := Retain(s0, value);
            && |h2.cells| == |s1.cells| == |s0.cells|
            && i < |h2.cells[d].values| && i < |s1.cells[d].values|
            && s1.cells[d].values == s0.cells[d].values
            && SetSlot(h2, d, i, value) == SetSlot(s1, d, i, value)
  {
    var h2, s1 := Retain(SetSlot(s0, d, i, o), value), Retain(s0, value);
    assert SetSlot(h2, d, i, value).cells[d] == SetSlot(s1, d, i, value).cells[d] by {
      assert s0.cells[d].values[i := o][i := value] == s0.cells[d].values[i := value];
    }
    assert SetSlot(h2, d, i, value).cells == SetSlot(s1, d, i, value).cells;
  }

  lemma ReplaceKeeps(h: Heap, held: seq<nat>, d: nat, i: nat, value: Ref)
    requires Inv(h, held, []) && Usable(h, d) && i < |h.cells[d].values| && AllUsable(h, [value])
    requires !Replace(h, d, i, value).fault
    ensures Inv(Replace(h, d, i, value), held, [])
  {
    if Usable(Release(Emptied(h, d, i), h.cells[d].values[i]), d) {
      ReplaceTracks(h, held, d, i, value);
    } else {
      ReplaceLosesDictionary(h, d, i, value);
    }
  }

  /** An object the caller holds a reference to survives. */
  lemma HeldSurvives(h: Heap, held: seq<nat>, x: nat)
    requires |held| == |h.cells| && Usable(h, x) && (held[x] > 0 || h.cells[x].isStatic)
    ensures Survives(h, held, x)
  {
    assert x in {x} && Supported(h, held, {x});
  }
}
