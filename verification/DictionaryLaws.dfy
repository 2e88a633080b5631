/** What containers hold: looking up, storing and removing by key, and the contents of new
    containers. Lookups are described from the front of the entry list. */
module DictionaryLaws {
  import opened Collections
  import opened RefCounting
  import opened RefCountInvariant

  // ---------- the entry list ----------

  /** The value of the first entry with this key. */
  function Lookup(keys: seq<Ref>, values: seq<Ref>, key: Ref): (r: Option<Ref>)
    requires |keys| == |values|
    decreases |keys|
  {
    if |keys| == 0 then None
    else if keys[0] == key then Some(values[0])
    else Lookup(keys[1..], values[1..], key)
  }

  /** Entry `i` is the first with this key. */
  ghost predicate FirstAt(keys: seq<Ref>, key: Ref, i: nat) {
    i < |keys| && keys[i] == key && forall j :: 0 <= j < i ==> keys[j] != key
  }

  lemma {:induction false} LookupIs(keys: seq<Ref>, values: seq<Ref>, key: Ref, i: nat)
    requires |keys| == |values| && FirstAt(keys, key, i)
    ensures Lookup(keys, values, key) == Some(values[i])
    decreases |keys|
  {
    if i > 0 {
      assert keys[0] != key;
      assert FirstAt(keys[1..], key, i - 1);
      LookupIs(keys[1..], values[1..], key, i - 1);
    }
  }

  lemma {:induction false} LookupNone(keys: seq<Ref>, values: seq<Ref>, key: Ref)
    requires |keys| == |values| && key !in keys
    ensures Lookup(keys, values, key) == None
    decreases |keys|
  {
    if |keys| > 0 {
      LookupNone(keys[1..], values[1..], key);
    }
  }

  /** The value stored under a key, null if there is none. */
  function GetValue(h: Heap, d: nat, key: Ref): (value: Ref) {
    if !IsDictionary(h, d) || FindKey(h, d, key).None? then None
    else h.cells[d].values[FindKey(h, d, key).value]
  }

  lemma FoundFirst(h: Heap, d: nat, key: Ref)
    requires IsDictionary(h, d)
    ensures var i := FindKey(h, d, key);
            if key in h.cells[d].keys then i.Some? && FirstAt(h.cells[d].keys, key, i.value) else i.None?
  {
    var keys, i := h.cells[d].keys, FindKey(h, d, key);
    assert forall j :: 0 <= j < |keys| ==> KeyIs(key)(keys[j]) == (keys[j] == key);
    if key in keys {
      var j :| 0 <= j < |keys| && keys[j] == key;
      assert KeyIs(key)(keys[j]);
    }
  }

  /** A lookup gives the value of the first entry with the key. */
  lemma GetIsLookup(h: Heap, d: nat, key: Ref)
    requires IsDictionary(h, d)
    ensures GetValue(h, d, key)
         == match Lookup(h.cells[d].keys, h.cells[d].values, key) case Some(v) => v case None => None
  {
    var c := h.cells[d];
    FoundFirst(h, d, key);
    if key in c.keys {
      LookupIs(c.keys, c.values, key, FindKey(h, d, key).value);
    } else {
      LookupNone(c.keys, c.values, key);
    }
  }

  // ---------- contents do not change by counting ----------

  ghost predicate SameContents(h: Heap, s: Heap, x: nat) {
    && x < |h.cells| <= |s.cells| && s.cells[x].kind == h.cells[x].kind && s.cells[x].isStatic == h.cells[x].isStatic
    && s.cells[x].keys == h.cells[x].keys && s.cells[x].values == h.cells[x].values
  }

  ghost predicate AllSame(h: Heap, s: Heap) {
    |s.cells| == |h.cells| && forall x :: 0 <= x < |h.cells| ==> SameContents(h, s, x)
  }

  lemma RetainSame(h: Heap, r: Ref)
    ensures AllSame(h, Retain(h, r))
  {
  }

  lemma ReleaseSame(h: Heap, r: Ref)
    ensures AllSame(h, Release(h, r))
  {
    ReleaseShrinks(h, r);
    forall x | 0 <= x < |h.cells| ensures SameContents(h, Release(h, r), x) {
      assert ShrunkAt(h, Release(h, r), x);
    }
  }

  lemma {:induction false} RetainEachSame(h: Heap, rs: seq<Ref>)
    ensures AllSame(h, RetainEach(h, rs))
    decreases |rs|
  {
    if |rs| > 0 {
      RetainSame(h, rs[0]);
      RetainEachSame(Retain(h, rs[0]), rs[1..]);
      SameTwice(h, Retain(h, rs[0]), RetainEach(h, rs));
    }
  }

  lemma SameTwice(a: Heap, b: Heap, c: Heap)
    requires AllSame(a, b) && AllSame(b, c)
    ensures AllSame(a, c)
  {
    forall x | 0 <= x < |a.cells| ensures SameContents(a, c, x) {
      assert SameContents(a, b, x) && SameContents(b, c, x);
    }
  }

  /** Only object `d` has other contents, namely these. */
  ghost predicate OnlyIn(h: Heap, s: Heap, d: nat, keys: seq<Ref>, values: seq<Ref>) {
    && |s.cells| == |h.cells| && d < |h.cells| && s.cells[d].keys == keys && s.cells[d].values == values
    && s.cells[d].kind == h.cells[d].kind
    && forall x :: 0 <= x < |h.cells| && x != d ==> SameContents(h, s, x)
  }

  lemma OnlyInAfter(h: Heap, mid: Heap, s: Heap, d: nat, keys: seq<Ref>, values: seq<Ref>)
    requires AllSame(h, mid) && OnlyIn(mid, s, d, keys, values)
    ensures OnlyIn(h, s, d, keys, values)
  {
    assert SameContents(h, mid, d);
    forall x | 0 <= x < |h.cells| && x != d ensures SameContents(h, s, x) {
      assert SameContents(h, mid, x) && SameContents(mid, s, x);
    }
  }

  lemma OnlyInThen(h: Heap, mid: Heap, s: Heap, d: nat, keys: seq<Ref>, values: seq<Ref>)
    requires OnlyIn(h, mid, d, keys, values) && AllSame(mid, s)
    ensures OnlyIn(h, s, d, keys, values)
  {
    assert SameContents(mid, s, d);
    forall x | 0 <= x < |h.cells| && x != d ensures SameContents(h, s, x) {
      assert SameContents(h, mid, x) && SameContents(mid, s, x);
    }
  }

  // ---------- storing ----------

  /** Storing under a key that is there puts the value into the first entry with that key and
      changes no other entry of any container. */
  lemma StoreReplaces(h: Heap, d: nat, key: Ref, value: Ref, i: nat)
    requires IsDictionary(h, d) && FirstAt(h.cells[d].keys, key, i) && !SetValue(h, d, key, value).fault
    ensures OnlyIn(h, SetValue(h, d, key, value), d, h.cells[d].keys, h.cells[d].values[i := value])
  {
    FoundFirst(h, d, key);
    var h1 := Release(h, h.cells[d].values[i]);
    var h2 := Retain(h1, value);
    ReleaseSame(h, h.cells[d].values[i]);
    RetainSame(h1, value);
    SameTwice(h, h1, h2);
    assert SameContents(h, h2, d);
    assert Usable(h2, d) && i < |h2.cells[d].values|;
    SlotOnly(h2, d, i, value);
    OnlyInAfter(h, h2, SetSlot(h2, d, i, value), d, h.cells[d].keys, h.cells[d].values[i := value]);
  }

  lemma SlotOnly(h: Heap, d: nat, i: nat, value: Ref)
    requires d < |h.cells| && i < |h.cells[d].values|
    ensures OnlyIn(h, SetSlot(h, d, i, value), d, h.cells[d].keys, h.cells[d].values[i := value])
  {
  }

  /** Storing under a new key appends the entry. */
  lemma StoreAppends(h: Heap, d: nat, key: Ref, value: Ref)
    requires IsDictionary(h, d) && key !in h.cells[d].keys
    ensures OnlyIn(h, SetValue(h, d, key, value), d, h.cells[d].keys + [key], h.cells[d].values + [value])
  {
    FoundFirst(h, d, key);
    var h2 := Retain(Retain(h, key), value);
    RetainSame(h, key);
    RetainSame(Retain(h, key), value);
    SameTwice(h, Retain(h, key), h2);
    assert SameContents(h, h2, d);
    PushOnly(h2, d, key, value);
    OnlyInAfter(h, h2, PushEntry(h2, d, key, value), d, h.cells[d].keys + [key], h.cells[d].values + [value]);
  }

  lemma PushOnly(h: Heap, d: nat, key: Ref, value: Ref)
    requires d < |h.cells|
    ensures OnlyIn(h, PushEntry(h, d, key, value), d, h.cells[d].keys + [key], h.cells[d].values + [value])
  {
  }

  /** What was stored under a key is found under it, and under every other key what was there. */
  lemma StoreThenGet(h: Heap, d: nat, key: Ref, value: Ref, other: Ref)
    requires IsDictionary(h, d) && !SetValue(h, d, key, value).fault
    ensures var s := SetValue(h, d, key, value);
            && IsDictionary(s, d) && GetValue(s, d, key) == value
            && (other != key ==> GetValue(s, d, other) == GetValue(h, d, other))
  {
    var s, c := SetValue(h, d, key, value), h.cells[d];
    FoundFirst(h, d, key);
    if key in c.keys {
      var i := FindKey(h, d, key).value;
      StoreReplaces(h, d, key, value, i);
      GetAfter(h, s, d, c.keys, c.values[i := value]);
      LookupIs(c.keys, c.values[i := value], key, i);
      if other != key {
        LookupElsewhere(c.keys, c.values, i, value, other);
      }
    } else {
      StoreAppends(h, d, key, value);
      GetAfter(h, s, d, c.keys + [key], c.values + [value]);
      LookupLonger(c.keys, c.values, key, value, key);
      LookupLonger(c.keys, c.values, key, value, other);
      LookupNone(c.keys, c.values, key);
    }
    GetIsLookup(h, d, other);
    GetIsLookup(s, d, key);
    GetIsLookup(s, d, other);
  }

  lemma GetAfter(h: Heap, s: Heap, d: nat, keys: seq<Ref>, values: seq<Ref>)
    requires IsDictionary(h, d) && OnlyIn(h, s, d, keys, values) && |keys| == |values|
    ensures IsDictionary(s, d)
  {
  }

  lemma {:induction false} LookupElsewhere(keys: seq<Ref>, values: seq<Ref>, i: nat, value: Ref, other: Ref)
    requires |keys| == |values| && i < |keys| && keys[i] != other
    ensures Lookup(keys, values[i := value], other) == Lookup(keys, values, other)
    decreases |keys|
  {
    if i > 0 {
      assert values[i := value][1..] == values[1..][i - 1 := value];
      LookupElsewhere(keys[1..], values[1..], i - 1, value, other);
    } else {
      assert values[i := value][1..] == values[1..];
    }
  }

  lemma {:induction false} LookupLonger(keys: seq<Ref>, values: seq<Ref>, key: Ref, value: Ref, other: Ref)
    requires |keys| == |values|
    ensures Lookup(keys + [key], values + [value], other)
         == match Lookup(keys, values, other)
            case Some(v) => Some(v)
            case None => if other == key then Some(value) else None
    decreases |keys|
  {
    if |keys| > 0 {
      assert (keys + [key])[1..] == keys[1..] + [key] && (values + [value])[1..] == values[1..] + [value];
      LookupLonger(keys[1..], values[1..], key, value, other);
    } else {
      assert (keys + [key])[1..] == [] && (values + [value])[1..] == [];
    }
  }

  // ---------- removing ----------

  /** Removing by key takes out the first entry with that key and no other. */
  lemma RemoveTakesFirst(h: Heap, d: nat, key: Ref, i: nat)
    requires IsDictionary(h, d) && FirstAt(h.cells[d].keys, key, i)
    ensures var c := h.cells[d];
            OnlyIn(h, RemoveValue(h, d, key), d, c.keys[..i] + c.keys[i + 1..], c.values[..i] + c.values[i + 1..])
  {
    FoundFirst(h, d, key);
    var c := h.cells[d];
    var keys, values := c.keys[..i] + c.keys[i + 1..], c.values[..i] + c.values[i + 1..];
    var h1 := SetCell(h, d, c.(keys := keys, values := values));
    CellOnly(h, d, keys, values);
    ReleaseSame(h1, c.keys[i]);
    ReleaseSame(Release(h1, c.keys[i]), c.values[i]);
    SameTwice(h1, Release(h1, c.keys[i]), Release(Release(h1, c.keys[i]), c.values[i]));
    OnlyInThen(h, h1, Release(Release(h1, c.keys[i]), c.values[i]), d, keys, values);
  }

  lemma CellOnly(h: Heap, d: nat, keys: seq<Ref>, values: seq<Ref>)
    requires d < |h.cells|
    ensures OnlyIn(h, SetCell(h, d, h.cells[d].(keys := keys, values := values)), d, keys, values)
  {
  }

  lemma RemoveAbsent(h: Heap, d: nat, key: Ref)
    requires !IsDictionary(h, d) || key !in h.cells[d].keys
    ensures RemoveValue(h, d, key) == h
  {
    if IsDictionary(h, d) {
      FoundFirst(h, d, key);
    }
  }

  // ---------- new containers ----------

  /** A new array is the next object, live with one reference, and holds the values in order. */
  lemma ArrayHolds(h: Heap, values: seq<Ref>)
    ensures var s := ArrayCreate(h, values);
            && |s.cells| == |h.cells| + 1 && s.alive == RetainEach(h, values).alive + 1
            && s.cells[|h.cells|] == Cell(false, ArrayKind, Live, 1, [], values)
            && forall x :: 0 <= x < |h.cells| ==> SameContents(h, s, x)
  {
    RetainEachSame(h, values);
    NewLast(h, RetainEach(h, values), ArrayCreate(h, values), Cell(false, ArrayKind, Live, 1, [], values));
  }

  lemma NewLast(h: Heap, mid: Heap, s: Heap, c: Cell)
    requires AllSame(h, mid) && s.cells == mid.cells + [c]
    ensures |s.cells| == |h.cells| + 1 && s.cells[|h.cells|] == c
    ensures forall x :: 0 <= x < |h.cells| ==> SameContents(h, s, x)
  {
    forall x | 0 <= x < |h.cells| ensures SameContents(h, s, x) {
      assert SameContents(h, mid, x);
    }
  }

  lemma DictionaryHolds(h: Heap, keys: seq<Ref>, values: seq<Ref>)
    requires |keys| == |values|
    ensures var s := DictionaryCreate(h, keys, values);
            && |s.cells| == |h.cells| + 1
            && s.cells[|h.cells|] == Cell(false, DictionaryKind, Live, 1, keys, values)
            && forall x :: 0 <= x < |h.cells| ==> SameContents(h, s, x)
  {
    RetainEachSame(h, Interleave(keys, values));
    NewLast(h, RetainEach(h, Interleave(keys, values)), DictionaryCreate(h, keys, values),
            Cell(false, DictionaryKind, Live, 1, keys, values));
  }

  /** A copy is a new dictionary with the same entries. */
  lemma CopyHolds(h: Heap, d: nat)
    requires IsDictionary(h, d)
    ensures var s := DictionaryCopy(h, d);
            && |s.cells| == |h.cells| + 1
            && s.cells[|h.cells|] == Cell(false, DictionaryKind, Live, 1, h.cells[d].keys, h.cells[d].values)
            && forall x :: 0 <= x < |h.cells| ==> SameContents(h, s, x)
  {
    var c := h.cells[d];
    var h1 := RetainEach(h, c.keys);
    RetainEachSame(h, c.keys);
    RetainEachSame(h1, c.values);
    SameTwice(h, h1, RetainEach(h1, c.values));
    NewLast(h, RetainEach(h1, c.values), DictionaryCopy(h, d), Cell(false, DictionaryKind, Live, 1, c.keys, c.values));
  }
}
