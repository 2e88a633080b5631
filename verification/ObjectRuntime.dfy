/** The CF functions as they run: counts, contents and the live counter changed in place. */
module ObjectRuntime {
  import opened Collections
  import opened RefCounting
  import opened DictionaryLaws

  class Runtime {
    var cells: seq<Cell>
    var alive: int
    var fault: bool

    function State(): (h: Heap)
      reads this
    {
      Heap(cells, alive, fault)
    }

    constructor (statics: nat)
      ensures State() == Heap(seq(statics, _ => Cell(true, Plain, Live, 1, [], [])), 0, false)
    {
      cells := seq(statics, _ => Cell(true, Plain, Live, 1, [], []));
      alive, fault := 0, false;
    }

    method CFRetain(r: Ref)
      modifies this
      ensures State() == RefCounting.Retain(old(State()), r)
    {
      if r.None? {
        return;
      }
      if r.value >= |cells| || !cells[r.value].status.Live? {
        fault := true;
        return;
      }
      if !cells[r.value].isStatic {
        cells := cells[r.value := cells[r.value].(rc := cells[r.value].rc + 1)];
      }
    }

    /** Drops one reference and, with the last one, runs the finalizer. */
    method CFRelease(r: Ref)
      modifies this
      ensures State() == Release(old(State()), r)
      decreases Weight(State()), 0
    {
      if r.None? {
        return;
      }
      if r.value >= |cells| || !cells[r.value].status.Live? {
        fault := true;
        return;
      }
      var x, c := r.value, cells[r.value];
      if c.isStatic {
        return;
      }
      if c.rc == 0 {
        fault := true;
        return;
      }
      WeightAfter(State(), x, c.(rc := 0, status := Dying));
      if c.rc > 1 {
        cells := cells[x := c.(rc := c.rc - 1)];
        return;
      }
      cells := cells[x := c.(rc := 0, status := Dying)];
      Finalize(c);
      cells := cells[x := cells[x].(status := Freed)];
      alive := alive - 1;
    }

    /** The finalizer's loops: every key, then every value. */
    method Finalize(c: Cell)
      modifies this
      ensures State() == ReleaseEach(old(State()), Children(c))
      decreases Weight(State()), 1
    {
      ghost var start := State();
      var all := c.keys + c.values;
      var i := 0;
      while i < |all|
        invariant 0 <= i <= |all|
        invariant Weight(State()) <= Weight(start)
        invariant ReleaseEach(State(), all[i..]) == ReleaseEach(start, all)
      {
        assert all[i..][1..] == all[i + 1..];
        CFRelease(all[i]);
        i := i + 1;
      }
    }

    method RetainAll(rs: seq<Ref>)
      modifies this
      ensures State() == RetainEach(old(State()), rs)
    {
      var i := 0;
      while i < |rs|
        invariant 0 <= i <= |rs|
        invariant RetainEach(State(), rs[i..]) == RetainEach(old(State()), rs)
      {
        assert rs[i..][1..] == rs[i + 1..];
        CFRetain(rs[i]);
        i := i + 1;
      }
    }

    method CFArrayCreate(values: seq<Ref>) returns (created: nat)
      modifies this
      ensures State() == ArrayCreate(old(State()), values)
      ensures created == |old(cells)| < |cells|
    {
      RetainAll(values);
      SameLength(old(State()), values);
      created := |cells|;
      cells := cells + [Cell(false, ArrayKind, Live, 1, [], values)];
      alive := alive + 1;
    }

    /** Each key is retained just before its value. */
    method CFDictionaryCreate(keys: seq<Ref>, values: seq<Ref>) returns (created: nat)
      requires |keys| == |values|
      modifies this
      ensures State() == DictionaryCreate(old(State()), keys, values)
      ensures created == |old(cells)| < |cells|
    {
      var i := 0;
      while i < |keys|
        invariant 0 <= i <= |keys|
        invariant RetainEach(State(), Interleave(keys[i..], values[i..]))
          == RetainEach(old(State()), Interleave(keys, values))
      {
        InterleaveStep(State(), keys, values, i);
        CFRetain(keys[i]);
        CFRetain(values[i]);
        i := i + 1;
      }
      SameLength(old(State()), Interleave(keys, values));
      created := |cells|;
      cells := cells + [Cell(false, DictionaryKind, Live, 1, keys, values)];
      alive := alive + 1;
    }

    method CFDictionaryCreateCopy(d: nat) returns (created: Ref)
      modifies this
      ensures State() == DictionaryCopy(old(State()), d)
      ensures created == if IsDictionary(old(State()), d) then Some(|old(cells)|) else None
    {
      if !IsDictionary(State(), d) {
        return None;
      }
      var keys, values := cells[d].keys, cells[d].values;
      RetainAll(keys);
      RetainAll(values);
      SameLength(old(State()), keys);
      SameLength(RetainEach(old(State()), keys), values);
      created := Some(|cells|);
      cells := cells + [Cell(false, DictionaryKind, Live, 1, keys, values)];
      alive := alive + 1;
    }

    method CFDictionarySetValue(d: nat, key: Ref, value: Ref)
      modifies this
      ensures State() == SetValue(old(State()), d, key, value)
    {
      if !IsDictionary(State(), d) {
        return;
      }
      var i := Position(cells[d].keys, KeyIs(key));
      if i.Some? {
        CFRelease(cells[d].values[i.value]);
        CFRetain(value);
        if d < |cells| && cells[d].status.Live? && i.value < |cells[d].values| {
          cells := cells[d := cells[d].(values := cells[d].values[i.value := value])];
        } else {
          fault := true;
        }
        return;
      }
      CFRetain(key);
      CFRetain(value);
      cells := cells[d := cells[d].(keys := cells[d].keys + [key], values := cells[d].values + [value])];
    }

    method CFDictionaryGetValue(d: nat, key: Ref) returns (value: Ref)
      ensures value == GetValue(State(), d, key)
    {
      if !IsDictionary(State(), d) {
        return None;
      }
      var i := Position(cells[d].keys, KeyIs(key));
      if i.None? {
        return None;
      }
      return cells[d].values[i.value];
    }

    /** The attachment dictionary's side of CVBufferRemoveAttachment. */
    method RemoveAttachment(d: nat, key: Ref)
      modifies this
      ensures State() == RemoveValue(old(State()), d, key)
    {
      if !IsDictionary(State(), d) {
        return;
      }
      var i := Position(cells[d].keys, KeyIs(key));
      if i.None? {
        return;
      }
      var oldKey, oldValue := cells[d].keys[i.value], cells[d].values[i.value];
      cells := cells[d := cells[d].(keys := RemoveAt(cells[d].keys, i.value),
        values := RemoveAt(cells[d].values, i.value))];
      CFRelease(oldKey);
      CFRelease(oldValue);
    }
  }

  lemma {:induction false} SameLength(h: Heap, rs: seq<Ref>)
    ensures |RetainEach(h, rs).cells| == |h.cells|
    decreases |rs|
  {
    if |rs| > 0 {
      SameLength(RefCounting.Retain(h, rs[0]), rs[1..]);
    }
  }

  lemma InterleaveStep(h: Heap, keys: seq<Ref>, values: seq<Ref>, i: nat)
    requires i < |keys| == |values|
    ensures RetainEach(h, Interleave(keys[i..], values[i..]))
         == RetainEach(RefCounting.Retain(RefCounting.Retain(h, keys[i]), values[i]),
           Interleave(keys[i + 1..], values[i + 1..]))
  {
    var rest := Interleave(keys[i + 1..], values[i + 1..]);
    assert keys[i..][1..] == keys[i + 1..] && values[i..][1..] == values[i + 1..];
    var all := Interleave(keys[i..], values[i..]);
    assert all == [keys[i], values[i]] + rest;
    assert all[1..] == [values[i]] + rest;
    assert all[1..][1..] == rest;
  }
}
