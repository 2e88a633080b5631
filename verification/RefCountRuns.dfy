/** Whole runs of CF calls by callers that own what they release. */
module RefCountRuns {
  import opened Collections
  import opened RefCounting
  import opened RefCountInvariant
  import opened RefCountTheorems

  // ---------- the remaining dictionary operations ----------

  /** A change to one object's contents that trades references one for one. */
  lemma ContentsTraded(h: Heap, held: seq<nat>, owed: seq<Ref>, owed': seq<Ref>, d: nat, keys: seq<Ref>,
      values: seq<Ref>)
    requires Inv(h, held, owed) && Usable(h, d) && !h.cells[d].isStatic
    requires InRange(owed', |h.cells|) && InRange(keys, |h.cells|) && InRange(values, |h.cells|)
    requires forall y :: 0 <= y < |h.cells| ==>
               Count(owed', y) + Count(keys, y) + Count(values, y)
               == Count(owed, y) + Count(h.cells[d].keys, y) + Count(h.cells[d].values, y)
    ensures Inv(SetCell(h, d, h.cells[d].(keys := keys, values := values)), held, owed')
  {
    var c := h.cells[d].(keys := keys, values := values);
    var s := SetCell(h, d, c);
    ExistingAfter(h, d, c);
    forall x | 0 <= x < |s.cells| ensures InRange(s.cells[x].keys, |s.cells|) && InRange(s.cells[x].values, |s.cells|) {
      assert InRange(h.cells[x].keys, |h.cells|) && InRange(h.cells[x].values, |h.cells|);
    }
    forall y | 0 <= y < |h.cells| ensures Balanced(s, held, owed', y) {
      OccurrencesAfter(h, d, c, y);
      assert Balanced(h, held, owed, y);
    }
  }

  lemma CountLast(rs: seq<Ref>, r: Ref, y: nat)
    ensures Count(rs + [r], y) == Count(rs, y) + Hit(y)(r)
  {
    SumByAppend(rs, r, Hit(y));
  }

  lemma CountPair(a: Ref, b: Ref, y: nat)
    ensures Count([a, b], y) == Hit(y)(a) + Hit(y)(b)
  {
    assert [a, b] == [a] + [b];
    CountFirst(a, [b], y);
    assert [b] == [b] + [];
    CountFirst(b, [], y);
  }

  lemma PushKeeps(h: Heap, held: seq<nat>, d: nat, key: Ref, value: Ref)
    requires Inv(h, held, []) && Usable(h, d) && !h.cells[d].isStatic && AllUsable(h, [key, value])
    ensures Inv(PushEntry(Retain(Retain(h, key), value), d, key, value), held, [])
  {
    assert [key, value][0] == key && [key, value][1] == value;
    RetainKeeps(h, held, [], key);
    RetainKeeps(Retain(h, key), held, [key] + [], value);
    var s := Retain(Retain(h, key), value);
    assert [value] + ([key] + []) == [value, key];
    assert InRange(s.cells[d].keys, |s.cells|) && InRange(s.cells[d].values, |s.cells|);
    forall y ensures Count([], y) + Count(s.cells[d].keys + [key], y) + Count(s.cells[d].values + [value], y)
                  == Count([value, key], y) + Count(s.cells[d].keys, y) + Count(s.cells[d].values, y)
    {
      CountLast(s.cells[d].keys, key, y);
      CountLast(s.cells[d].values, value, y);
      CountPair(value, key, y);
    }
    ContentsTraded(s, held, [value, key], [], d, s.cells[d].keys + [key], s.cells[d].values + [value]);
  }

  lemma RemoveKeeps(h: Heap, held: seq<nat>, d: nat, key: Ref)
    requires Inv(h, held, []) && Usable(h, d) && !h.cells[d].isStatic && IsDictionary(h, d)
    ensures Inv(RemoveValue(h, d, key), held, [])
  {
    var found := FindKey(h, d, key);
    if found.Some? {
      var i, c := found.value, h.cells[d];
      EntryTakenOut(h, held, d, i);
      var h1 := SetCell(h, d, c.(keys := RemoveAt(c.keys, i), values := RemoveAt(c.values, i)));
      assert [c.keys[i], c.values[i]] == [c.keys[i]] + [c.values[i]];
      ReleaseKeeps(h1, held, c.keys[i], [c.values[i]]);
      assert [c.values[i]] + [] == [c.values[i]];
      ReleaseKeeps(Release(h1, c.keys[i]), held, c.values[i], []);
    }
  }

  lemma EntryTakenOut(h: Heap, held: seq<nat>, d: nat, i: nat)
    requires Inv(h, held, []) && Usable(h, d) && !h.cells[d].isStatic && i < |h.cells[d].keys| == |h.cells[d].values|
    ensures var c := h.cells[d];
            Inv(SetCell(h, d, c.(keys := RemoveAt(c.keys, i), values := RemoveAt(c.values, i))), held,
              [c.keys[i], c.values[i]])
  {
    var c := h.cells[d];
    assert InRange(c.keys, |h.cells|) && InRange(c.values, |h.cells|);
    forall y ensures Count([c.keys[i], c.values[i]], y)
                     + Count(RemoveAt(c.keys, i), y) + Count(RemoveAt(c.values, i), y)
                  == Count([], y) + Count(c.keys, y) + Count(c.values, y)
    {
      CountPair(c.keys[i], c.values[i], y);
      SumByRemove(c.keys, i, Hit(y));
      SumByRemove(c.values, i, Hit(y));
    }
    ContentsTraded(h, held, [], [c.keys[i], c.values[i]], d, RemoveAt(c.keys, i), RemoveAt(c.values, i));
  }

  // ---------- runs ----------

  datatype Action =
    | CreatePlain
    | CreateArray(values: seq<Ref>)
    | CreateDictionary(keys: seq<Ref>, values: seq<Ref>)
    | CopyDictionary(d: nat)
    | Set(d: nat, key: Ref, value: Ref)
    | Remove(d: nat, key: Ref)
    | RetainRef(r: Ref)
    | ReleaseRef(r: Ref)

  /** The heap, and how many references callers hold on each object. */
  datatype World = World(heap: Heap, held: seq<nat>)

  /** The statically allocated objects, such as the two booleans and the exported key strings. */
  function Start(statics: nat): (w: World) {
    World(Heap(seq(statics, _ => Cell(true, Plain, Live, 1, [], [])), 0, false), seq(statics, _ => 0))
  }

  predicate Ours(w: World, r: Ref) {
    r.Some? && r.value < |w.heap.cells| == |w.held| && !w.heap.cells[r.value].isStatic
  }

  function Perform(w: World, a: Action): (w': World)
    requires a.CreateDictionary? ==> |a.keys| == |a.values|
  {
    var h := w.heap;
    match a
    case CreatePlain => World(Allocate(h, Plain, [], []), w.held + [1])
    case CreateArray(values) => World(ArrayCreate(h, values), w.held + [1])
    case CreateDictionary(keys, values) => World(DictionaryCreate(h, keys, values), w.held + [1])
    case CopyDictionary(d) => World(DictionaryCopy(h, d), if IsDictionary(h, d) then w.held + [1] else w.held)
    case Set(d, key, value) => World(SetValue(h, d, key, value), w.held)
    case Remove(d, key) => World(RemoveValue(h, d, key), w.held)
    case RetainRef(r) =>
      World(RefCounting.Retain(h, r), if Ours(w, r) then w.held[r.value := w.held[r.value] + 1] else w.held)
    case ReleaseRef(r) =>
      World(Release(h, r), if Ours(w, r) && w.held[r.value] > 0 then w.held[r.value := w.held[r.value] - 1] else w.held)
  }

  /** The caller's side: only live objects are passed, only owned references are released, and
      a value put over another survives the other's release. */
  ghost predicate Allowed(w: World, a: Action)
    requires |w.held| == |w.heap.cells|
  {
    var h := w.heap;
    match a
    case CreatePlain => true
    case CreateArray(values) => AllUsable(h, values)
    case CreateDictionary(keys, values) => |keys| == |values| && AllUsable(h, keys) && AllUsable(h, values)
    case CopyDictionary(d) => Usable(h, d)
    case Set(d, key, value) =>
      && Usable(h, d) && AllUsable(h, [key, value])
      && (IsDictionary(h, d) && FindKey(h, d, key).Some? ==>
            var h0 := Emptied(h, d, FindKey(h, d, key).value);
            Survives(h0, w.held, d) && (value.Some? ==> Survives(h0, w.held, value.value)))
    case Remove(d, key) => Usable(h, d)
    case RetainRef(r) => AllUsable(h, [r])
    case ReleaseRef(r) => AllUsable(h, [r]) && (Ours(w, r) ==> w.held[r.value] > 0)
  }

  /** Between calls nothing is half finalized, and a dictionary's keys and values are parallel. */
  ghost predicate Settled(h: Heap) {
    forall x :: 0 <= x < |h.cells| ==> Whole(h.cells[x])
  }

  ghost predicate Whole(c: Cell) {
    !c.status.Dying? && (c.kind.DictionaryKind? ==> |c.keys| == |c.values|)
  }

  ghost predicate Good(w: World) {
    Inv(w.heap, w.held, []) && Settled(w.heap)
  }

  lemma StartGood(statics: nat)
    ensures Good(Start(statics))
  {
    var w := Start(statics);
    NoExisting(w.heap.cells);
  }

  lemma NoExisting(cells: seq<Cell>)
    requires forall x :: 0 <= x < |cells| ==> cells[x].isStatic
    ensures SumBy(cells, Existing()) == 0
  {
    if SumBy(cells, Existing()) > 0 {
      var i := SumByPositive(cells, Existing());
      assert false;
    }
  }

  /** Giving up a reference makes it pending; taking one on makes a pending one owned. */
  lemma HeldTraded(h: Heap, held: seq<nat>, held': seq<nat>, owed: seq<Ref>, owed': seq<Ref>)
    requires Inv(h, held, owed) && |held'| == |held| && InRange(owed', |h.cells|)
    requires forall y :: 0 <= y < |held| && !h.cells[y].isStatic ==>
        held'[y] + Count(owed', y) == held[y] + Count(owed, y)
    ensures Inv(h, held', owed')
  {
    forall y | 0 <= y < |h.cells| ensures Balanced(h, held', owed', y) {
      assert Balanced(h, held, owed, y);
    }
  }

  lemma CountOne(r: Ref, y: nat)
    ensures Count([r], y) == Hit(y)(r)
  {
    assert [r] + [] == [r];
    CountFirst(r, [], y);
  }

  lemma RetainRefKeeps(w: World, r: Ref)
    requires Good(w) && AllUsable(w.heap, [r])
    ensures Good(Perform(w, RetainRef(r)))
  {
    assert [r][0] == r;
    RetainKeeps(w.heap, w.held, [], r);
    assert [r] + [] == [r];
    forall y ensures Count([r], y) == Hit(y)(r) {
      CountOne(r, y);
    }
    var w' := Perform(w, RetainRef(r));
    HeldTraded(w'.heap, w.held, w'.held, [r], []);
  }

  lemma ReleaseRefKeeps(w: World, r: Ref)
    requires Good(w) && Allowed(w, ReleaseRef(r))
    ensures Good(Perform(w, ReleaseRef(r)))
  {
    assert [r][0] == r;
    var held' := Perform(w, ReleaseRef(r)).held;
    forall y ensures Count([r], y) == Hit(y)(r) {
      CountOne(r, y);
    }
    HeldTraded(w.heap, w.held, held', [], [r]);
    assert [r] + [] == [r];
    ReleaseKeeps(w.heap, held', r, []);
    ReleaseShrinks(w.heap, r);
    SettledShrinks(w.heap, Release(w.heap, r));
  }

  lemma SettledShrinks(h: Heap, s: Heap)
    requires Settled(h) && Shrunk(h, s)
    ensures Settled(s)
  {
    forall x | 0 <= x < |s.cells| ensures Whole(s.cells[x]) {
      assert ShrunkAt(h, s, x) && Whole(h.cells[x]);
    }
  }

  lemma NothingOwed(h: Heap, held: seq<nat>)
    requires Inv(h, held, [])
    ensures Inv(h, held, [] + [])
  {
    var none: seq<Ref> := [];
    assert none + none == none;
  }

  lemma CreateKeeps(w: World, a: Action)
    requires Good(w) && Allowed(w, a) && (a.CreatePlain? || a.CreateArray? || a.CreateDictionary? || a.CopyDictionary?)
    ensures Good(Perform(w, a))
  {
    var h := w.heap;
    match a
    case CreatePlain =>
      NothingOwed(h, w.held);
      AllocateKeeps(h, w.held, Plain, [], []);
    case CreateArray(values) =>
      ArrayCreateKeeps(h, w.held, values);
      RetainEachSettled(h, values);
    case CreateDictionary(keys, values) =>
      DictionaryCreateKeeps(h, w.held, keys, values);
      RetainEachSettled(h, Interleave(keys, values));
    case CopyDictionary(d) =>
      if IsDictionary(h, d) {
        DictionaryCopyKeeps(h, w.held, d);
        RetainEachSettled(h, h.cells[d].keys);
        RetainEachSettled(RetainEach(h, h.cells[d].keys), h.cells[d].values);
      }
  }

  lemma {:induction false} RetainEachSettled(h: Heap, rs: seq<Ref>)
    requires Settled(h)
    ensures Settled(RetainEach(h, rs))
    decreases |rs|
  {
    if |rs| > 0 {
      RetainEachSettled(RefCounting.Retain(h, rs[0]), rs[1..]);
    }
  }

  lemma SetKeeps(w: World, d: nat, key: Ref, value: Ref)
    requires Good(w) && Allowed(w, Set(d, key, value))
    ensures Good(Perform(w, Set(d, key, value)))
  {
    var h := w.heap;
    assert [key, value][1] == value && [key, value][0] == key;
    assert AllUsable(h, [value]);
    if IsDictionary(h, d) {
      var i := FindKey(h, d, key);
      if i.Some? {
        ReplaceSafeIff(h, w.held, d, i.value, value);
        ReplaceKeeps(h, w.held, d, i.value, value);
        ReplaceSettled(h, d, i.value, value);
      } else {
        PushKeeps(h, w.held, d, key, value);
        PushSettled(h, d, key, value);
      }
    }
  }

  lemma PushSettled(h: Heap, d: nat, key: Ref, value: Ref)
    requires Settled(h) && IsDictionary(h, d)
    ensures Settled(PushEntry(RefCounting.Retain(RefCounting.Retain(h, key), value), d, key, value))
  {
    RetainSettled(h, key);
    RetainSettled(RefCounting.Retain(h, key), value);
  }

  lemma RetainSettled(h: Heap, r: Ref)
    requires Settled(h)
    ensures Settled(RefCounting.Retain(h, r))
  {
  }

  lemma ReplaceSettled(h: Heap, d: nat, i: nat, value: Ref)
    requires Settled(h) && d < |h.cells| && i < |h.cells[d].values|
    ensures Settled(Replace(h, d, i, value))
  {
    var o := h.cells[d].values[i];
    ReleaseShrinks(h, o);
    SettledShrinks(h, Release(h, o));
  }

  lemma RemoveSettled(h: Heap, d: nat, key: Ref)
    requires Settled(h)
    ensures Settled(RemoveValue(h, d, key))
  {
    if IsDictionary(h, d) && FindKey(h, d, key).Some? {
      var found := FindKey(h, d, key);
      var i, c := found.value, h.cells[d];
      var h1 := SetCell(h, d, c.(keys := RemoveAt(c.keys, i), values := RemoveAt(c.values, i)));
      ReleaseShrinks(h1, c.keys[i]);
      SettledShrinks(h1, Release(h1, c.keys[i]));
      ReleaseShrinks(Release(h1, c.keys[i]), c.values[i]);
      SettledShrinks(Release(h1, c.keys[i]), Release(Release(h1, c.keys[i]), c.values[i]));
    }
  }

  lemma PerformKeeps(w: World, a: Action)
    requires Good(w) && Allowed(w, a)
    ensures Good(Perform(w, a))
  {
    match a
    case Set(d, key, value) => SetKeeps(w, d, key, value);
    case Remove(d, key) =>
      if IsDictionary(w.heap, d) {
        RemoveKeeps(w.heap, w.held, d, key);
      }
      RemoveSettled(w.heap, d, key);
    case RetainRef(r) => RetainRefKeeps(w, r);
    case ReleaseRef(r) => ReleaseRefKeeps(w, r);
    case _ => CreateKeeps(w, a);
  }

  /** `trace` lists the states of a run, every call of which the caller was allowed to make. */
  ghost predicate IsRun(statics: nat, actions: seq<Action>, trace: seq<World>) {
    && |trace| == |actions| + 1
    && trace[0] == Start(statics)
    && forall i :: 0 <= i < |actions| ==> Stepped(trace[i], actions[i], trace[i + 1])
  }

  ghost predicate Stepped(w: World, a: Action, w': World) {
    |w.held| == |w.heap.cells| && Allowed(w, a) && w' == Perform(w, a)
  }

  lemma {:induction false} RunGood(statics: nat, actions: seq<Action>, trace: seq<World>, n: nat)
    requires IsRun(statics, actions, trace) && n <= |actions|
    ensures Good(trace[n])
    decreases n
  {
    if n == 0 {
      StartGood(statics);
    } else {
      RunGood(statics, actions, trace, n - 1);
      assert Stepped(trace[n - 1], actions[n - 1], trace[n]);
      PerformKeeps(trace[n - 1], actions[n - 1]);
    }
  }

  /** In every state of every run: no freed object was ever touched; a live object's count is
      the callers' references plus its occurrences in live containers, and is positive; a freed
      object is referred to by no one; the live counter is the number of live objects. */
  lemma CountsAreExact(statics: nat, actions: seq<Action>, trace: seq<World>, n: nat)
    requires IsRun(statics, actions, trace) && n <= |actions|
    ensures var h, held := trace[n].heap, trace[n].held;
            && !h.fault && |held| == |h.cells|
            && (forall x :: 0 <= x < |h.cells| && !h.cells[x].isStatic ==> CountIsExact(h, held, x))
            && h.alive == SumBy(h.cells, LiveDynamic())
  {
    RunGood(statics, actions, trace, n);
    var h, held := trace[n].heap, trace[n].held;
    forall x | 0 <= x < |h.cells| && !h.cells[x].isStatic ensures CountIsExact(h, held, x) {
      assert Balanced(h, held, [], x);
    }
    SettledCount(h.cells);
  }

  function LiveDynamic(): (f: Cell -> nat) { (c: Cell) => if !c.isStatic && c.status.Live? then 1 else 0 }

  ghost predicate CountIsExact(h: Heap, held: seq<nat>, x: nat)
    requires x < |h.cells| == |held|
  {
    if h.cells[x].status.Live? then h.cells[x].rc == held[x] + Occurrences(h, x) > 0
    else h.cells[x].status.Freed? && held[x] == 0 && Occurrences(h, x) == 0
  }

  lemma {:induction false} SettledCount(cells: seq<Cell>)
    requires forall x :: 0 <= x < |cells| ==> Whole(cells[x])
    ensures SumBy(cells, LiveDynamic()) == SumBy(cells, Existing())
  {
    if |cells| > 0 {
      SettledCount(cells[..|cells| - 1]);
    }
  }

  // ---------- finalized once ----------

  /** An object that is gone is never touched again. */
  ghost predicate GoneStays(h: Heap, s: Heap) {
    |h.cells| <= |s.cells| && forall x :: 0 <= x < |h.cells| && h.cells[x].status.Freed? ==> s.cells[x] == h.cells[x]
  }

  lemma ShrunkGoneStays(h: Heap, s: Heap)
    requires Shrunk(h, s)
    ensures GoneStays(h, s)
  {
    forall x | 0 <= x < |h.cells| && h.cells[x].status.Freed? ensures s.cells[x] == h.cells[x] {
      assert ShrunkAt(h, s, x);
    }
  }

  lemma {:induction false} RetainEachGoneStays(h: Heap, rs: seq<Ref>)
    ensures GoneStays(h, RetainEach(h, rs))
    decreases |rs|
  {
    if |rs| > 0 {
      RetainEachGoneStays(RefCounting.Retain(h, rs[0]), rs[1..]);
    }
  }

  lemma PerformGoneStays(w: World, a: Action)
    requires |w.held| == |w.heap.cells| && Allowed(w, a)
    ensures GoneStays(w.heap, Perform(w, a).heap)
  {
    var h := w.heap;
    match a
    case Set(d, key, value) => SetGoneStays(h, d, key, value);
    case Remove(d, key) => RemoveGoneStays(h, d, key);
    case ReleaseRef(r) =>
      ReleaseShrinks(h, r);
      ShrunkGoneStays(h, Release(h, r));
    case CreateArray(values) => RetainEachGoneStays(h, values);
    case CreateDictionary(keys, values) => RetainEachGoneStays(h, Interleave(keys, values));
    case CopyDictionary(d) => CopyGoneStays(h, d);
    case _ =>
  }

  lemma SetGoneStays(h: Heap, d: nat, key: Ref, value: Ref)
    requires Usable(h, d)
    ensures GoneStays(h, SetValue(h, d, key, value))
  {
    if IsDictionary(h, d) && FindKey(h, d, key).Some? {
      ReplaceGoneStays(h, d, FindKey(h, d, key).value, value);
    }
  }

  lemma ReplaceGoneStays(h: Heap, d: nat, i: nat, value: Ref)
    requires d < |h.cells| && i < |h.cells[d].values|
    ensures GoneStays(h, Replace(h, d, i, value))
  {
    var h1 := Release(h, h.cells[d].values[i]);
    ReleaseShrinks(h, h.cells[d].values[i]);
    ShrunkGoneStays(h, h1);
    StoreGoneStays(h1, RefCounting.Retain(h1, value), d, i, value);
  }

  lemma StoreGoneStays(h1: Heap, h2: Heap, d: nat, i: nat, value: Ref)
    requires h2 == RefCounting.Retain(h1, value)
    ensures GoneStays(h1, if Usable(h2, d) && i < |h2.cells[d].values| then SetSlot(h2, d, i, value) else Fault(h2))
  {
  }

  lemma CopyGoneStays(h: Heap, d: nat)
    requires Usable(h, d)
    ensures GoneStays(h, DictionaryCopy(h, d))
  {
    RetainEachGoneStays(h, h.cells[d].keys);
    RetainEachGoneStays(RetainEach(h, h.cells[d].keys), h.cells[d].values);
  }

  lemma RemoveGoneStays(h: Heap, d: nat, key: Ref)
    requires Usable(h, d)
    ensures GoneStays(h, RemoveValue(h, d, key))
  {
    if IsDictionary(h, d) && FindKey(h, d, key).Some? {
      var found := FindKey(h, d, key);
      var i, c := found.value, h.cells[d];
      var h1 := SetCell(h, d, c.(keys := RemoveAt(c.keys, i), values := RemoveAt(c.values, i)));
      ReleaseShrinks(h1, c.keys[i]);
      ShrunkGoneStays(h1, Release(h1, c.keys[i]));
      ReleaseShrinks(Release(h1, c.keys[i]), c.values[i]);
      ShrunkGoneStays(Release(h1, c.keys[i]), Release(Release(h1, c.keys[i]), c.values[i]));
    }
  }

  /** Over a run an object is freed at most once: from then on it stays exactly as it was. */
  lemma {:induction false} FreedOnce(statics: nat, actions: seq<Action>, trace: seq<World>, i: nat, j: nat)
    requires IsRun(statics, actions, trace) && i <= j <= |actions|
    ensures GoneStays(trace[i].heap, trace[j].heap)
    decreases j - i
  {
    if i < j {
      assert Stepped(trace[i], actions[i], trace[i + 1]);
      PerformGoneStays(trace[i], actions[i]);
      FreedOnce(statics, actions, trace, i + 1, j);
    }
  }

  // ---------- how large a count can get ----------

  /** References that a call makes at most. */
  function Made(w: World, a: Action): (n: nat) {
    match a
    case CreatePlain => 1
    case CreateArray(values) => |values| + 1
    case CreateDictionary(keys, values) => |keys| + |values| + 1
    case CopyDictionary(d) =>
      if IsDictionary(w.heap, d) then |w.heap.cells[d].keys| + |w.heap.cells[d].values| + 1 else 0
    case Set(_, _, _) => 2
    case Remove(_, _) => 0
    case RetainRef(_) => 1
    case ReleaseRef(_) => 0
  }

  ghost function AllMade(actions: seq<Action>, trace: seq<World>, n: nat): (r: nat)
    requires n <= |actions| && n <= |trace|
  {
    if n == 0 then 0 else AllMade(actions, trace, n - 1) + Made(trace[n - 1], actions[n - 1])
  }

  lemma RetainWeighs(h: Heap, r: Ref)
    ensures Weight(RefCounting.Retain(h, r)) <= Weight(h) + 1
  {
    if r.Some? && Usable(h, r.value) && !h.cells[r.value].isStatic {
      WeightAfter(h, r.value, h.cells[r.value].(rc := h.cells[r.value].rc + 1));
    }
  }

  lemma {:induction false} RetainEachWeighs(h: Heap, rs: seq<Ref>)
    ensures Weight(RetainEach(h, rs)) <= Weight(h) + |rs|
    decreases |rs|
  {
    if |rs| > 0 {
      RetainWeighs(h, rs[0]);
      RetainEachWeighs(RefCounting.Retain(h, rs[0]), rs[1..]);
    }
  }

  lemma AllocateWeighs(h: Heap, kind: Kind, keys: seq<Ref>, values: seq<Ref>)
    ensures Weight(Allocate(h, kind, keys, values)) == Weight(h) + 1
  {
    SumByAppend(h.cells, Cell(false, kind, Live, 1, keys, values), CountOf());
  }

  lemma {:induction false} InterleaveLength(keys: seq<Ref>, values: seq<Ref>)
    requires |keys| == |values|
    ensures |Interleave(keys, values)| == |keys| + |values|
    decreases |keys|
  {
    if |keys| > 0 {
      InterleaveLength(keys[1..], values[1..]);
    }
  }

  lemma SetWeighs(h: Heap, d: nat, key: Ref, value: Ref)
    ensures Weight(SetValue(h, d, key, value)) <= Weight(h) + 2
  {
    if IsDictionary(h, d) {
      var i := FindKey(h, d, key);
      if i.Some? {
        ReplaceWeighs(h, d, i.value, value);
      } else {
        RetainWeighs(h, key);
        RetainWeighs(RefCounting.Retain(h, key), value);
        var s := RefCounting.Retain(RefCounting.Retain(h, key), value);
        WeightAfter(s, d, s.cells[d].(keys := s.cells[d].keys + [key], values := s.cells[d].values + [value]));
      }
    }
  }

  lemma ReplaceWeighs(h: Heap, d: nat, i: nat, value: Ref)
    requires d < |h.cells| && i < |h.cells[d].values|
    ensures Weight(Replace(h, d, i, value)) <= Weight(h) + 1
  {
    var h1 := Release(h, h.cells[d].values[i]);
    RetainWeighs(h1, value);
    var h2 := RefCounting.Retain(h1, value);
    if Usable(h2, d) && i < |h2.cells[d].values| {
      WeightAfter(h2, d, h2.cells[d].(values := h2.cells[d].values[i := value]));
    }
  }

  lemma RemoveWeighs(h: Heap, d: nat, key: Ref)
    ensures Weight(RemoveValue(h, d, key)) <= Weight(h)
  {
    if IsDictionary(h, d) && FindKey(h, d, key).Some? {
      var i, c := FindKey(h, d, key).value, h.cells[d];
      WeightAfter(h, d, c.(keys := RemoveAt(c.keys, i), values := RemoveAt(c.values, i)));
    }
  }

  lemma CopyWeighs(h: Heap, d: nat)
    requires IsDictionary(h, d)
    ensures Weight(DictionaryCopy(h, d)) <= Weight(h) + |h.cells[d].keys| + |h.cells[d].values| + 1
  {
    var c := h.cells[d];
    RetainEachWeighs(h, c.keys);
    RetainEachWeighs(RetainEach(h, c.keys), c.values);
    AllocateWeighs(RetainEach(RetainEach(h, c.keys), c.values), DictionaryKind, c.keys, c.values);
  }

  lemma PerformWeighs(w: World, a: Action)
    requires |w.held| == |w.heap.cells| && Allowed(w, a)
    ensures Weight(Perform(w, a).heap) <= Weight(w.heap) + Made(w, a)
  {
    var h := w.heap;
    match a
    case CreatePlain => AllocateWeighs(h, Plain, [], []);
    case CreateArray(values) =>
      RetainEachWeighs(h, values);
      AllocateWeighs(RetainEach(h, values), ArrayKind, [], values);
    case CreateDictionary(keys, values) =>
      InterleaveLength(keys, values);
      RetainEachWeighs(h, Interleave(keys, values));
      AllocateWeighs(RetainEach(h, Interleave(keys, values)), DictionaryKind, keys, values);
    case CopyDictionary(d) =>
      if IsDictionary(h, d) {
        CopyWeighs(h, d);
      }
    case Set(d, key, value) => SetWeighs(h, d, key, value);
    case Remove(d, key) => RemoveWeighs(h, d, key);
    case RetainRef(r) => RetainWeighs(h, r);
    case ReleaseRef(_) =>
  }

  lemma {:induction false} StartWeighs(cells: seq<Cell>)
    requires forall x :: 0 <= x < |cells| ==> cells[x].rc == 1
    ensures SumBy(cells, CountOf()) == |cells|
  {
    if |cells| > 0 {
      StartWeighs(cells[..|cells| - 1]);
    }
  }

  lemma {:induction false} RunWeighs(statics: nat, actions: seq<Action>, trace: seq<World>, n: nat)
    requires IsRun(statics, actions, trace) && n <= |actions|
    ensures Weight(trace[n].heap) <= statics + AllMade(actions, trace, n)
    decreases n
  {
    if n == 0 {
      StartWeighs(Start(statics).heap.cells);
    } else {
      RunWeighs(statics, actions, trace, n - 1);
      assert Stepped(trace[n - 1], actions[n - 1], trace[n]);
      PerformWeighs(trace[n - 1], actions[n - 1]);
    }
  }

  /** No count exceeds the references made so far, so a run that makes fewer than 2^31 of them,
      statics included, never reaches the width of the source's counter. */
  lemma CountsStayBelow(statics: nat, actions: seq<Action>, trace: seq<World>, n: nat, x: nat)
    requires IsRun(statics, actions, trace) && n <= |actions| && x < |trace[n].heap.cells|
    ensures trace[n].heap.cells[x].rc <= statics + AllMade(actions, trace, n)
  {
    RunWeighs(statics, actions, trace, n);
    SumByMember(trace[n].heap.cells, x, CountOf());
  }

  // ---------- the late retain ----------

  /** Somebody outside the containers keeps the object. */
  predicate Kept(w: World, x: nat) {
    x < |w.held| == |w.heap.cells| && (w.held[x] > 0 || w.heap.cells[x].isStatic)
  }

  /** Storing a value that the caller holds, or that is static or null, in a dictionary that the
      caller holds never touches a freed object, whatever the value replaces. */
  lemma HeldStoreIsSafe(w: World, d: nat, key: Ref, value: Ref)
    requires Good(w) && Usable(w.heap, d) && AllUsable(w.heap, [key, value])
    requires Kept(w, d) && (value.Some? ==> Kept(w, value.value))
    ensures Allowed(w, Set(d, key, value))
    ensures Good(Perform(w, Set(d, key, value))) && !SetValue(w.heap, d, key, value).fault
  {
    var h := w.heap;
    if IsDictionary(h, d) && FindKey(h, d, key).Some? {
      var h0 := Emptied(h, d, FindKey(h, d, key).value);
      HeldSurvives(h0, w.held, d);
      if value.Some? {
        assert [key, value][1] == value && Usable(h0, value.value);
        HeldSurvives(h0, w.held, value.value);
      }
    }
    SetKeeps(w, d, key, value);
  }

  /** A caller makes a value, stores it in a dictionary and gives up its own reference. */
  function HandOver(): (actions: seq<Action>) {
    [CreatePlain, CreateDictionary([], []), Set(2, Some(0), Some(1)), ReleaseRef(Some(1))]
  }

  const KEY := Cell(true, Plain, Live, 1, [], [])

  function Value(rc: nat): (c: Cell) {
    Cell(false, Plain, Live, rc, [], [])
  }

  function Dictionary(keys: seq<Ref>, values: seq<Ref>): (c: Cell) {
    Cell(false, DictionaryKind, Live, 1, keys, values)
  }

  /** Afterwards the dictionary alone keeps the value. */
  function SoleOwner(): (h: Heap) {
    Heap([KEY, Value(1), Dictionary([Some(0)], [Some(1)])], 2, false)
  }

  function HandOverTrace(): (trace: seq<World>) {
    [World(Heap([KEY], 0, false), [0]),
     World(Heap([KEY, Value(1)], 1, false), [0, 1]),
     World(Heap([KEY, Value(1), Dictionary([], [])], 2, false), [0, 1, 1]),
     World(Heap([KEY, Value(2), Dictionary([Some(0)], [Some(1)])], 2, false), [0, 1, 1]),
     World(SoleOwner(), [0, 0, 1])]
  }

  /** After this run of allowed calls, storing the value over itself frees it first: the retain
      then touches a freed object. */
  lemma StoringOverItselfFaults()
    ensures IsRun(1, HandOver(), HandOverTrace()) && HandOverTrace()[|HandOver()|].heap == SoleOwner()
    ensures Usable(SoleOwner(), 2) && AllUsable(SoleOwner(), [Some(0), Some(1)])
    ensures SetValue(SoleOwner(), 2, Some(0), Some(1)).fault
  {
    HandOverRuns();
    SoleOwnerFaults();
  }

  lemma HandOverRuns()
    ensures IsRun(1, HandOver(), HandOverTrace())
  {
    var a, t := HandOver(), HandOverTrace();
    assert t[0].heap.cells == Start(1).heap.cells;
    assert Stepped(t[0], a[0], t[1]);
    DictionaryMade();
    ValueStored();
    assert AllUsable(t[3].heap, [Some(1)]);
    assert Stepped(t[3], a[3], t[4]);
  }

  lemma DictionaryMade()
    ensures Stepped(HandOverTrace()[1], HandOver()[1], HandOverTrace()[2])
  {
    var w := HandOverTrace()[1];
    assert Interleave([], []) == [] && RetainEach(w.heap, []) == w.heap;
    assert w.heap.cells + [Dictionary([], [])] == HandOverTrace()[2].heap.cells;
    assert w.held + [1] == HandOverTrace()[2].held;
    assert AllUsable(w.heap, []);
    assert DictionaryCreate(w.heap, [], []) == HandOverTrace()[2].heap;
  }

  lemma ValueStored()
    ensures Stepped(HandOverTrace()[2], HandOver()[2], HandOverTrace()[3])
  {
    var w := HandOverTrace()[2];
    assert FindKey(w.heap, 2, Some(0)) == None;
    assert AllUsable(w.heap, [Some(0), Some(1)]);
    var h := RefCounting.Retain(RefCounting.Retain(w.heap, Some(0)), Some(1));
    assert h.cells == [KEY, Value(2), Dictionary([], [])];
    var none: seq<Ref> := [];
    assert none + [Some(0)] == [Some(0)] && none + [Some(1)] == [Some(1)];
    assert PushEntry(h, 2, Some(0), Some(1)).cells == HandOverTrace()[3].heap.cells;
    assert SetValue(w.heap, 2, Some(0), Some(1)) == HandOverTrace()[3].heap;
  }

  lemma SoleOwnerFaults()
    ensures SetValue(SoleOwner(), 2, Some(0), Some(1)).fault
  {
    var h := SoleOwner();
    IndexWhereIs(h.cells[2].keys, KeyIs(Some(0)), 0);
    assert FindKey(h, 2, Some(0)) == Some(0);
    var mid := Expire(h, 1);
    assert Children(h.cells[1]) == [];
    assert ReleaseEach(mid, []) == mid;
    assert Release(h, Some(1)) == Free(mid, 1);
    assert !Usable(Free(mid, 1), 1);
  }
}
