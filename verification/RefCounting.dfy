/** CoreFoundation-style reference counting: what CFRetain, CFRelease and the container
    functions do to the object graph. Objects are indices into one growing table. */
module RefCounting {
  import opened Collections

  type Ref = Option<nat>

  datatype Kind = Plain | ArrayKind | DictionaryKind

  /** `Dying` is the time between the count reaching zero and the memory being given back. */
  datatype Status = Live | Dying | Freed

  datatype Cell = Cell(isStatic: bool, kind: Kind, status: Status, rc: nat, keys: seq<Ref>, values: seq<Ref>)

  /** `alive` is the process-wide counter of dynamic objects. `fault` records that some call
      touched an object that was no longer live. */
  datatype Heap = Heap(cells: seq<Cell>, alive: int, fault: bool)

  function CountOf(): (f: Cell -> nat) { (c: Cell) => c.rc }

  function Weight(h: Heap): (n: nat) {
    SumBy(h.cells, CountOf())
  }

  predicate Usable(h: Heap, x: nat) {
    x < |h.cells| && h.cells[x].status.Live?
  }

  function Fault(h: Heap): (r: Heap) {
    h.(fault := true)
  }

  function SetCell(h: Heap, x: nat, c: Cell): (r: Heap)
    requires x < |h.cells|
  {
    h.(cells := h.cells[x := c])
  }

  lemma WeightAfter(h: Heap, x: nat, c: Cell)
    requires x < |h.cells|
    ensures Weight(SetCell(h, x, c)) + h.cells[x].rc == Weight(h) + c.rc
  {
    SumByUpdate(h.cells, x, c, CountOf());
  }

  // ---------- CFRetain and CFRelease ----------

  function Retain(h: Heap, r: Ref): (s: Heap) {
    if r.None? then h
    else if !Usable(h, r.value) then Fault(h)
    else if h.cells[r.value].isStatic then h
    else SetCell(h, r.value, h.cells[r.value].(rc := h.cells[r.value].rc + 1))
  }

  function Children(c: Cell): (rs: seq<Ref>) {
    c.keys + c.values
  }

  /** The count has reached zero: the finalizer is about to run. */
  function Expire(h: Heap, x: nat): (r: Heap)
    requires x < |h.cells|
  {
    SetCell(h, x, h.cells[x].(rc := 0, status := Dying))
  }

  /** The finalizer has run: the memory is given back and the counter drops. */
  function Free(h: Heap, x: nat): (r: Heap)
    requires x < |h.cells|
    ensures Weight(r) == Weight(h)
  {
    WeightAfter(h, x, h.cells[x].(status := Freed));
    SetCell(h, x, h.cells[x].(status := Freed)).(alive := h.alive - 1)
  }

  /** Dropping the last reference releases the children, keys before values, and then frees
      the object. The total count falls with every step, which is why this ends. */
  function Release(h: Heap, r: Ref): (s: Heap)
    ensures |s.cells| == |h.cells| && Weight(s) <= Weight(h)
    decreases Weight(h), 0
  {
    if r.None? then h
    else if !Usable(h, r.value) then Fault(h)
    else
      var x, c := r.value, h.cells[r.value];
      if c.isStatic then h
      else if c.rc == 0 then Fault(h)
      else if c.rc > 1 then WeightAfter(h, x, c.(rc := c.rc - 1)); SetCell(h, x, c.(rc := c.rc - 1))
      else
        WeightAfter(h, x, c.(rc := 0, status := Dying));
        Free(ReleaseEach(Expire(h, x), Children(c)), x)
  }

  function ReleaseEach(h: Heap, rs: seq<Ref>): (s: Heap)
    ensures |s.cells| == |h.cells| && Weight(s) <= Weight(h)
    decreases Weight(h), |rs| + 1
  {
    if |rs| == 0 then h else ReleaseEach(Release(h, rs[0]), rs[1..])
  }

  function RetainEach(h: Heap, rs: seq<Ref>): (s: Heap)
    decreases |rs|
  {
    if |rs| == 0 then h else RetainEach(Retain(h, rs[0]), rs[1..])
  }

  // ---------- containers ----------

  /** A new dynamic object, born with one reference for its creator. */
  function Allocate(h: Heap, kind: Kind, keys: seq<Ref>, values: seq<Ref>): (s: Heap) {
    h.(cells := h.cells + [Cell(false, kind, Live, 1, keys, values)], alive := h.alive + 1)
  }

  function ArrayCreate(h: Heap, values: seq<Ref>): (s: Heap) {
    Allocate(RetainEach(h, values), ArrayKind, [], values)
  }

  /** Keys and values are retained in turn. */
  function Interleave(keys: seq<Ref>, values: seq<Ref>): (r: seq<Ref>)
    requires |keys| == |values|
    decreases |keys|
  {
    if |keys| == 0 then [] else [keys[0], values[0]] + Interleave(keys[1..], values[1..])
  }

  function DictionaryCreate(h: Heap, keys: seq<Ref>, values: seq<Ref>): (s: Heap)
    requires |keys| == |values|
  {
    Allocate(RetainEach(h, Interleave(keys, values)), DictionaryKind, keys, values)
  }

  /** Anything but a dictionary is refused and nothing is created. */
  function DictionaryCopy(h: Heap, d: nat): (s: Heap) {
    if !IsDictionary(h, d) then h
    else
      var c := h.cells[d];
      Allocate(RetainEach(RetainEach(h, c.keys), c.values), DictionaryKind, c.keys, c.values)
  }

  predicate IsDictionary(h: Heap, d: nat) {
    d < |h.cells| && h.cells[d].kind.DictionaryKind? && |h.cells[d].keys| == |h.cells[d].values|
  }

  /** Keys are compared as pointers. */
  function KeyIs(key: Ref): (p: Ref -> bool) { (k: Ref) => k == key }

  function FindKey(h: Heap, d: nat, key: Ref): (i: Option<nat>)
    requires IsDictionary(h, d)
    ensures i.Some? ==> i.value < |h.cells[d].keys|
  {
    IndexWhere(h.cells[d].keys, KeyIs(key))
  }

  function SetSlot(h: Heap, d: nat, i: nat, value: Ref): (s: Heap)
    requires d < |h.cells| && i < |h.cells[d].values|
  {
    SetCell(h, d, h.cells[d].(values := h.cells[d].values[i := value]))
  }

  function PushEntry(h: Heap, d: nat, key: Ref, value: Ref): (s: Heap)
    requires d < |h.cells|
  {
    SetCell(h, d, h.cells[d].(keys := h.cells[d].keys + [key], values := h.cells[d].values + [value]))
  }

  /** The old value is released before the new one is retained, and is in its slot meanwhile. */
  function Replace(h: Heap, d: nat, i: nat, value: Ref): (s: Heap)
    requires d < |h.cells| && i < |h.cells[d].values|
  {
    var h1 := Release(h, h.cells[d].values[i]);
    var h2 := Retain(h1, value);
    if Usable(h2, d) && i < |h2.cells[d].values| then SetSlot(h2, d, i, value) else Fault(h2)
  }

  function SetValue(h: Heap, d: nat, key: Ref, value: Ref): (s: Heap) {
    if !IsDictionary(h, d) then h
    else
      var i := FindKey(h, d, key);
      if i.Some? then Replace(h, d, i.value, value)
      else PushEntry(Retain(Retain(h, key), value), d, key, value)
  }

  /** Taking an attachment off: the entry goes first, then its two references. */
  function RemoveValue(h: Heap, d: nat, key: Ref): (s: Heap) {
    if !IsDictionary(h, d) || FindKey(h, d, key).None? then h
    else
      var i := FindKey(h, d, key);
      var c := h.cells[d];
      var h1 := SetCell(h, d, c.(keys := RemoveAt(c.keys, i.value), values := RemoveAt(c.values, i.value)));
      Release(Release(h1, c.keys[i.value]), c.values[i.value])
  }
}
