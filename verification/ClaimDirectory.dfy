/** The worker's directory of shared surfaces, claimed and released by its connections. */
module ClaimDirectory {
  import opened Bits
  import opened Collections

  datatype Shape = Shape(width: u32, height: u32, format: u32)

  datatype Entry = Entry(shape: Shape, claimed: bool)

  function Available(shape: Shape): (p: Entry -> bool) { (e: Entry) => !e.claimed && e.shape == shape }

  function SetClaim(entries: seq<Entry>, i: nat, claimed: bool): (r: seq<Entry>)
    requires i < |entries|
    ensures |r| == |entries|
  {
    entries[i := entries[i].(claimed := claimed)]
  }

  /** First unclaimed entry of the shape. */
  function Take(entries: seq<Entry>, shape: Shape): (r: (seq<Entry>, Option<nat>)) {
    var i := IndexWhere(entries, Available(shape));
    if i.None? then (entries, None) else (SetClaim(entries, i.value, true), i)
  }

  /** Clears the flag, whoever asks; an unknown id does nothing. */
  function Release(entries: seq<Entry>, id: nat): (r: seq<Entry>) {
    if id < |entries| then SetClaim(entries, id, false) else entries
  }

  class Directory {
    var entries: seq<Entry>

    constructor (shapes: seq<Shape>)
      ensures |entries| == |shapes| && forall i :: 0 <= i < |shapes| ==> entries[i] == Entry(shapes[i], false)
    {
      entries := seq(|shapes|, i requires 0 <= i < |shapes| => Entry(shapes[i], false));
    }

    method TakeMatching(shape: Shape) returns (id: Option<nat>)
      modifies this
      ensures (entries, id) == Take(old(entries), shape)
    {
      var i := 0;
      while i < |entries|
        invariant 0 <= i <= |entries| && entries == old(entries)
        invariant forall k :: 0 <= k < i ==> !Available(shape)(entries[k])
      {
        if !entries[i].claimed && entries[i].shape == shape {
          IndexWhereIs(entries, Available(shape), i);
          entries := SetClaim(entries, i, true);
          return Some(i);
        }
        i := i + 1;
      }
      return None;
    }

    method ReleaseEntry(id: nat)
      modifies this
      ensures entries == Release(old(entries), id)
    {
      if id < |entries| {
        entries := SetClaim(entries, id, false);
      }
    }
  }

  // ---------- connections ----------

  /** A claim some connection was given and has not released. */
  datatype Hold = Hold(connection: nat, id: nat)

  datatype World = World(entries: seq<Entry>, holds: seq<Hold>)

  datatype Action = Claim(connection: nat, shape: Shape) | GiveBack(connection: nat, id: nat)

  function HoldIs(connection: nat, id: nat): (p: Hold -> bool) { (h: Hold) => h == Hold(connection, id) }

  function Act(w: World, a: Action): (w': World) {
    match a
    case Claim(connection, shape) =>
      var (entries, id) := Take(w.entries, shape);
      World(entries, if id.Some? then w.holds + [Hold(connection, id.value)] else w.holds)
    case GiveBack(connection, id) =>
      var i := IndexWhere(w.holds, HoldIs(connection, id));
      World(Release(w.entries, id), if i.Some? then RemoveAt(w.holds, i.value) else w.holds)
  }

  function Play(w: World, actions: seq<Action>): (w': World) {
    if |actions| == 0 then w else Act(Play(w, actions[..|actions| - 1]), actions[|actions| - 1])
  }

  /** A connection releases only what it holds. */
  predicate Honest(w: World, a: Action) {
    a.GiveBack? ==> IndexWhere(w.holds, HoldIs(a.connection, a.id)).Some?
  }

  predicate AllHonest(w: World, actions: seq<Action>) {
    |actions| > 0 ==>
      var before := actions[..|actions| - 1];
      AllHonest(w, before) && Honest(Play(w, before), actions[|actions| - 1])
  }

  // ---------- exclusion ----------

  ghost predicate IsHeld(holds: seq<Hold>, id: nat) {
    exists k :: 0 <= k < |holds| && holds[k].id == id
  }

  /** Held entries are pairwise different, and are exactly the claimed ones. */
  ghost predicate Exclusive(w: World) {
    && (forall j, k :: 0 <= j < k < |w.holds| ==> w.holds[j].id != w.holds[k].id)
    && (forall k :: 0 <= k < |w.holds| ==> w.holds[k].id < |w.entries|)
    && (forall i :: 0 <= i < |w.entries| ==> (w.entries[i].claimed <==> IsHeld(w.holds, i)))
  }

  lemma ClaimKeepsExclusive(w: World, connection: nat, shape: Shape)
    requires Exclusive(w)
    ensures Exclusive(Act(w, Claim(connection, shape)))
  {
    var w' := Act(w, Claim(connection, shape));
    var id := Take(w.entries, shape).1;
    if id.Some? {
      forall i | 0 <= i < |w'.entries| ensures w'.entries[i].claimed <==> IsHeld(w'.holds, i) {
        HeldAfterPush(w.holds, Hold(connection, id.value), i);
      }
    }
  }

  lemma HeldAfterPush(holds: seq<Hold>, h: Hold, id: nat)
    ensures IsHeld(holds + [h], id) <==> IsHeld(holds, id) || h.id == id
  {
    var all := holds + [h];
    if IsHeld(holds, id) {
      var k :| 0 <= k < |holds| && holds[k].id == id;
      assert all[k].id == id;
    }
    if h.id == id {
      assert all[|holds|].id == id;
    }
  }

  lemma HeldAfterRemove(holds: seq<Hold>, at: nat, id: nat)
    requires at < |holds| && forall j, k :: 0 <= j < k < |holds| ==> holds[j].id != holds[k].id
    ensures IsHeld(RemoveAt(holds, at), id) <==> IsHeld(holds, id) && holds[at].id != id
  {
    var rest := RemoveAt(holds, at);
    if IsHeld(holds, id) && holds[at].id != id {
      var k :| 0 <= k < |holds| && holds[k].id == id;
      assert rest[if k < at then k else k - 1].id == id;
    }
    if IsHeld(rest, id) {
      var k :| 0 <= k < |rest| && rest[k].id == id;
      assert holds[if k < at then k else k + 1].id == id;
    }
  }

  lemma GiveBackKeepsExclusive(w: World, connection: nat, id: nat)
    requires Exclusive(w) && Honest(w, GiveBack(connection, id))
    ensures Exclusive(Act(w, GiveBack(connection, id)))
  {
    var w' := Act(w, GiveBack(connection, id));
    var at := IndexWhere(w.holds, HoldIs(connection, id)).value;
    assert HoldIs(connection, id)(w.holds[at]);
    forall i | 0 <= i < |w'.entries| ensures w'.entries[i].claimed <==> IsHeld(w'.holds, i) {
      HeldAfterRemove(w.holds, at, i);
    }
  }

  /** A release by someone who does not hold the entry is harmless exactly when nobody does. */
  lemma StrayReleaseSafeIff(w: World, connection: nat, id: nat)
    requires Exclusive(w) && !Honest(w, GiveBack(connection, id))
    ensures Exclusive(Act(w, GiveBack(connection, id))) <==> !IsHeld(w.holds, id)
  {
    var w' := Act(w, GiveBack(connection, id));
    assert w'.holds == w.holds;
    if IsHeld(w.holds, id) {
      var k :| 0 <= k < |w.holds| && w.holds[k].id == id;
      assert id < |w.entries| && !w'.entries[id].claimed;
    }
  }

  function Unclaimed(shapes: seq<Shape>): (w: World)
    ensures |w.entries| == |shapes| && forall i :: 0 <= i < |shapes| ==> w.entries[i] == Entry(shapes[i], false)
  {
    World(seq(|shapes|, i requires 0 <= i < |shapes| => Entry(shapes[i], false)), [])
  }

  lemma {:induction false} RunIsExclusive(shapes: seq<Shape>, actions: seq<Action>)
    requires AllHonest(Unclaimed(shapes), actions)
    ensures Exclusive(Play(Unclaimed(shapes), actions))
  {
    if |actions| > 0 {
      var before, a := actions[..|actions| - 1], actions[|actions| - 1];
      RunIsExclusive(shapes, before);
      var w := Play(Unclaimed(shapes), before);
      if a.Claim? {
        ClaimKeepsExclusive(w, a.connection, a.shape);
      } else {
        GiveBackKeepsExclusive(w, a.connection, a.id);
      }
    }
  }

  /** Two connections end up on one surface after a release by the one that never held it. */
  lemma StrayReleaseShares()
    ensures var s := Shape(16, 16, 1);
            var w := Play(Unclaimed([s]), [Claim(1, s), GiveBack(2, 0), Claim(2, s)]);
            w.holds == [Hold(1, 0), Hold(2, 0)]
  {
    var s := Shape(16, 16, 1);
    var w0 := Unclaimed([s]);
    var all := [Claim(1, s), GiveBack(2, 0), Claim(2, s)];
    assert all[..2] == [Claim(1, s), GiveBack(2, 0)] && all[..2][..1] == [Claim(1, s)] && all[..2][..1][..0] == [];
    IndexWhereIs(w0.entries, Available(s), 0);
    var w1 := Act(w0, all[0]);
    assert w1 == World([Entry(s, true)], [Hold(1, 0)]);
    assert Play(w0, all[..2][..1]) == w1;
    assert IndexWhere(w1.holds, HoldIs(2, 0)) == None;
    var w2 := Act(w1, all[1]);
    assert w2 == World([Entry(s, false)], [Hold(1, 0)]);
    assert Play(w0, all[..2]) == w2;
    IndexWhereIs(w2.entries, Available(s), 0);
  }

  // ---------- when a claim succeeds ----------

  function OfShape(shape: Shape): (f: Entry -> nat) { (e: Entry) => if e.shape == shape then 1 else 0 }
  function ClaimedOf(shape: Shape): (f: Entry -> nat) { (e: Entry) => if e.claimed && e.shape == shape then 1 else 0 }

  function Shapes(entries: seq<Entry>): (r: seq<Shape>)
    ensures |r| == |entries| && forall i :: 0 <= i < |entries| ==> r[i] == entries[i].shape
  {
    seq(|entries|, i requires 0 <= i < |entries| => entries[i].shape)
  }

  function HoldOf(shapes: seq<Shape>, shape: Shape): (f: Hold -> nat) {
    (h: Hold) => if h.id < |shapes| && shapes[h.id] == shape then 1 else 0
  }

  /** Entries and outstanding claims at a shape. */
  function EntriesAt(w: World, shape: Shape): (n: nat) { SumBy(w.entries, OfShape(shape)) }
  function HoldsAt(w: World, shape: Shape): (n: nat) { SumBy(w.holds, HoldOf(Shapes(w.entries), shape)) }

  lemma {:induction false} ClaimedAtMost(entries: seq<Entry>, shape: Shape)
    ensures SumBy(entries, ClaimedOf(shape)) <= SumBy(entries, OfShape(shape))
    ensures SumBy(entries, ClaimedOf(shape)) < SumBy(entries, OfShape(shape))
        <==> IndexWhere(entries, Available(shape)).Some?
  {
    if |entries| > 0 {
      ClaimedAtMost(entries[..|entries| - 1], shape);
    }
  }

  ghost predicate Tallied(w: World, shape: Shape) {
    SumBy(w.entries, ClaimedOf(shape)) == HoldsAt(w, shape)
  }

  lemma ShapesStay(entries: seq<Entry>, i: nat, claimed: bool)
    requires i < |entries|
    ensures Shapes(SetClaim(entries, i, claimed)) == Shapes(entries)
  {
  }

  lemma ClaimTallies(w: World, connection: nat, shape: Shape, s: Shape)
    requires Tallied(w, s)
    ensures Tallied(Act(w, Claim(connection, shape)), s)
  {
    var id := Take(w.entries, shape).1;
    if id.Some? {
      ShapesStay(w.entries, id.value, true);
      SumByUpdate(w.entries, id.value, w.entries[id.value].(claimed := true), ClaimedOf(s));
      SumByAppend(w.holds, Hold(connection, id.value), HoldOf(Shapes(w.entries), s));
    }
  }

  lemma GiveBackTallies(w: World, connection: nat, id: nat, s: Shape)
    requires Exclusive(w) && Honest(w, GiveBack(connection, id)) && Tallied(w, s)
    ensures Tallied(Act(w, GiveBack(connection, id)), s)
  {
    var at := IndexWhere(w.holds, HoldIs(connection, id)).value;
    assert w.holds[at] == Hold(connection, id);
    assert IsHeld(w.holds, id);
    ShapesStay(w.entries, id, false);
    SumByUpdate(w.entries, id, w.entries[id].(claimed := false), ClaimedOf(s));
    SumByRemove(w.holds, at, HoldOf(Shapes(w.entries), s));
  }

  lemma {:induction false} RunTallies(shapes: seq<Shape>, actions: seq<Action>, s: Shape)
    requires AllHonest(Unclaimed(shapes), actions)
    ensures Tallied(Play(Unclaimed(shapes), actions), s)
  {
    if |actions| == 0 {
      NoneClaimed(Unclaimed(shapes).entries, s);
    } else {
      var before, a := actions[..|actions| - 1], actions[|actions| - 1];
      RunTallies(shapes, before, s);
      RunIsExclusive(shapes, before);
      var w := Play(Unclaimed(shapes), before);
      if a.Claim? {
        ClaimTallies(w, a.connection, a.shape, s);
      } else {
        GiveBackTallies(w, a.connection, a.id, s);
      }
    }
  }

  lemma {:induction false} NoneClaimed(entries: seq<Entry>, s: Shape)
    requires forall i :: 0 <= i < |entries| ==> !entries[i].claimed
    ensures SumBy(entries, ClaimedOf(s)) == 0
  {
    if |entries| > 0 {
      NoneClaimed(entries[..|entries| - 1], s);
    }
  }

  /** A claim takes the earliest entry that is free and of the shape asked for, and touches no
      other; the connection then holds it. */
  lemma ClaimTakesFirst(w: World, connection: nat, shape: Shape, i: nat)
    requires i < |w.entries| && w.entries[i] == Entry(shape, false)
    requires forall k :: 0 <= k < i ==> w.entries[k] != Entry(shape, false)
    ensures Take(w.entries, shape) == (w.entries[i := Entry(shape, true)], Some(i))
    ensures Act(w, Claim(connection, shape))
         == World(w.entries[i := Entry(shape, true)], w.holds + [Hold(connection, i)])
  {
    IndexWhereIs(w.entries, Available(shape), i);
  }

  /** With no such entry nothing changes. */
  lemma NothingToClaim(w: World, connection: nat, shape: Shape)
    requires forall k :: 0 <= k < |w.entries| ==> w.entries[k] != Entry(shape, false)
    ensures Take(w.entries, shape) == (w.entries, None) && Act(w, Claim(connection, shape)) == w
  {
    assert forall k :: 0 <= k < |w.entries| ==> !Available(shape)(w.entries[k]);
  }

  /** After any run of honest connections a claim at a shape succeeds exactly when fewer claims
      are outstanding at that shape than entries exist there. */
  lemma ClaimSucceedsIff(shapes: seq<Shape>, actions: seq<Action>, shape: Shape)
    requires AllHonest(Unclaimed(shapes), actions)
    ensures var w := Play(Unclaimed(shapes), actions);
            Take(w.entries, shape).1.Some? <==> HoldsAt(w, shape) < EntriesAt(w, shape)
  {
    var w := Play(Unclaimed(shapes), actions);
    RunTallies(shapes, actions, shape);
    ClaimedAtMost(w.entries, shape);
  }
}
