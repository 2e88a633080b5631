/** The guest's queue of frames waiting for their output: two parallel arrays grown by hand. */
module PendingQueue {
  import opened Collections

  /** A pixel buffer is known by the lease it wraps. */
  datatype Lease = Lease(id: nat, generation: nat)

  datatype Entry = Entry(image: Lease, refcon: nat)

  class Queue {
    var images: array<Lease>
    var refcons: array<nat>
    var count: nat

    ghost predicate Valid()
      reads this
    {
      images.Length == refcons.Length && count <= images.Length
    }

    ghost function Entries(): (r: seq<Entry>)
      requires Valid()
      reads this, images, refcons
      ensures |r| == count
    {
      seq(count, i requires 0 <= i < count reads this, images, refcons requires Valid() => Entry(images[i], refcons[i]))
    }

    constructor ()
      ensures Valid() && Entries() == [] && images.Length == 0 && fresh(images) && fresh(refcons)
    {
      images, refcons, count := new Lease[0], new nat[0], 0;
    }

    /** Four slots to begin with, then twice as many whenever the arrays are full. */
    method Grow()
      requires Valid()
      modifies this
      ensures Valid() && fresh(images) && fresh(refcons)
      ensures images.Length == if old(images.Length) == 0 then 4 else 2 * old(images.Length)
      ensures Entries() == old(Entries())
    {
      var capacity := if images.Length == 0 then 4 else 2 * images.Length;
      var newImages := new Lease[capacity](_ => Lease(0, 0));
      var newRefcons := new nat[capacity](_ => 0);
      var i := 0;
      while i < count
        invariant 0 <= i <= count <= capacity
        invariant Valid() && images == old(images) && refcons == old(refcons) && count == old(count)
        invariant forall k :: 0 <= k < i ==> newImages[k] == images[k] && newRefcons[k] == refcons[k]
      {
        newImages[i] := images[i];
        newRefcons[i] := refcons[i];
        i := i + 1;
      }
      ghost var before := Entries();
      images, refcons := newImages, newRefcons;
      assert Entries() == before;
    }

    /** Appends an entry; `memory` says whether an allocation, should one be needed, succeeds. */
    method Push(image: Lease, refcon: nat, memory: bool) returns (ok: bool)
      requires Valid()
      modifies this, images, refcons
      ensures Valid()
      ensures ok <==> memory || old(count) < old(images.Length)
      ensures Entries() == if ok then old(Entries()) + [Entry(image, refcon)] else old(Entries())
      ensures images == old(images) || fresh(images)
      ensures refcons == old(refcons) || fresh(refcons)
    {
      if count == images.Length {
        if !memory {
          return false;
        }
        Grow();
      }
      ghost var before := Entries();
      images[count] := image;
      refcons[count] := refcon;
      count := count + 1;
      assert Entries() == before + [Entry(image, refcon)];
      return true;
    }

    /** Takes the oldest entry and moves the rest up one place in both arrays. */
    method Pop() returns (r: Option<Entry>)
      requires Valid()
      modifies this, images, refcons
      ensures Valid() && images == old(images) && refcons == old(refcons)
      ensures old(Entries()) == [] ==> r == None && Entries() == []
      ensures old(Entries()) != [] ==> r == Some(old(Entries())[0]) && Entries() == old(Entries())[1..]
    {
      if count == 0 {
        return None;
      }
      r := Some(Entry(images[0], refcons[0]));
      var i := 1;
      while i < count
        invariant 1 <= i <= count == old(count)
        invariant Valid() && images == old(images) && refcons == old(refcons)
        invariant forall k :: 0 <= k < i - 1 ==> images[k] == old(images[k + 1]) && refcons[k] == old(refcons[k + 1])
        invariant forall k :: i <= k < count ==> images[k] == old(images[k]) && refcons[k] == old(refcons[k])
      {
        images[i - 1] := images[i];
        refcons[i - 1] := refcons[i];
        i := i + 1;
      }
      count := count - 1;
    }
  }
}
