/** Which images the guest may submit: one at a time each, from its submission to its callback. */
module SubmittedImages {
  import opened Bits
  import opened PendingQueue
  import opened Protocol
  import opened EncodePipeline

  /** Pending images are pairwise different and all marked as submitted. */
  ghost predicate Marked(g: Guest) {
    && (forall i, j :: 0 <= i < j < |g.pending| ==> g.pending[i].image != g.pending[j].image)
    && (forall i :: 0 <= i < |g.pending| ==> g.pending[i].image in g.queued)
  }

  lemma ActMarked(g: Guest, sid: nat, a: Action)
    requires Marked(g)
    ensures Marked(Act(g, sid, a))
  {
    match a
    case Encode(entry, pts, duration) =>
    case Dequeue(_, _) =>
    case Deliver(built) =>
      DeliverMarked(g, built);
    case Other(_) =>
  }

  lemma DeliverMarked(g: Guest, built: bool)
    requires Marked(g)
    ensures Marked(DeliverStep(g, built))
  {
    if g.next < |g.handed| && NextSample(g).Some? {
      PairedMarked(g, NextSample(g).value, built);
    }
  }

  lemma PairedMarked(g: Guest, sample: seq<byte>, made: bool)
    requires Marked(g) && g.next < |g.handed|
    ensures Marked(Paired(g, sample, made))
    ensures g.pending != [] ==>
      Paired(g, sample, made).queued == if made then g.queued - {g.pending[0].image} else g.queued
  {
  }

  lemma {:induction false} RunMarked(maxOutputs: nat, maxBytes: nat, sid: nat, actions: seq<Action>)
    ensures Marked(Play(Begin(maxOutputs, maxBytes), sid, actions))
  {
    if |actions| > 0 {
      RunMarked(maxOutputs, maxBytes, sid, actions[..|actions| - 1]);
      ActMarked(Play(Begin(maxOutputs, maxBytes), sid, actions[..|actions| - 1]), sid, actions[|actions| - 1]);
    }
  }

  /** In every run, submitting an image again before its callback reaches neither queue nor worker,
      and no two pending entries have the same image. */
  lemma PendingIsRefused(maxOutputs: nat, maxBytes: nat, sid: nat, actions: seq<Action>, k: nat, entry: Entry,
      pts: Time, duration: Time)
    requires var g := Play(Begin(maxOutputs, maxBytes), sid, actions);
             k < |g.pending| && entry.image == g.pending[k].image
    ensures var g := Play(Begin(maxOutputs, maxBytes), sid, actions);
            Act(g, sid, Encode(entry, pts, duration)) == g
            && forall j :: 0 <= j < |g.pending| && g.pending[j].image == entry.image ==> j == k
  {
    RunMarked(maxOutputs, maxBytes, sid, actions);
  }

  /** Its callback frees it, and no other: the next submission of it is sent again. */
  lemma CallbackFreesImage(g: Guest, sid: nat, entry: Entry, pts: Time, duration: Time)
    requires Marked(g) && g.next < |g.handed| && NextSample(g).Some? && g.pending != []
    requires entry.image == g.pending[0].image
    ensures var g' := Act(g, sid, Deliver(true));
            && g'.queued == g.queued - {entry.image}
            && Act(g', sid, Encode(entry, pts, duration)).frames == g.frames + [Frame(entry, pts)]
            && Act(g', sid, Encode(entry, pts, duration)).pending == g.pending[1..] + [entry]
  {
    PairedMarked(g, NextSample(g).value, true);
  }
}
