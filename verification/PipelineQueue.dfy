/** Which clusters reach the worker: every offer of a run is delivered or dropped, and the run alone decides. */
module PipelineQueue {
  import opened Pipeline
  import opened Sequences
  import opened SignatureCache

  /** One attempt to send a cluster id, and whether it got through. */
  datatype Offer = Offer(id: nat, delivered: bool)

  /** An empty place in the queue; a queue of capacity 0 hands over directly. */
  predicate Room(su: Setup, st: State) {
    su.queueCapacity == 0 || |st.queue| < su.queueCapacity
  }

  /** The step advances a call that has just started cluster `id`. */
  predicate Offers(st: State, step: Step, id: nat) {
    step.Advance? && step.k < |st.calls| && st.calls[step.k].pc == NewCluster(id)
  }

  function OfferOf(su: Setup, st: State, step: Step): seq<Offer> {
    if step.Advance? && step.k < |st.calls| && st.calls[step.k].pc.NewCluster?
    then [Offer(st.calls[step.k].pc.clusterId, step.accepted && Room(su, st))] else []
  }

  /** The offers of a run, in order. */
  function OffersOf(su: Setup, numShards: nat, capacity: nat, steps: seq<Step>): seq<Offer>
    requires ShardCount(numShards)
  {
    if steps == [] then []
    else
      var before := steps[..|steps| - 1];
      OffersOf(su, numShards, capacity, before)
      + OfferOf(su, Run(su, numShards, capacity, before), steps[|steps| - 1])
  }

  function Ids(offers: seq<Offer>): (ids: seq<nat>)
    ensures |ids| == |offers|
  {
    seq(|offers|, i requires 0 <= i < |offers| => offers[i].id)
  }

  /** The ids that got through, in order. */
  function Delivered(offers: seq<Offer>): seq<nat> {
    if offers == [] then []
    else
      var last := offers[|offers| - 1];
      Delivered(offers[..|offers| - 1]) + if last.delivered then [last.id] else []
  }

  lemma IdsOneMore(offers: seq<Offer>, o: Offer)
    ensures Ids(offers + [o]) == Ids(offers) + [o.id]
  {
  }

  lemma NoMore(offers: seq<Offer>)
    ensures offers + [] == offers
  {
  }

  lemma DeliveredOneMore(offers: seq<Offer>, o: Offer)
    ensures Delivered(offers + [o]) == Delivered(offers) + if o.delivered then [o.id] else []
  {
    assert (offers + [o])[..|offers|] == offers;
  }

  lemma StepOffers(su: Setup, st: State, step: Step, id: nat)
    requires ShardCount(|st.cache.shards|) && Offers(st, step, id)
    ensures var u := Next(su, st, step);
      && u.offered == st.offered + [id]
      && u.sent == if step.accepted && Room(su, st) then st.sent + [id] else st.sent
  {
  }

  lemma StepOffersNothing(su: Setup, st: State, step: Step)
    requires ShardCount(|st.cache.shards|) && OfferOf(su, st, step) == []
    ensures Next(su, st, step).offered == st.offered && Next(su, st, step).sent == st.sent
  {
  }

  /** What a run offered and sent: all its offers, and of them those delivered, in the same order. */
  lemma {:induction false} SentIsDelivered(su: Setup, numShards: nat, capacity: nat, steps: seq<Step>)
    requires ShardCount(numShards)
    ensures var st, offers := Run(su, numShards, capacity, steps), OffersOf(su, numShards, capacity, steps);
      st.offered == Ids(offers) && st.sent == Delivered(offers)
  {
    if steps == [] {
    } else {
      var before, step := steps[..|steps| - 1], steps[|steps| - 1];
      var st, offers := Run(su, numShards, capacity, before), OffersOf(su, numShards, capacity, before);
      SentIsDelivered(su, numShards, capacity, before);
      if OfferOf(su, st, step) == [] {
        StepOffersNothing(su, st, step);
        NoMore(offers);
      } else {
        var o := OfferOf(su, st, step)[0];
        StepOffers(su, st, step, o.id);
        DeliveredOneMore(offers, o);
        IdsOneMore(offers, o);
      }
    }
  }

  lemma {:induction false} DeliveredWasOffered(offers: seq<Offer>, id: nat)
    requires id in Delivered(offers)
    ensures id in Ids(offers)
  {
    var n := |offers| - 1;
    if id in Delivered(offers[..n]) {
      DeliveredWasOffered(offers[..n], id);
      assert forall i :: 0 <= i < n ==> Ids(offers[..n])[i] == Ids(offers)[i];
    } else {
      assert Ids(offers)[n] == id;
    }
  }

  lemma {:induction false} DeliveredOnce(offers: seq<Offer>, p: nat)
    requires NoRepeats(Ids(offers)) && p < |offers|
    ensures offers[p].id in Delivered(offers) <==> offers[p].delivered
    decreases |offers|
  {
    var n := |offers| - 1;
    var first := offers[..n];
    assert forall i :: 0 <= i < n ==> Ids(first)[i] == Ids(offers)[i];
    assert Ids(offers)[p] == offers[p].id && Ids(offers)[n] == offers[n].id;
    if p < n {
      DeliveredOnce(first, p);
    } else {
      assert offers[n].id !in Ids(first);
      if offers[n].id in Delivered(first) { DeliveredWasOffered(first, offers[n].id); }
    }
  }

  lemma {:induction false} OffersOfPrefix(su: Setup, numShards: nat, capacity: nat, steps: seq<Step>, j: nat)
    requires ShardCount(numShards) && j <= |steps|
    ensures OffersOf(su, numShards, capacity, steps[..j]) <= OffersOf(su, numShards, capacity, steps)
    decreases |steps|
  {
    if j == |steps| {
      assert steps[..j] == steps;
    } else {
      var before := steps[..|steps| - 1];
      OffersOfPrefix(su, numShards, capacity, before, j);
      assert before[..j] == steps[..j];
    }
  }

  /**
   Delivery, over every interleaving: a cluster id is sent exactly when the one step that offers it is accepted
   while the queue has room, or hands over directly.
   */
  lemma {:induction false} DeliveryExact(su: Setup, numShards: nat, capacity: nat, steps: seq<Step>, j: nat, id: nat)
    requires ShardCount(numShards) && j < |steps|
    requires Offers(Run(su, numShards, capacity, steps[..j]), steps[j], id)
    ensures id in Run(su, numShards, capacity, steps).sent
       <==> steps[j].accepted && Room(su, Run(su, numShards, capacity, steps[..j]))
  {
    var before := OffersOf(su, numShards, capacity, steps[..j]);
    var all := OffersOf(su, numShards, capacity, steps);
    var o := Offer(id, steps[j].accepted && Room(su, Run(su, numShards, capacity, steps[..j])));
    assert steps[..j + 1][..j] == steps[..j];
    assert OffersOf(su, numShards, capacity, steps[..j + 1]) == before + [o];
    OffersOfPrefix(su, numShards, capacity, steps, j + 1);
    assert all[|before|] == (before + [o])[|before|] == o;
    SentIsDelivered(su, numShards, capacity, steps);
    RunInv(su, numShards, capacity, steps);
    DeliveredOnce(all, |before|);
  }

  /** While the receiver is there, an id is dropped only at a full queue. */
  lemma {:induction false} DroppedOnlyWhenFull(su: Setup, numShards: nat, capacity: nat, steps: seq<Step>, j: nat,
                                               id: nat)
    requires ShardCount(numShards) && j < |steps| && steps[j].Advance? && steps[j].accepted
    requires Offers(Run(su, numShards, capacity, steps[..j]), steps[j], id)
    ensures id !in Run(su, numShards, capacity, steps).sent
       <==> su.queueCapacity > 0 && |Run(su, numShards, capacity, steps[..j]).queue| == su.queueCapacity
  {
    DeliveryExact(su, numShards, capacity, steps, j, id);
    RunInv(su, numShards, capacity, steps[..j]);
  }

  // ----- The worker -----

  /** What the worker takes: one id for every receive at a non-empty queue, or for every direct hand-over. */
  function Takes(su: Setup, numShards: nat, capacity: nat, steps: seq<Step>): nat
    requires ShardCount(numShards)
  {
    if steps == [] then 0
    else
      var before, step := steps[..|steps| - 1], steps[|steps| - 1];
      var st := Run(su, numShards, capacity, before);
      var offers := OfferOf(su, st, step);
      Takes(su, numShards, capacity, before)
      + (if step.Receive? && st.queue != [] then 1 else 0)
      + (if su.queueCapacity == 0 && offers != [] && offers[0].delivered then 1 else 0)
  }

  lemma StepTakes(su: Setup, st: State, step: Step)
    requires ShardCount(|st.cache.shards|)
    ensures var offers := OfferOf(su, st, step);
      |Next(su, st, step).received| == |st.received|
        + (if step.Receive? && st.queue != [] then 1 else 0)
        + (if su.queueCapacity == 0 && offers != [] && offers[0].delivered then 1 else 0)
  {
  }

  lemma {:induction false} TakesCounted(su: Setup, numShards: nat, capacity: nat, steps: seq<Step>)
    requires ShardCount(numShards)
    ensures |Run(su, numShards, capacity, steps).received| == Takes(su, numShards, capacity, steps)
  {
    if steps == [] {
    } else {
      var before := steps[..|steps| - 1];
      TakesCounted(su, numShards, capacity, before);
      StepTakes(su, Run(su, numShards, capacity, before), steps[|steps| - 1]);
    }
  }

  /** The worker's ids are the first ones delivered, as many as it has taken; the queue holds the others. */
  lemma {:induction false} WorkerTakesInOrder(su: Setup, numShards: nat, capacity: nat, steps: seq<Step>)
    requires ShardCount(numShards)
    ensures var st := Run(su, numShards, capacity, steps);
      var delivered, n := Delivered(OffersOf(su, numShards, capacity, steps)), Takes(su, numShards, capacity, steps);
      && n <= |delivered|
      && st.received == delivered[..n] && st.queue == delivered[n..]
  {
    RunInv(su, numShards, capacity, steps);
    SentIsDelivered(su, numShards, capacity, steps);
    TakesCounted(su, numShards, capacity, steps);
  }
}
