/** What holds over whole uploads: every order of replies, and any number of payment rounds. */
module UploadProtocol {
  import opened Sequences
  import opened Backup
  import opened Upload
  import opened UploadRun
  import opened KeyPhases

  // ----- bookkeeping

  lemma {:induction false} PlacementsHold(ps: seq<seq<Slot>>, d: Placed)
    ensures d in Placements(ps) <==> InRange(ps, d.r) && d.s == ps[d.r.policy][d.r.method_]
  {
    if ps != [] {
      var front, row := ps[..|ps| - 1], PlacedRow(|ps| - 1, ps[|ps| - 1]);
      PlacementsHold(front, d);
      if InRange(ps, d.r) && d.s == ps[d.r.policy][d.r.method_] && d.r.policy == |ps| - 1 {
        assert row[d.r.method_] == d;
      }
    }
  }

  lemma {:induction false} PlacementsOnce(ps: seq<seq<Slot>>)
    ensures forall k, l :: 0 <= k < l < |Placements(ps)| ==> Placements(ps)[k].r != Placements(ps)[l].r
  {
    if ps != [] {
      var front, row := Placements(ps[..|ps| - 1]), PlacedRow(|ps| - 1, ps[|ps| - 1]);
      PlacementsOnce(ps[..|ps| - 1]);
      forall k | 0 <= k < |front| ensures front[k].r.policy < |ps| - 1 {
        assert front[k] in front;
        PlacementsHold(ps[..|ps| - 1], front[k]);
      }
    }
  }

  lemma {:induction false} RefsOfHold(ds: seq<Placed>, key: Key, r: Ref)
    ensures r in RefsOf(ds, key) <==> exists k :: 0 <= k < |ds| && ds[k].r == r && KeyOf(ds[k].s) == key
  {
    if ds != [] {
      var front, d := ds[..|ds| - 1], ds[|ds| - 1];
      RefsOfHold(front, key, r);
      if k :| 0 <= k < |front| && front[k].r == r && KeyOf(front[k].s) == key {
        assert ds[k] == front[k];
      }
      if k :| 0 <= k < |ds| && ds[k].r == r && KeyOf(ds[k].s) == key && k < |front| {
        assert front[k] == ds[k];
      }
    }
  }

  lemma {:induction false} RefsOfOnce(ds: seq<Placed>, key: Key)
    requires forall k, l :: 0 <= k < l < |ds| ==> ds[k].r != ds[l].r
    ensures NoDuplicates(RefsOf(ds, key))
  {
    if ds != [] {
      var front, d := ds[..|ds| - 1], ds[|ds| - 1];
      RefsOfOnce(front, key);
      RefsOfHold(front, key, d.r);
      assert forall k :: 0 <= k < |front| ==> front[k] == ds[k];
    }
  }

  /**
   * After all slots are registered: one entry per key, every slot referenced once and by the entry
   * of its key only, and each entry with either an upload in flight or a truth at hand.
   */
  lemma Bookkeeping(es: seq<Entry>, ps: seq<seq<Slot>>, freshTruth: Key -> Truth)
    requires Tracks(es, Placements(ps), freshTruth)
    ensures RefsMatch(es, ps)
    ensures forall k :: 0 <= k < |es| ==> NoDuplicates(es[k].refs)
    ensures forall k :: 0 <= k < |es| ==> (es[k].tu.Some? <==> es[k].t.None?)
    ensures forall i, j :: 0 <= i < |ps| && 0 <= j < |ps[i]| ==> IndexOf(es, KeyOf(ps[i][j])) < |es|
  {
    var ds := Placements(ps);
    PlacementsOnce(ps);
    TrackedPhases(es, ds, freshTruth);
    forall k | 0 <= k < |es| ensures NoDuplicates(es[k].refs) {
      assert Accounts(es[k], ds, freshTruth);
      RefsOfOnce(ds, es[k].key);
    }
    PartRefsSound(es, ds, ps, freshTruth);
    forall k, i, j | 0 <= k < |es| && 0 <= i < |ps| && 0 <= j < |ps[i]| && KeyOf(ps[i][j]) == es[k].key
      ensures Ref(i, j) in es[k].refs
    {
      EntryRefs(es[k], ps, freshTruth, Ref(i, j));
    }
    forall i, j | 0 <= i < |ps| && 0 <= j < |ps[i]| ensures IndexOf(es, KeyOf(ps[i][j])) < |es| {
      SlotHasEntry(es, ps, freshTruth, i, j);
    }
  }

  lemma EntryRefs(e: Entry, ps: seq<seq<Slot>>, freshTruth: Key -> Truth, r: Ref)
    requires Accounts(e, Placements(ps), freshTruth)
    ensures r in e.refs <==> InRange(ps, r) && KeyOf(ps[r.policy][r.method_]) == e.key
  {
    var ds := Placements(ps);
    RefsOfHold(ds, e.key, r);
    if r in e.refs {
      var k :| 0 <= k < |ds| && ds[k].r == r && KeyOf(ds[k].s) == e.key;
      PlacementsHold(ps, ds[k]);
    }
    if InRange(ps, r) && KeyOf(ps[r.policy][r.method_]) == e.key {
      var d := Placed(r, ps[r.policy][r.method_]);
      PlacementsHold(ps, d);
      var k :| 0 <= k < |ds| && ds[k] == d;
    }
  }

  /** Entries that account for the first slots only refer to slots of their key, too. */
  lemma PartRefsSound(es: seq<Entry>, ds: seq<Placed>, ps: seq<seq<Slot>>, freshTruth: Key -> Truth)
    requires Tracks(es, ds, freshTruth) && ds <= Placements(ps)
    ensures RefsSound(es, ps)
  {
    forall k, l | 0 <= k < |es| && 0 <= l < |es[k].refs|
      ensures InRange(ps, es[k].refs[l]) && KeyOf(ps[es[k].refs[l].policy][es[k].refs[l].method_]) == es[k].key
    {
      assert Accounts(es[k], ds, freshTruth);
      RefsOfHold(ds, es[k].key, es[k].refs[l]);
      var m :| 0 <= m < |ds| && ds[m].r == es[k].refs[l] && KeyOf(ds[m].s) == es[k].key;
      assert Placements(ps)[m] == ds[m];
      PlacementsHold(ps, ds[m]);
    }
  }

  lemma SlotHasEntry(es: seq<Entry>, ps: seq<seq<Slot>>, freshTruth: Key -> Truth, i: nat, j: nat)
    requires Tracks(es, Placements(ps), freshTruth) && i < |ps| && j < |ps[i]|
    ensures IndexOf(es, KeyOf(ps[i][j])) < |es|
  {
    var ds, d := Placements(ps), Placed(Ref(i, j), ps[i][j]);
    PlacementsHold(ps, d);
    var k :| 0 <= k < |ds| && ds[k] == d;
    assert HasKey(es, KeyOf(ds[k].s));
  }

  // ----- every order of replies

  ghost function Next(s: State, i: nat, ud: Details): State
    requires i < |s.entries|
  {
    if s.live then Step(s, i, ud) else s
  }

  /** Every upload in flight replies once, in this order. */
  ghost predicate AllReply(tr: seq<State>, order: seq<nat>, replies: seq<Details>) {
    && |tr| == |order| + 1
    && (forall k :: 0 <= k < |tr| ==> |tr[k].entries| == |replies|)
    && Covers(order, tr[0].entries)
    && forall k :: 0 <= k < |order| ==> tr[k + 1] == Next(tr[k], order[k], replies[order[k]])
  }

  /** A run of the operation while it waits for replies. */
  ghost predicate FullRun(tr: seq<State>, order: seq<nat>, replies: seq<Details>) {
    AllReply(tr, order, replies) && order != [] && Ready(tr[0])
  }

  /** The order names the entries in flight, each once. */
  ghost predicate Covers(order: seq<nat>, es: seq<Entry>) {
    && NoDuplicates(order)
    && (forall k :: 0 <= k < |order| ==> order[k] < |es| && es[order[k]].tu.Some?)
    && (forall i :: 0 <= i < |es| && es[i].tu.Some? ==> exists k :: 0 <= k < |order| && order[k] == i)
  }

  /** A state in which replies are awaited and none has come yet. */
  ghost predicate Ready(s: State) {
    s.live && RefsSound(s.entries, s.policies) && Unanswered(s.entries)
  }

  ghost predicate Unanswered(es: seq<Entry>) {
    forall i :: 0 <= i < |es| ==>
      && (es[i].tu.Some? <==> es[i].t.None?)
      && es[i].ec == EC_NONE && es[i].us == US_SUCCESS && es[i].paymentRequest.None?
  }

  lemma TracksUnanswered(es: seq<Entry>, ds: seq<Placed>, freshTruth: Key -> Truth)
    requires Tracks(es, ds, freshTruth)
    ensures Unanswered(es)
  {
    TrackedPhases(es, ds, freshTruth);
    forall i | 0 <= i < |es| ensures es[i].ec == EC_NONE && es[i].us == US_SUCCESS && es[i].paymentRequest.None? {
      assert Accounts(es[i], ds, freshTruth);
    }
  }

  /** If upload leaves the operation running, with or without a fault, replies can be awaited. */
  lemma UploadIsReady(ps: seq<seq<Slot>>, se: Setting)
    requires Uploaded(ps, se).live
    ensures Ready(Uploaded(ps, se))
  {
    var ds, f := Placements(ps), se.freshTruth;
    var k := FirstFault(ds, se);
    FirstFaultIs(ds, se);
    if k < |ds| {
      EntriesTrack(ds[..k], f);
      PartRefsSound(Entries(ds[..k], f), ds[..k], ps, f);
      TracksUnanswered(Entries(ds[..k], f), ds[..k], f);
      assert ds[k] in ds;
      PlacementsHold(ps, ds[k]);
      FaultNotInFlight(ds, k, se);
      ParkedReady(Entries(ds[..k], f), ds[k], ps);
    } else {
      EntriesTrack(ds, f);
      PartRefsSound(Entries(ds, f), ds, ps, f);
      TracksUnanswered(Entries(ds, f), ds, f);
    }
  }

  /** A missing salt is noticed only for a key with no upload in flight. */
  lemma FaultNotInFlight(ds: seq<Placed>, k: nat, se: Setting)
    requires k < |ds| && FaultAt(ds, k, se) && LeavesRunning(ds[k].s, se)
    ensures !PhaseAt(Entries(ds[..k], se.freshTruth), KeyOf(ds[k].s)).InFlight?
  {
    EntriesTrack(ds[..k], se.freshTruth);
    PhaseAtTracked(Entries(ds[..k], se.freshTruth), ds[..k], KeyOf(ds[k].s), se.freshTruth);
  }

  lemma ParkedReady(es: seq<Entry>, d: Placed, ps: seq<seq<Slot>>)
    requires RefsSound(es, ps) && Unanswered(es) && d.s.truth.Some? && !PhaseAt(es, KeyOf(d.s)).InFlight?
    requires InRange(ps, d.r) && d.s == ps[d.r.policy][d.r.method_]
    ensures RefsSound(Parked(es, d.r, d.s), ps) && Unanswered(Parked(es, d.r, d.s))
    ensures AnyInFlight(Parked(es, d.r, d.s)) <==> AnyInFlight(es)
  {
    var i := IndexOf(es, KeyOf(d.s));
    if i < |es| {
      ChangedEntry(es, i, WithTruth(es[i].(refs := es[i].refs + [d.r]), d.s.truth.value.truth), ps);
    } else {
      AddedEntry(es, WithTruth(NewEntry(KeyOf(d.s), d.r), d.s.truth.value.truth), ps);
    }
  }

  ghost predicate RefsOwn(e: Entry, ps: seq<seq<Slot>>) {
    forall l :: 0 <= l < |e.refs| ==> InRange(ps, e.refs[l]) && KeyOf(ps[e.refs[l].policy][e.refs[l].method_]) == e.key
  }

  lemma ChangedEntry(es: seq<Entry>, i: nat, e: Entry, ps: seq<seq<Slot>>)
    requires RefsSound(es, ps) && Unanswered(es) && i < |es|
    requires e.key == es[i].key && e.tu == es[i].tu && RefsOwn(e, ps) && Unanswered([e])
    ensures RefsSound(es[i := e], ps) && Unanswered(es[i := e])
    ensures AnyInFlight(es[i := e]) <==> AnyInFlight(es)
  {
    assert [e][0] == e;
    assert forall k :: 0 <= k < |es| ==> es[i := e][k].tu == es[k].tu;
  }

  lemma AddedEntry(es: seq<Entry>, e: Entry, ps: seq<seq<Slot>>)
    requires RefsSound(es, ps) && Unanswered(es) && e.tu.None? && RefsOwn(e, ps) && Unanswered([e])
    requires forall k :: 0 <= k < |es| ==> es[k].key != e.key
    ensures RefsSound([e] + es, ps) && Unanswered([e] + es)
    ensures AnyInFlight([e] + es) <==> AnyInFlight(es)
  {
    assert [e][0] == e;
    if k :| 0 <= k < |es| && es[k].tu.Some? {
      assert ([e] + es)[k + 1].tu.Some?;
    }
  }

  /** The first k uploads of the order have replied without error. */
  ghost predicate GoingWell(s: State, order: seq<nat>, replies: seq<Details>, k: nat, es: seq<Entry>)
    requires |replies| == |s.entries| && Covers(order, s.entries)
  {
    && |es| == |s.entries|
    && (forall j :: 0 <= j < |order| ==>
          es[order[j]] == if j < k then Replied(s.entries[order[j]], replies[order[j]]) else s.entries[order[j]])
    && (forall i :: 0 <= i < |es| && s.entries[i].tu.None? ==> es[i] == s.entries[i])
  }

  /** Entry i is among the first k of the order. */
  ghost predicate Early(order: seq<nat>, k: nat, i: nat) {
    exists j :: 0 <= j < k && j < |order| && order[j] == i
  }

  /** Each entry has replied or is untouched. */
  lemma EntryAt(s: State, order: seq<nat>, replies: seq<Details>, k: nat, es: seq<Entry>, i: nat)
    requires |replies| == |s.entries| && Covers(order, s.entries) && GoingWell(s, order, replies, k, es)
    requires i < |es|
    ensures es[i] == if Early(order, k, i) then Replied(s.entries[i], replies[i]) else s.entries[i]
  {
    if s.entries[i].tu.Some? {
      var j :| 0 <= j < |order| && order[j] == i;
    }
  }

  lemma NoErrorYet(s: State, order: seq<nat>, replies: seq<Details>, k: nat, es: seq<Entry>)
    requires |replies| == |s.entries| && Covers(order, s.entries) && GoingWell(s, order, replies, k, es) && Ready(s)
    requires forall j :: 0 <= j < k && j < |order| ==> replies[order[j]].ec == EC_NONE
    ensures FirstError(es) == |es|
  {
    forall i | 0 <= i < |es| ensures es[i].ec == EC_NONE {
      EntryAt(s, order, replies, k, es, i);
    }
  }

  lemma GoingWellStep(s: State, order: seq<nat>, replies: seq<Details>, k: nat, es: seq<Entry>)
    requires |replies| == |s.entries| && Covers(order, s.entries) && GoingWell(s, order, replies, k, es) && k < |order|
    ensures GoingWell(s, order, replies, k + 1, es[order[k] := Replied(es[order[k]], replies[order[k]])])
  {
  }

  lemma {:induction false} WhileAllGoesWell(tr: seq<State>, order: seq<nat>, replies: seq<Details>, k: nat)
    requires FullRun(tr, order, replies) && k < |order|
    requires forall j :: 0 <= j < k ==> replies[order[j]].ec == EC_NONE
    ensures GoingWell(tr[0], order, replies, k, tr[k].entries)
    ensures tr[k].live && tr[k].continuations == tr[0].continuations
    ensures tr[k].policies == tr[0].policies && tr[k].setting == tr[0].setting
  {
    hide Step;
    if k > 0 {
      WhileAllGoesWell(tr, order, replies, k - 1);
      assert tr[k - 1 + 1] == Next(tr[k - 1], order[k - 1], replies[order[k - 1]]);
      GoodReply(tr[0], order, replies, k - 1, tr[k - 1]);
    }
  }

  /** A reply without error, while others are still awaited, is recorded and nothing else happens. */
  lemma GoodReply(s: State, order: seq<nat>, replies: seq<Details>, k: nat, prev: State)
    requires |replies| == |s.entries| && Covers(order, s.entries) && Ready(s) && k + 1 < |order|
    requires GoingWell(s, order, replies, k, prev.entries)
    requires forall j :: 0 <= j <= k ==> replies[order[j]].ec == EC_NONE
    ensures var es := prev.entries[order[k] := Replied(prev.entries[order[k]], replies[order[k]])];
            && Step(prev, order[k], replies[order[k]]) == prev.(entries := es)
            && GoingWell(s, order, replies, k + 1, es)
  {
    hide FirstError, Ready;
    var es := prev.entries[order[k] := Replied(prev.entries[order[k]], replies[order[k]])];
    GoingWellStep(s, order, replies, k, prev.entries);
    NoErrorYet(s, order, replies, k + 1, es);
    assert es[order[k + 1]].tu.Some?;
  }

  lemma {:induction false} NothingAfterEnd(tr: seq<State>, order: seq<nat>, replies: seq<Details>, k: nat, l: nat)
    requires FullRun(tr, order, replies) && k <= l < |tr| && !tr[k].live
    ensures tr[l] == tr[k]
  {
    if k < l {
      NothingAfterEnd(tr, order, replies, k, l - 1);
      assert tr[l - 1 + 1] == Next(tr[l - 1], order[l - 1], replies[order[l - 1]]);
    }
  }

  /** The first reply with an error ends the operation with that error, whatever is still in flight. */
  lemma FirstErrorEnds(tr: seq<State>, order: seq<nat>, replies: seq<Details>, k: nat, l: nat)
    requires FullRun(tr, order, replies) && k < |order| && l < |tr|
    requires replies[order[k]].ec != EC_NONE && forall j :: 0 <= j < k ==> replies[order[j]].ec == EC_NONE
    ensures tr[l].continuations == tr[0].continuations + (if l <= k then [] else [Failed(replies[order[k]].ec)])
    ensures tr[l].policies == tr[0].policies
    ensures tr[l].live <==> l <= k
  {
    if l <= k {
      WhileAllGoesWell(tr, order, replies, l);
    } else {
      WhileAllGoesWell(tr, order, replies, k);
      assert tr[k + 1] == Next(tr[k], order[k], replies[order[k]]);
      OnlyError(tr[0], order, replies, k, tr[k].entries);
      NothingAfterEnd(tr, order, replies, k + 1, l);
    }
  }

  lemma OnlyError(s: State, order: seq<nat>, replies: seq<Details>, k: nat, es: seq<Entry>)
    requires |replies| == |s.entries| && Covers(order, s.entries) && GoingWell(s, order, replies, k, es) && Ready(s)
    requires k < |order| && replies[order[k]].ec != EC_NONE
    requires forall j :: 0 <= j < k ==> replies[order[j]].ec == EC_NONE
    ensures FirstError(es[order[k] := Replied(es[order[k]], replies[order[k]])]) == order[k]
  {
    NoErrorYet(s, order, replies, k, es);
    FirstErrorIs(es[order[k] := Replied(es[order[k]], replies[order[k]])], order[k]);
  }

  /** All entries with their replies taken in. */
  ghost function Settled(es: seq<Entry>, replies: seq<Details>): (r: seq<Entry>)
    requires |es| == |replies|
    ensures |r| == |es|
    ensures forall i :: 0 <= i < |es| ==> r[i] == if es[i].tu.Some? then Replied(es[i], replies[i]) else es[i]
  {
    seq(|es|, i requires 0 <= i < |es| => if es[i].tu.Some? then Replied(es[i], replies[i]) else es[i])
  }

  lemma AllReplied(s: State, order: seq<nat>, replies: seq<Details>, es: seq<Entry>)
    requires |replies| == |s.entries| && Covers(order, s.entries) && GoingWell(s, order, replies, |order|, es)
    ensures es == Settled(s.entries, replies)
    ensures !AnyInFlight(es)
  {
    forall i | 0 <= i < |es| ensures es[i] == Settled(s.entries, replies)[i] {
      EntryAt(s, order, replies, |order|, es, i);
      if s.entries[i].tu.Some? {
        var j :| 0 <= j < |order| && order[j] == i;
        assert Early(order, |order|, i);
      }
    }
  }

  ghost predicate NoError(order: seq<nat>, replies: seq<Details>)
    requires forall k :: 0 <= k < |order| ==> order[k] < |replies|
  {
    forall k :: 0 <= k < |order| ==> replies[order[k]].ec == EC_NONE
  }

  ghost function GoesOn(se: Setting, es: seq<Entry>, ps: seq<seq<Slot>>): Continuation {
    if AnyPayment(es) then PayTruths(PaymentsOf(es)) else ShareOf(se, es, ps)
  }

  /**
   * Without errors the operation goes on at the last reply, once, and in a way that does not depend
   * on the order: it asks for payment if any upload does, and else shares the secret.
   */
  lemma GoesOnAtLastReply(tr: seq<State>, order: seq<nat>, replies: seq<Details>, k: nat)
    requires FullRun(tr, order, replies) && k < |tr| && NoError(order, replies)
    ensures tr[k].live <==> k < |order|
    ensures var es := Settled(tr[0].entries, replies);
            tr[k].continuations == tr[0].continuations
                                   + (if k < |order| then [] else [GoesOn(tr[0].setting, es, tr[0].policies)])
    ensures var es := Settled(tr[0].entries, replies);
            tr[k].policies == if k == |order| && AnyPayment(es) then Serialized(es, tr[0].policies) else tr[0].policies
  {
    hide Step, Serialized, GoesOn, AnyPayment, Ready;
    if k < |order| {
      WhileAllGoesWell(tr, order, replies, k);
    } else {
      WhileAllGoesWell(tr, order, replies, k - 1);
      assert tr[k - 1 + 1] == Next(tr[k - 1], order[k - 1], replies[order[k - 1]]);
      LastReply(tr[0], order, replies, tr[k - 1]);
    }
  }

  lemma LastReply(s: State, order: seq<nat>, replies: seq<Details>, prev: State)
    requires |replies| == |s.entries| && Covers(order, s.entries) && order != [] && Ready(s) && NoError(order, replies)
    requires GoingWell(s, order, replies, |order| - 1, prev.entries) && prev.policies == s.policies &&
      prev.setting == s.setting
    ensures var i, es := order[|order| - 1], Settled(s.entries, replies);
            Step(prev, i, replies[i]) ==
              State(s.setting, if AnyPayment(es) then Serialized(es, s.policies) else s.policies, es,
                    prev.continuations + [GoesOn(s.setting, es, s.policies)], false)
  {
    hide FirstError, Serialized, PaymentsOf, ShareOf;
    var i := order[|order| - 1];
    var es := prev.entries[i := Replied(prev.entries[i], replies[i])];
    GoingWellStep(s, order, replies, |order| - 1, prev.entries);
    NoErrorYet(s, order, replies, |order|, es);
    AllReplied(s, order, replies, es);
  }

  /** Payment is due exactly if some reply asks for it. */
  lemma PaymentIffAsked(s: State, replies: seq<Details>)
    requires Ready(s) && |replies| == |s.entries|
    ensures AnyPayment(Settled(s.entries, replies)) <==>
            exists i :: 0 <= i < |replies| && s.entries[i].tu.Some? && replies[i].us == US_PAYMENT_REQUIRED
  {
    var es := Settled(s.entries, replies);
    if i :| 0 <= i < |es| && es[i].paymentRequest.Some? {
      assert s.entries[i].tu.Some? && replies[i].us == US_PAYMENT_REQUIRED;
    }
    if i :| 0 <= i < |replies| && s.entries[i].tu.Some? && replies[i].us == US_PAYMENT_REQUIRED {
      assert es[i].paymentRequest.Some?;
    }
  }

  /** Positions of the uploads answered with a request for payment. */
  ghost function Asking(es: seq<Entry>, replies: seq<Details>): (idx: seq<nat>)
    requires |es| == |replies|
    ensures forall k :: 0 <= k < |idx| ==>
      idx[k] < |es| && es[idx[k]].tu.Some? && replies[idx[k]].us == US_PAYMENT_REQUIRED
  {
    if es == [] then []
    else
      var n := |es| - 1;
      Asking(es[..n], replies[..n]) + (if es[n].tu.Some? && replies[n].us == US_PAYMENT_REQUIRED then [n] else [])
  }

  /** They ascend, and none is left out. */
  lemma {:induction false} AskingAscends(es: seq<Entry>, replies: seq<Details>)
    requires |es| == |replies|
    ensures forall k, l :: 0 <= k < l < |Asking(es, replies)| ==> Asking(es, replies)[k] < Asking(es, replies)[l]
    ensures forall i :: 0 <= i < |es| && es[i].tu.Some? && replies[i].us == US_PAYMENT_REQUIRED ==>
      i in Asking(es, replies)
  {
    if es != [] {
      AskingAscends(es[..|es| - 1], replies[..|es| - 1]);
    }
  }

  lemma {:induction false} PaymentsAsked(es: seq<Entry>, replies: seq<Details>)
    requires |es| == |replies| && forall i :: 0 <= i < |es| ==> es[i].paymentRequest.None?
    ensures var idx, l := Asking(es, replies), PaymentsOf(Settled(es, replies));
            |l| == |idx| && forall k :: 0 <= k < |idx| ==> l[k] == replies[idx[k]].payment
  {
    if es != [] {
      var n := |es| - 1;
      PaymentsAsked(es[..n], replies[..n]);
      assert Settled(es, replies)[..n] == Settled(es[..n], replies[..n]);
    }
  }

  /**
   * If some upload asks for payment and none fails, the caller is told the payment requests of exactly
   * the uploads that ask, in the order of the entries, and none is lost.
   */
  lemma AllPaymentsTold(tr: seq<State>, order: seq<nat>, replies: seq<Details>) returns (l: seq<string>)
    requires FullRun(tr, order, replies) && NoError(order, replies)
    requires exists i :: 0 <= i < |order| && replies[order[i]].us == US_PAYMENT_REQUIRED
    ensures tr[|order|].continuations == tr[0].continuations + [PayTruths(l)]
    ensures var idx := Asking(tr[0].entries, replies);
            |l| == |idx| && forall k :: 0 <= k < |idx| ==> l[k] == replies[idx[k]].payment
  {
    hide PaymentsOf, Asking;
    l := PaymentsOf(Settled(tr[0].entries, replies));
    GoesOnAtLastReply(tr, order, replies, |order|);
    PaymentIffAsked(tr[0], replies);
    PaymentInOrder(tr[0], order, replies);
    PaymentsAsked(tr[0].entries, replies);
  }

  /** Whatever the replies and their order, the caller is told exactly once more how it goes on. */
  lemma ExactlyOneContinuation(tr: seq<State>, order: seq<nat>, replies: seq<Details>)
    requires FullRun(tr, order, replies)
    ensures |tr[|order|].continuations| == |tr[0].continuations| + 1 && tr[0].continuations <= tr[|order|].continuations
    ensures !tr[|order|].live
  {
    if NoError(order, replies) {
      GoesOnAtLastReply(tr, order, replies, |order|);
    } else {
      var k := EarliestError(order, replies);
      FirstErrorEnds(tr, order, replies, k, |order|);
    }
  }

  lemma EarliestError(order: seq<nat>, replies: seq<Details>) returns (k: nat)
    requires forall k :: 0 <= k < |order| ==> order[k] < |replies|
    requires !NoError(order, replies)
    ensures k < |order| && replies[order[k]].ec != EC_NONE
    ensures forall j :: 0 <= j < k ==> replies[order[j]].ec == EC_NONE
  {
    k := 0;
    while k < |order| && replies[order[k]].ec == EC_NONE
      invariant k <= |order| && forall j :: 0 <= j < k ==> replies[order[j]].ec == EC_NONE
    {
      k := k + 1;
    }
  }

  /** There are policies, and each has methods. */
  ghost predicate Populated(ps: seq<seq<Slot>>) {
    ps != [] && forall i :: 0 <= i < |ps| ==> ps[i] != []
  }

  /** There is a policy provider, and the salt of each of them is known. */
  ghost predicate HasDestinations(se: Setting) {
    |se.policyProviders| > 0 && forall u :: u in se.policyProviders ==> u in se.salts
  }

  ghost predicate Shares(s: State) {
    exists i :: 0 <= i < |s.continuations| && s.continuations[i].Share?
  }

  /**
   * After a fault-free start sharing begins exactly when every upload has replied, none with an
   * error and none asking for payment, no policy is without methods, and there are providers to share
   * with, each with a salt: the truth of every slot is found then.
   */
  lemma SharingOnlyWhenAllDone(tr: seq<State>, order: seq<nat>, replies: seq<Details>, freshTruth: Key -> Truth, k: nat)
    requires FullRun(tr, order, replies) && k < |tr| && tr[0].continuations == []
    requires Tracks(tr[0].entries, Placements(tr[0].policies), freshTruth)
    ensures Shares(tr[k]) <==>
            && k == |order| && Populated(tr[0].policies) && HasDestinations(tr[0].setting)
            && forall i :: 0 <= i < |order| ==>
              replies[order[i]].ec == EC_NONE && replies[order[i]].us != US_PAYMENT_REQUIRED
  {
    hide Tracks, Next, PaymentsOf, Serialized, Shareable, TruthsFor;
    var es, ps := Settled(tr[0].entries, replies), tr[0].policies;
    if NoError(order, replies) {
      GoesOnAtLastReply(tr, order, replies, k);
      PaymentIffAsked(tr[0], replies);
      PaymentInOrder(tr[0], order, replies);
      ShareableIffPopulated(tr[0].entries, replies, ps, freshTruth);
      if k == |order| {
        assert tr[k].continuations == [GoesOn(tr[0].setting, es, ps)];
        assert tr[k].continuations[0] == GoesOn(tr[0].setting, es, ps);
      }
    } else {
      var l := EarliestError(order, replies);
      FirstErrorEnds(tr, order, replies, l, k);
    }
  }

  lemma PaymentInOrder(s: State, order: seq<nat>, replies: seq<Details>)
    requires Covers(order, s.entries) && |replies| == |s.entries|
    ensures (exists i :: 0 <= i < |replies| && s.entries[i].tu.Some? && replies[i].us == US_PAYMENT_REQUIRED) <==>
            exists l :: 0 <= l < |order| && replies[order[l]].us == US_PAYMENT_REQUIRED
  {
    if i :| 0 <= i < |replies| && s.entries[i].tu.Some? && replies[i].us == US_PAYMENT_REQUIRED {
      var l :| 0 <= l < |order| && order[l] == i;
      assert replies[order[l]].us == US_PAYMENT_REQUIRED;
    }
  }

  lemma ShareableIffPopulated(es: seq<Entry>, replies: seq<Details>, ps: seq<seq<Slot>>, freshTruth: Key -> Truth)
    requires Tracks(es, Placements(ps), freshTruth) && |replies| == |es|
    ensures Shareable(Settled(es, replies), ps) <==> Populated(ps)
  {
    var fs := Settled(es, replies);
    forall i, j | 0 <= i < |ps| && 0 <= j < |ps[i]| ensures TruthFor(fs, ps[i][j]).Some? {
      SlotHasEntry(es, ps, freshTruth, i, j);
      SameKeysSameIndex(es, fs, KeyOf(ps[i][j]));
      TracksUnanswered(es, Placements(ps), freshTruth);
    }
    if Populated(ps) {
      assert forall i :: 0 <= i < |ps| ==> RowShareable(fs, ps[i]);
    }
    if Shareable(fs, ps) {
      assert forall i :: 0 <= i < |ps| ==> RowShareable(fs, ps[i]);
    }
  }

  lemma SameKeysSameIndex(es: seq<Entry>, fs: seq<Entry>, key: Key)
    requires |es| == |fs| && forall k :: 0 <= k < |es| ==> fs[k].key == es[k].key
    ensures IndexOf(fs, key) == IndexOf(es, key)
  {
    IndexIs(fs, key, IndexOf(es, key));
  }

  // ----- whole calls of upload

  /** One call of upload on these policies, with the replies to all the uploads it leaves running. */
  ghost predicate Call(ps: seq<seq<Slot>>, se: Setting, tr: seq<State>, order: seq<nat>, replies: seq<Details>) {
    AllReply(tr, order, replies) && tr[0] == Uploaded(ps, se)
  }

  /** Some key used by these slots has its upload running once they are registered. */
  ghost predicate SomeRunning(ds: seq<Placed>, freshTruth: Key -> Truth) {
    exists m :: 0 <= m < |ds| && PhaseOf(SlotsOf(ds), KeyOf(ds[m].s), freshTruth).InFlight?
  }

  /** The first fault is a missing salt for a serialized truth, while uploads for earlier slots run. */
  ghost predicate Orphaned(ps: seq<seq<Slot>>, se: Setting) {
    var ds := Placements(ps);
    var k := FirstFault(ds, se);
    k < |ds| && LeavesRunning(ds[k].s, se) && SomeRunning(ds[..k], se.freshTruth)
  }

  lemma RunningIffInFlight(es: seq<Entry>, ds: seq<Placed>, freshTruth: Key -> Truth)
    requires Tracks(es, ds, freshTruth)
    ensures AnyInFlight(es) <==> SomeRunning(ds, freshTruth)
  {
    if i :| 0 <= i < |es| && es[i].tu.Some? {
      assert Accounts(es[i], ds, freshTruth);
      if forall m :: 0 <= m < |ds| ==> KeyOf(ds[m].s) != es[i].key {
        UnusedKey(ds, es[i].key, freshTruth);
      }
      var m :| 0 <= m < |ds| && KeyOf(ds[m].s) == es[i].key;
      assert PhaseOf(SlotsOf(ds), KeyOf(ds[m].s), freshTruth).InFlight?;
    }
    if m :| 0 <= m < |ds| && PhaseOf(SlotsOf(ds), KeyOf(ds[m].s), freshTruth).InFlight? {
      assert HasKey(es, KeyOf(ds[m].s));
      var i :| 0 <= i < |es| && es[i].key == KeyOf(ds[m].s);
      assert Accounts(es[i], ds, freshTruth);
      assert es[i].tu.Some?;
    }
  }

  /** When upload returns, it has told the caller how it goes on or something is still running. */
  lemma UploadedCases(ps: seq<seq<Slot>>, se: Setting)
    ensures var s := Uploaded(ps, se);
            && s.policies == ps
            && (AnyInFlight(s.entries) ==> Ready(s))
            && |s.continuations| == (if AnyInFlight(s.entries) && !Orphaned(ps, se) then 0 else 1)
            && (Orphaned(ps, se) ==> AnyInFlight(s.entries) && s.continuations == [BadState])
  {
    var ds, f := Placements(ps), se.freshTruth;
    var k := FirstFault(ds, se);
    FirstFaultIs(ds, se);
    if k < |ds| && LeavesRunning(ds[k].s, se) {
      EntriesTrack(ds[..k], f);
      RunningIffInFlight(Entries(ds[..k], f), ds[..k], f);
      PartRefsSound(Entries(ds[..k], f), ds[..k], ps, f);
      TracksUnanswered(Entries(ds[..k], f), ds[..k], f);
      assert ds[k] in ds;
      PlacementsHold(ps, ds[k]);
      FaultNotInFlight(ds, k, se);
      ParkedReady(Entries(ds[..k], f), ds[k], ps);
    }
    if Uploaded(ps, se).live {
      UploadIsReady(ps, se);
    }
  }

  /**
   * Over one call and all the replies to it the caller is told exactly once how it goes on, unless
   * the call was orphaned. Then it is told twice: first of the bad state, and once more at the end of
   * the uploads that nobody cancelled.
   */
  lemma CallContinuations(ps: seq<seq<Slot>>, se: Setting, tr: seq<State>, order: seq<nat>, replies: seq<Details>)
    requires Call(ps, se, tr, order, replies)
    ensures |tr[|order|].continuations| == 1 <==> !Orphaned(ps, se)
    ensures Orphaned(ps, se) ==> |tr[|order|].continuations| == 2 && tr[|order|].continuations[0] == BadState
  {
    UploadedCases(ps, se);
    if order != [] {
      assert tr[0].entries[order[0]].tu.Some?;
      ExactlyOneContinuation(tr, order, replies);
    } else {
      assert !AnyInFlight(tr[0].entries);
    }
  }

  /**
   * A fault-free call shares exactly if all uploads it begins (there may be none) are answered without
   * error and without a request for payment, no policy is without methods, and there are destinations.
   */
  lemma CallSharesIff(ps: seq<seq<Slot>>, se: Setting, tr: seq<State>, order: seq<nat>, replies: seq<Details>)
    requires Call(ps, se, tr, order, replies) && Faultless(Placements(ps), se)
    ensures Shares(tr[|order|]) <==>
            && Populated(ps) && HasDestinations(se)
            && forall i :: 0 <= i < |order| ==>
                 replies[order[i]].ec == EC_NONE && replies[order[i]].us != US_PAYMENT_REQUIRED
  {
    hide Shareable, TruthsFor, Tracks, Next;
    var es, f := tr[0].entries, se.freshTruth;
    FaultlessIff(Placements(ps), se);
    EntriesTrack(Placements(ps), f);
    UploadedCases(ps, se);
    if order != [] {
      assert es[order[0]].tu.Some?;
      SharingOnlyWhenAllDone(tr, order, replies, f, |order|);
    } else {
      assert !AnyInFlight(es);
      if ps != [] {
        ShareableIffPopulated(es, replies, ps, f);
        assert Settled(es, replies) == es;
        assert tr[0].continuations == [ShareOf(se, es, ps)];
        assert tr[0].continuations[0] == ShareOf(se, es, ps);
      }
    }
  }

  // ----- faults

  /** An upload must begin here: the key is new and bare, or its truth is not stored and nothing runs for it. */
  ghost predicate MustBegin(before: seq<Slot>, s: Slot) {
    var key := KeyOf(s);
    if s.truth.None? then !Occurs(before, key)
    else
      && s.truth.value.status != US_SUCCESS
      && (Occurs(before, key) ==> LastSaved(before, key).Some? && LastSaved(before, key).value.status == US_SUCCESS)
  }

  /** A slot is faulty exactly if its method does not exist, or an upload must begin and the salt is missing. */
  lemma FaultIff(ds: seq<Placed>, k: nat, se: Setting)
    requires k < |ds|
    ensures FaultAt(ds, k, se) <==>
            ds[k].s.am >= se.numMethods || (MustBegin(SlotsOf(ds[..k]), ds[k].s) && ds[k].s.provider !in se.salts)
  {
    UploadedIff(SlotsOf(ds[..k]), KeyOf(ds[k].s), se.freshTruth);
  }

  /**
   * After a fault the caller is told of the bad state only. Everything begun is cancelled, unless the
   * method exists and the slot has a serialized truth: then all uploads begun go on.
   */
  lemma FaultOutcome(ps: seq<seq<Slot>>, se: Setting)
    requires !Faultless(Placements(ps), se)
    ensures var s, ds, k := Uploaded(ps, se), Placements(ps), FirstFault(Placements(ps), se);
            && k < |ds| && FaultAt(ds, k, se) && (forall j :: 0 <= j < k ==> !FaultAt(ds, j, se))
            && s.policies == ps && s.continuations == [BadState]
            && (s.live <==> ds[k].s.am < se.numMethods && ds[k].s.truth.Some?)
            && (AnyInFlight(s.entries) <==> s.live && SomeRunning(ds[..k], se.freshTruth))
  {
    var ds, f := Placements(ps), se.freshTruth;
    var k := FirstFault(ds, se);
    FirstFaultIs(ds, se);
    FaultlessIff(ds, se);
    if LeavesRunning(ds[k].s, se) {
      EntriesTrack(ds[..k], f);
      RunningIffInFlight(Entries(ds[..k], f), ds[..k], f);
      PartRefsSound(Entries(ds[..k], f), ds[..k], ps, f);
      TracksUnanswered(Entries(ds[..k], f), ds[..k], f);
      assert ds[k] in ds;
      PlacementsHold(ps, ds[k]);
      FaultNotInFlight(ds, k, se);
      ParkedReady(Entries(ds[..k], f), ds[k], ps);
    }
  }
}
