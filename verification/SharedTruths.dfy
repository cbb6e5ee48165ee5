/** Which of the truths handed to secret sharing are known to be stored at their providers. */
module SharedTruths {
  import opened Wrappers
  import opened Backup
  import opened Upload
  import opened UploadRun
  import opened UploadProtocol
  import opened KeyPhases
  import opened PaymentRounds

  /** The truth was serialized as stored for the key, or uploaded for it in this call with success. */
  ghost predicate OnRecord(ps: seq<seq<Slot>>, es: seq<Entry>, replies: seq<Details>, key: Key, t: Truth)
    requires |replies| == |es|
  {
    || StoredIn(SlotsIn(ps), key, t)
    || exists k :: 0 <= k < |es| && es[k].key == key && es[k].tu == Some(t) && replies[k].us == US_SUCCESS
  }

  /** Every truth handed on for a slot is on record. */
  ghost predicate AllOnRecord(ps: seq<seq<Slot>>, es: seq<Entry>, replies: seq<Details>)
    requires |replies| == |es|
  {
    forall i, j :: 0 <= i < |ps| && 0 <= j < |ps[i]| ==> SlotOnRecord(ps, es, replies, ps[i][j])
  }

  ghost predicate SlotOnRecord(ps: seq<seq<Slot>>, es: seq<Entry>, replies: seq<Details>, s: Slot)
    requires |replies| == |es|
  {
    var t := TruthFor(Settled(es, replies), s);
    t.Some? && OnRecord(ps, es, replies, KeyOf(s), t.value)
  }

  /** Every upload was answered with success, or its truth had been serialized as stored before. */
  ghost predicate UploadsSucceed(ps: seq<seq<Slot>>, es: seq<Entry>, replies: seq<Details>)
    requires |replies| == |es|
  {
    forall k :: 0 <= k < |es| && es[k].tu.Some? ==>
      replies[k].us == US_SUCCESS || StoredIn(SlotsIn(ps), es[k].key, es[k].tu.value)
  }

  /** No truth that still waits to be stored is replaced by another one for its key. */
  ghost predicate NoneReplaced(ps: seq<seq<Slot>>, freshTruth: Key -> Truth) {
    forall i, j :: 0 <= i < |ps| && 0 <= j < |ps[i]| ==> NotReplaced(ps, freshTruth, ps[i][j])
  }

  ghost predicate NotReplaced(ps: seq<seq<Slot>>, freshTruth: Key -> Truth, s: Slot) {
    s.truth.Some? ==>
      || StoredIn(SlotsIn(ps), KeyOf(s), s.truth.value.truth)
      || PhaseOf(SlotsIn(ps), KeyOf(s), freshTruth) == InFlight(s.truth.value.truth)
  }

  /** What is handed on for a slot: its own truth, else that of its key. */
  lemma HandedOn(ps: seq<seq<Slot>>, es: seq<Entry>, replies: seq<Details>, freshTruth: Key -> Truth, i: nat, j: nat)
    requires Tracks(es, Placements(ps), freshTruth) && |replies| == |es| && i < |ps| && j < |ps[i]|
    ensures var s := ps[i][j];
            var k, ph := IndexOf(es, KeyOf(s)), PhaseOf(SlotsIn(ps), KeyOf(s), freshTruth);
            && k < |es| && EntryPhase(es[k]) == ph && !ph.Absent?
            && TruthFor(Settled(es, replies), s) == Some(if s.truth.Some? then s.truth.value.truth else ph.t)
  {
    SlotOccurs(ps, i, j);
    KeyEntry(ps, es, freshTruth, KeyOf(ps[i][j]));
    SameKeysSameIndex(es, Settled(es, replies), KeyOf(ps[i][j]));
  }

  /** A slot's truth is on record if the uploads succeed and it is not replaced. */
  lemma SlotSafe(ps: seq<seq<Slot>>, es: seq<Entry>, replies: seq<Details>, freshTruth: Key -> Truth, i: nat, j: nat)
    requires Tracks(es, Placements(ps), freshTruth) && |replies| == |es| && i < |ps| && j < |ps[i]|
    requires UploadsSucceed(ps, es, replies) && NotReplaced(ps, freshTruth, ps[i][j])
    ensures SlotOnRecord(ps, es, replies, ps[i][j])
  {
    var s := ps[i][j];
    HandedOn(ps, es, replies, freshTruth, i, j);
    var k, t := IndexOf(es, KeyOf(s)), TruthFor(Settled(es, replies), s).value;
    PhaseOrigin(SlotsIn(ps), KeyOf(s), t, freshTruth);
    if !StoredIn(SlotsIn(ps), KeyOf(s), t) {
      assert es[k].tu == Some(t);
    }
  }

  /** An upload is on record with its slot, so it succeeded or was stored before. */
  lemma UploadSafe(ps: seq<seq<Slot>>, es: seq<Entry>, replies: seq<Details>, freshTruth: Key -> Truth, k: nat)
    requires Tracks(es, Placements(ps), freshTruth) && |replies| == |es| && AllOnRecord(ps, es, replies)
    requires k < |es| && es[k].tu.Some?
    ensures replies[k].us == US_SUCCESS || StoredIn(SlotsIn(ps), es[k].key, es[k].tu.value)
  {
    var key, t, ss := es[k].key, es[k].tu.value, SlotsIn(ps);
    assert Accounts(es[k], Placements(ps), freshTruth);
    PhaseOrigin(ss, key, t, freshTruth);
    if !StoredIn(ss, key, t) {
      var m :| 0 <= m < |ss| && KeyOf(ss[m]) == key && (ss[m].truth.None? || ss[m].truth.value.truth == t);
      var d := Placements(ps)[m];
      assert d in Placements(ps);
      PlacementsHold(ps, d);
      HandedOn(ps, es, replies, freshTruth, d.r.policy, d.r.method_);
      assert SlotOnRecord(ps, es, replies, ps[d.r.policy][d.r.method_]);
      var l :| 0 <= l < |es| && es[l].key == key && es[l].tu == Some(t) && replies[l].us == US_SUCCESS;
      assert l == k;
    }
  }

  lemma NotReplacedIfOnRecord(ps: seq<seq<Slot>>, es: seq<Entry>, replies: seq<Details>, freshTruth: Key -> Truth,
                              i: nat, j: nat)
    requires Tracks(es, Placements(ps), freshTruth) && |replies| == |es| && i < |ps| && j < |ps[i]|
    requires SlotOnRecord(ps, es, replies, ps[i][j])
    ensures NotReplaced(ps, freshTruth, ps[i][j])
  {
    var s, ss := ps[i][j], SlotsIn(ps);
    HandedOn(ps, es, replies, freshTruth, i, j);
    var k, t := IndexOf(es, KeyOf(s)), TruthFor(Settled(es, replies), s).value;
    if !StoredIn(ss, KeyOf(s), t) {
      var l :| 0 <= l < |es| && es[l].key == KeyOf(s) && es[l].tu == Some(t) && replies[l].us == US_SUCCESS;
      assert l == k;
    }
  }

  /**
   * All truths handed on are on record exactly if every upload succeeds (or its truth was stored
   * before) and no truth that waits to be stored is replaced for its key.
   */
  lemma OnRecordIff(ps: seq<seq<Slot>>, es: seq<Entry>, replies: seq<Details>, freshTruth: Key -> Truth)
    requires Tracks(es, Placements(ps), freshTruth) && |replies| == |es|
    ensures AllOnRecord(ps, es, replies) <==> UploadsSucceed(ps, es, replies) && NoneReplaced(ps, freshTruth)
  {
    hide SlotOnRecord, NotReplaced, Tracks, StoredIn;
    if AllOnRecord(ps, es, replies) {
      forall k | 0 <= k < |es| && es[k].tu.Some?
        ensures replies[k].us == US_SUCCESS || StoredIn(SlotsIn(ps), es[k].key, es[k].tu.value)
      {
        UploadSafe(ps, es, replies, freshTruth, k);
      }
      forall i, j | 0 <= i < |ps| && 0 <= j < |ps[i]| ensures NotReplaced(ps, freshTruth, ps[i][j]) {
        assert SlotOnRecord(ps, es, replies, ps[i][j]);
        NotReplacedIfOnRecord(ps, es, replies, freshTruth, i, j);
      }
    }
    if UploadsSucceed(ps, es, replies) && NoneReplaced(ps, freshTruth) {
      forall i, j | 0 <= i < |ps| && 0 <= j < |ps[i]| ensures SlotOnRecord(ps, es, replies, ps[i][j]) {
        assert NotReplaced(ps, freshTruth, ps[i][j]);
        SlotSafe(ps, es, replies, freshTruth, i, j);
      }
    }
  }

  /**
   * Where the serialized truths of every key agree, none is replaced exactly if each such key keeps its
   * truth or has it stored.
   */
  lemma NoneReplacedIff(ps: seq<seq<Slot>>, freshTruth: Key -> Truth)
    requires forall i, j :: 0 <= i < |ps| && 0 <= j < |ps[i]| && ps[i][j].truth.Some? ==>
               && SavedAs(SlotsIn(ps), KeyOf(ps[i][j]), ps[i][j].truth.value.truth)
               && freshTruth(KeyOf(ps[i][j])) != ps[i][j].truth.value.truth
    ensures NoneReplaced(ps, freshTruth) <==>
            forall i, j :: 0 <= i < |ps| && 0 <= j < |ps[i]| && ps[i][j].truth.Some? ==>
              Keeps(SlotsIn(ps), KeyOf(ps[i][j]), ps[i][j].truth.value.truth)
  {
    forall i, j | 0 <= i < |ps| && 0 <= j < |ps[i]| && ps[i][j].truth.Some?
      ensures NotReplaced(ps, freshTruth, ps[i][j]) <==> Keeps(SlotsIn(ps), KeyOf(ps[i][j]), ps[i][j].truth.value.truth)
    {
      SlotOccurs(ps, i, j);
      SlotNotReplacedIff(SlotsIn(ps), KeyOf(ps[i][j]), ps[i][j].truth.value.truth, freshTruth);
    }
    if NoneReplaced(ps, freshTruth) {
      assert forall i, j :: 0 <= i < |ps| && 0 <= j < |ps[i]| ==> NotReplaced(ps, freshTruth, ps[i][j]);
    }
  }

  lemma SlotNotReplacedIff(ss: seq<Slot>, key: Key, t: Truth, freshTruth: Key -> Truth)
    requires Occurs(ss, key) && SavedAs(ss, key, t) && freshTruth(key) != t
    ensures StoredIn(ss, key, t) || PhaseOf(ss, key, freshTruth) == InFlight(t) <==> Keeps(ss, key, t)
  {
    KeepsTruthIff(ss, key, t, freshTruth);
    PhaseOrigin(ss, key, t, freshTruth);
    if StoredIn(ss, key, t) {
      var k :| 0 <= k < |ss| && KeyOf(ss[k]) == key && ss[k].truth == Some(SavedTruth(t, US_SUCCESS));
      assert SomeStored(ss, key);
    }
  }

  /** A call that met no fault and ends in sharing hands on, slot by slot, what HandedOn says. */
  lemma CallHandsOn(ps: seq<seq<Slot>>, se: Setting, tr: seq<State>, order: seq<nat>, replies: seq<Details>)
    requires Call(ps, se, tr, order, replies) && Faultless(Placements(ps), se) && Shares(tr[|order|])
    ensures var es := tr[0].entries;
            && Tracks(es, Placements(ps), se.freshTruth)
            && Shareable(Settled(es, replies), ps)
            && tr[|order|].continuations == [Share(TruthsFor(Settled(es, replies), ps))]
  {
    var es := tr[0].entries;
    FaultlessIff(Placements(ps), se);
    EntriesTrack(Placements(ps), se.freshTruth);
    UploadedCases(ps, se);
    if order == [] {
      assert !AnyInFlight(es);
      assert Settled(es, replies) == es;
    } else {
      assert es[order[0]].tu.Some?;
      if NoError(order, replies) {
        GoesOnAtLastReply(tr, order, replies, |order|);
      } else {
        var k := EarliestError(order, replies);
        FirstErrorEnds(tr, order, replies, k, |order|);
      }
    }
  }

  /** The truths that a fault-free call hands to sharing are all on record under the exact condition. */
  lemma SharedOnRecordIff(ps: seq<seq<Slot>>, se: Setting, tr: seq<State>, order: seq<nat>, replies: seq<Details>)
    requires Call(ps, se, tr, order, replies) && Faultless(Placements(ps), se) && Shares(tr[|order|])
    ensures tr[|order|].continuations[0].Share?
    ensures var es, ts := tr[0].entries, tr[|order|].continuations[0].truths;
            && |ts| == |ps| && (forall i :: 0 <= i < |ps| ==> |ts[i]| == |ps[i]|)
            && ((forall i, j :: 0 <= i < |ps| && 0 <= j < |ps[i]| ==>
                   OnRecord(ps, es, replies, KeyOf(ps[i][j]), ts[i][j]))
                <==> UploadsSucceed(ps, es, replies) && NoneReplaced(ps, se.freshTruth))
  {
    hide OnRecord, UploadsSucceed, NoneReplaced, Faultless, Tracks, Shareable, TruthsFor, Settled, AllOnRecord,
      Covers, Next, Uploaded;
    CallHandsOn(ps, se, tr, order, replies);
    var es, ts := tr[0].entries, tr[|order|].continuations[0].truths;
    OnRecordIff(ps, es, replies, se.freshTruth);
    SharedSlotBySlot(ps, es, replies, ts);
  }

  lemma SharedSlotBySlot(ps: seq<seq<Slot>>, es: seq<Entry>, replies: seq<Details>, ts: seq<seq<Truth>>)
    requires |replies| == |es| && Shareable(Settled(es, replies), ps) && ts == TruthsFor(Settled(es, replies), ps)
    ensures |ts| == |ps| && forall i :: 0 <= i < |ps| ==> |ts[i]| == |ps[i]|
    ensures AllOnRecord(ps, es, replies) <==>
            forall i, j :: 0 <= i < |ps| && 0 <= j < |ps[i]| ==> OnRecord(ps, es, replies, KeyOf(ps[i][j]), ts[i][j])
  {
    var fs := Settled(es, replies);
    assert forall i :: 0 <= i < |ps| ==> RowShareable(fs, ps[i]) && ts[i] == TruthsForRow(fs, ps[i]);
    forall i, j | 0 <= i < |ps| && 0 <= j < |ps[i]|
      ensures SlotOnRecord(ps, es, replies, ps[i][j]) <==> OnRecord(ps, es, replies, KeyOf(ps[i][j]), ts[i][j])
    {
      assert TruthFor(fs, ps[i][j]) == Some(ts[i][j]);
    }
  }
}
