/** Uploading in several rounds, with payments in between. */
module PaymentRounds {
  import opened Wrappers
  import opened Backup
  import opened Upload
  import opened UploadRun
  import opened UploadProtocol
  import opened KeyPhases

  ghost function SlotsIn(ps: seq<seq<Slot>>): seq<Slot> {
    SlotsOf(Placements(ps))
  }

  // ----- one round

  /**
   * One call of upload on state ps leaves state qs: unchanged after an error or when the secret was
   * shared, or with all truths serialized when a truth upload or a policy upload asked for payment.
   */
  ghost predicate Round(ps: seq<seq<Slot>>, es: seq<Entry>, replies: seq<Details>, freshTruth: Key -> Truth,
                        qs: seq<seq<Slot>>) {
    && Tracks(es, Placements(ps), freshTruth) && |replies| == |es|
    && (qs == ps || qs == Serialized(Settled(es, replies), ps))
  }

  /**
   * A call with all its replies is a round if it met no fault. After a fault it leaves the policies as
   * they are, unless it was orphaned.
   */
  lemma CallIsRound(ps: seq<seq<Slot>>, se: Setting, tr: seq<State>, order: seq<nat>, replies: seq<Details>)
    requires Call(ps, se, tr, order, replies)
    ensures Faultless(Placements(ps), se) ==>
              Round(ps, tr[0].entries, replies, se.freshTruth, tr[|order|].policies)
    ensures !Faultless(Placements(ps), se) && !Orphaned(ps, se) ==> tr[|order|].policies == ps
  {
    UploadedCases(ps, se);
    FaultlessIff(Placements(ps), se);
    EntriesTrack(Placements(ps), se.freshTruth);
    if order != [] {
      assert tr[0].entries[order[0]].tu.Some?;
      if NoError(order, replies) {
        GoesOnAtLastReply(tr, order, replies, |order|);
      } else {
        var k := EarliestError(order, replies);
        FirstErrorEnds(tr, order, replies, k, |order|);
      }
    }
  }

  /** The status a slot is serialized with: that of the reply, or success if nothing was uploaded. */
  function StatusAfter(e: Entry, ud: Details): nat {
    if e.tu.Some? then ud.us else US_SUCCESS
  }

  /** The entry of a key in use is in the phase its slots call for. */
  lemma KeyEntry(ps: seq<seq<Slot>>, es: seq<Entry>, freshTruth: Key -> Truth, key: Key)
    requires Tracks(es, Placements(ps), freshTruth) && Occurs(SlotsIn(ps), key)
    ensures var k, ph := IndexOf(es, key), PhaseOf(SlotsIn(ps), key, freshTruth);
            k < |es| && !ph.Absent? && EntryPhase(es[k]) == ph && es[k].us == US_SUCCESS
            && (es[k].tu.Some? <==> es[k].t.None?)
  {
    var m :| 0 <= m < |SlotsIn(ps)| && KeyOf(SlotsIn(ps)[m]) == key;
    assert HasKey(es, KeyOf(Placements(ps)[m].s));
    assert Accounts(es[IndexOf(es, key)], Placements(ps), freshTruth);
  }

  /** Serialization gives every slot of a key the truth of the key, whatever it carried before. */
  lemma SerializedKey(ps: seq<seq<Slot>>, es: seq<Entry>, replies: seq<Details>, freshTruth: Key -> Truth, key: Key)
    requires Tracks(es, Placements(ps), freshTruth) && |replies| == |es| && Occurs(SlotsIn(ps), key)
    ensures var k, qs := IndexOf(es, key), Serialized(Settled(es, replies), ps);
            && k < |es| && !PhaseOf(SlotsIn(ps), key, freshTruth).Absent?
            && var sv := SavedTruth(PhaseOf(SlotsIn(ps), key, freshTruth).t, StatusAfter(es[k], replies[k]));
            && Keeps(SlotsIn(qs), key, sv.truth) && LastSaved(SlotsIn(qs), key) == Some(sv)
  {
    var fs := Settled(es, replies);
    var k, qs := IndexOf(es, key), Serialized(fs, ps);
    KeyEntry(ps, es, freshTruth, key);
    SameKeysSameIndex(es, fs, key);
    var sv := SavedTruth(PhaseOf(SlotsIn(ps), key, freshTruth).t, StatusAfter(es[k], replies[k]));
    var ss := SlotsIn(qs);
    forall m | 0 <= m < |ss| && KeyOf(ss[m]) == key ensures ss[m].truth == Some(sv) {
      var d := Placements(qs)[m];
      assert d in Placements(qs);
      PlacementsHold(qs, d);
      SlotAfter(ps, es, replies, freshTruth, d.r.policy, d.r.method_);
    }
    var m :| 0 <= m < |SlotsIn(ps)| && KeyOf(SlotsIn(ps)[m]) == key;
    var d := Placements(ps)[m];
    assert d in Placements(ps);
    PlacementsHold(ps, d);
    SlotAfter(ps, es, replies, freshTruth, d.r.policy, d.r.method_);
    SlotOccurs(qs, d.r.policy, d.r.method_);
    AllAlike(ss, key, sv);
  }

  lemma SlotOccurs(ps: seq<seq<Slot>>, i: nat, j: nat)
    requires i < |ps| && j < |ps[i]|
    ensures ps[i][j] in SlotsIn(ps) && Occurs(SlotsIn(ps), KeyOf(ps[i][j]))
  {
    var d := Placed(Ref(i, j), ps[i][j]);
    PlacementsHold(ps, d);
    var m :| 0 <= m < |Placements(ps)| && Placements(ps)[m] == d;
    assert SlotsIn(ps)[m] == ps[i][j];
  }

  lemma SlotAfter(ps: seq<seq<Slot>>, es: seq<Entry>, replies: seq<Details>, freshTruth: Key -> Truth, i: nat, j: nat)
    requires Tracks(es, Placements(ps), freshTruth) && |replies| == |es| && i < |ps| && j < |ps[i]|
    ensures var key, qs := KeyOf(ps[i][j]), Serialized(Settled(es, replies), ps);
            && var k, ph := IndexOf(es, key), PhaseOf(SlotsIn(ps), key, freshTruth);
            && k < |es| && !ph.Absent? && SameShape(ps, qs)
            && qs[i][j] == ps[i][j].(truth := Some(SavedTruth(ph.t, StatusAfter(es[k], replies[k]))))
  {
    var fs, key := Settled(es, replies), KeyOf(ps[i][j]);
    SlotOccurs(ps, i, j);
    KeyEntry(ps, es, freshTruth, key);
    SameKeysSameIndex(es, fs, key);
    Bookkeeping(es, ps, freshTruth);
    assert Serialized(fs, ps)[i] == SerializedRow(fs, i, ps[i]);
    forall l | 0 <= l < |ps| ensures |Serialized(fs, ps)[l]| == |ps[l]| {
      assert Serialized(fs, ps)[l] == SerializedRow(fs, l, ps[l]);
    }
  }

  /**
   * One round: a key whose truth is not about to be replaced keeps it, uploads that truth or none, and
   * uploads it exactly if it is not stored yet. Once stored it stays so.
   */
  lemma RoundKeepsTruth(ps: seq<seq<Slot>>, es: seq<Entry>, replies: seq<Details>, freshTruth: Key -> Truth,
                        qs: seq<seq<Slot>>, key: Key, t: Truth)
    requires Round(ps, es, replies, freshTruth, qs) && Keeps(SlotsIn(ps), key, t)
    ensures Keeps(SlotsIn(qs), key, t)
    ensures var k := IndexOf(es, key);
            k < |es| && es[k].tu == if StoredLast(SlotsIn(ps), key) then None else Some(t)
    ensures StoredLast(SlotsIn(ps), key) ==> StoredLast(SlotsIn(qs), key)
  {
    KeepsTruthIff(SlotsIn(ps), key, t, freshTruth);
    UploadedIff(SlotsIn(ps), key, freshTruth);
    KeyEntry(ps, es, freshTruth, key);
    if qs != ps {
      SerializedKey(ps, es, replies, freshTruth, key);
    }
  }

  /** Once serialized, no key in use is about to have its truth replaced. */
  lemma SerializedKeeps(ps: seq<seq<Slot>>, es: seq<Entry>, replies: seq<Details>, freshTruth: Key -> Truth, key: Key)
    requires Tracks(es, Placements(ps), freshTruth) && |replies| == |es| && Occurs(SlotsIn(ps), key)
    ensures !PhaseOf(SlotsIn(ps), key, freshTruth).Absent?
    ensures Keeps(SlotsIn(Serialized(Settled(es, replies), ps)), key, PhaseOf(SlotsIn(ps), key, freshTruth).t)
  {
    SerializedKey(ps, es, replies, freshTruth, key);
  }

  /** A serialization replaces the truth of a slot unless the key uses that very truth. */
  lemma SlotKeepsIff(ps: seq<seq<Slot>>, es: seq<Entry>, replies: seq<Details>, freshTruth: Key -> Truth, i: nat,
                     j: nat)
    requires Tracks(es, Placements(ps), freshTruth) && |replies| == |es|
    requires i < |ps| && j < |ps[i]| && ps[i][j].truth.Some?
    ensures var qs, ph := Serialized(Settled(es, replies), ps), PhaseOf(SlotsIn(ps), KeyOf(ps[i][j]), freshTruth);
            && SameShape(ps, qs) && qs[i][j].truth.Some? && !ph.Absent?
            && (qs[i][j].truth.value.truth == ps[i][j].truth.value.truth <==> ph.t == ps[i][j].truth.value.truth)
  {
    SlotAfter(ps, es, replies, freshTruth, i, j);
  }

  // ----- any number of rounds

  /** States of the policies between rounds; what the rounds had in flight, and the replies. */
  ghost predicate History(hist: seq<seq<seq<Slot>>>, ess: seq<seq<Entry>>, replies: seq<seq<Details>>,
                          freshTruths: seq<Key -> Truth>) {
    && |hist| == |ess| + 1 && |replies| == |freshTruths| == |ess|
    && forall m :: 0 <= m < |ess| ==> Round(hist[m], ess[m], replies[m], freshTruths[m], hist[m + 1])
  }

  /**
   * Over any number of rounds a key keeps its serialized truth, UUID, key and key share included, if it
   * was not about to be replaced at the start; and once stored it stays so.
   */
  lemma {:induction false} TruthSurvivesRounds(hist: seq<seq<seq<Slot>>>, ess: seq<seq<Entry>>,
                                               replies: seq<seq<Details>>,
                                               freshTruths: seq<Key -> Truth>, m: nat, n: nat, key: Key, t: Truth)
    requires History(hist, ess, replies, freshTruths) && m <= n < |hist| && Keeps(SlotsIn(hist[m]), key, t)
    ensures Keeps(SlotsIn(hist[n]), key, t)
    ensures StoredLast(SlotsIn(hist[m]), key) ==> StoredLast(SlotsIn(hist[n]), key)
  {
    hide Round, Keeps, StoredLast;
    if m < n {
      TruthSurvivesRounds(hist, ess, replies, freshTruths, m, n - 1, key, t);
      assert Round(hist[n - 1], ess[n - 1], replies[n - 1], freshTruths[n - 1], hist[n - 1 + 1]);
      RoundKeepsTruth(hist[n - 1], ess[n - 1], replies[n - 1], freshTruths[n - 1], hist[n], key, t);
    }
  }

  /** A stored truth is in no later round uploaded again; what is uploaded for the key is its truth. */
  lemma StoredNeverUploadedAgain(hist: seq<seq<seq<Slot>>>, ess: seq<seq<Entry>>, replies: seq<seq<Details>>,
                                 freshTruths: seq<Key -> Truth>, m: nat, n: nat, key: Key, t: Truth)
    requires History(hist, ess, replies, freshTruths) && m <= n < |ess| && Keeps(SlotsIn(hist[m]), key, t)
    ensures var k := IndexOf(ess[n], key);
            && k < |ess[n]|
            && (StoredLast(SlotsIn(hist[m]), key) ==> ess[n][k].tu.None?)
            && (ess[n][k].tu.None? || ess[n][k].tu == Some(t))
  {
    hide Round, Keeps, StoredLast;
    TruthSurvivesRounds(hist, ess, replies, freshTruths, m, n, key, t);
    assert Round(hist[n], ess[n], replies[n], freshTruths[n], hist[n + 1]);
    RoundKeepsTruth(hist[n], ess[n], replies[n], freshTruths[n], hist[n + 1], key, t);
  }
}
