/** Inputs at which uploads do not do what one would expect of them. */
module UploadExamples {
  import opened Wrappers
  import opened Backup
  import opened Upload
  import opened UploadRun
  import opened UploadProtocol
  import opened PaymentRounds
  import opened SharedTruths

  const US_CONFLICTING_TRUTH: nat := 5

  const STORED := Details(US_SUCCESS, EC_NONE, "")

  lemma OnePlacement(s: Slot)
    ensures Placements([[s]]) == [Placed(Ref(0, 0), s)]
  {
    assert [[s]][..0] == [];
    assert Placements([]) == [];
  }

  lemma TwoPlacements(s: Slot, row: seq<Slot>)
    requires |row| <= 1
    ensures Placements([[s], row]) == [Placed(Ref(0, 0), s)] + PlacedRow(1, row)
  {
    assert [[s], row][..1] == [[s]];
    OnePlacement(s);
  }

  /** A bare slot at the start begins the upload of a new truth. */
  lemma BareBegins(d: Placed, se: Setting)
    requires d.s.truth.None? && d.s.am < se.numMethods && d.s.provider in se.salts
    ensures FirstFault([d], se) == 1
    ensures Entries([d], se.freshTruth) ==
            [Entry(KeyOf(d.s), [d.r], Some(se.freshTruth(KeyOf(d.s))), None, None, US_SUCCESS, EC_NONE)]
  {
    assert [d][..0] == [];
    assert FirstFault([], se) == 0 && SlotsOf([]) == [];
  }

  /**
   * A salt is missing for a serialized truth while another upload runs: the caller is told of the bad
   * state, the upload goes on, and its reply starts sharing, with a truth nobody stored.
   */
  lemma SaltFaultContinuesTwice(pa: string, pb: string, t: Truth, freshTruth: Key -> Truth)
    requires pa != pb
    ensures var ps := [[Slot(pa, 0, None)], [Slot(pb, 0, Some(SavedTruth(t, US_PAYMENT_REQUIRED)))]];
            var se := Setting(1, {pa}, [pa], freshTruth);
            var s := Uploaded(ps, se);
            && Orphaned(ps, se) && s.live && s.continuations == [BadState]
            && |s.entries| == 2 && s.entries[1].tu.Some?
            && Step(s, 1, STORED).continuations == [BadState, Share([[freshTruth(Key(pa, 0))], [t]])]
  {
    var a, b := Slot(pa, 0, None), Slot(pb, 0, Some(SavedTruth(t, US_PAYMENT_REQUIRED)));
    var ps, se := [[a], [b]], Setting(1, {pa}, [pa], freshTruth);
    var da, db := Placed(Ref(0, 0), a), Placed(Ref(1, 0), b);
    TwoPlacements(a, [b]);
    BareBegins(da, se);
    var ds := Placements(ps);
    assert ds == [da] + [db] && ds[..1] == [da];
    assert SlotsOf([da])[..0] == [] && SlotsOf([da]) == [a];
    FirstFaultSnoc([da], db, se);
    assert PhaseOf([a], KeyOf(b), freshTruth) == Absent;
    assert FaultAt(ds, 1, se);
    assert PhaseOf(SlotsOf(ds[..1]), KeyOf(ds[0].s), freshTruth).InFlight?;
    var ea := Entry(KeyOf(a), [Ref(0, 0)], Some(freshTruth(KeyOf(a))), None, None, US_SUCCESS, EC_NONE);
    var eb := Entry(KeyOf(b), [Ref(1, 0)], None, Some(t), None, US_SUCCESS, EC_NONE);
    assert Parked([ea], Ref(1, 0), b) == [eb] + [ea];
    var s := Uploaded(ps, se);
    assert s == State(se, ps, [eb, ea], [BadState], true);
    var fs := [eb, Replied(ea, STORED)];
    assert s.entries[1 := Replied(s.entries[1], STORED)] == fs;
    IndexIs(fs, KeyOf(a), 1);
    SharesRows(se, fs, [a], freshTruth(KeyOf(a)), [b], t);
    FirstErrorIs(fs, 2);
  }

  /** Two policies of one slot each hand on the truths of their slots. */
  lemma SharesRows(se: Setting, es: seq<Entry>, p: seq<Slot>, t: Truth, q: seq<Slot>, u: Truth)
    requires ProvidersKnown(se) && |p| == |q| == 1 && TruthFor(es, p[0]) == Some(t) && TruthFor(es, q[0]) == Some(u)
    ensures ShareOf(se, es, [p, q]) == Share([[t], [u]])
  {
    assert RowShareable(es, p) && RowShareable(es, q);
    assert TruthsForRow(es, p) == [t] && TruthsForRow(es, q) == [u];
    assert TruthsFor(es, [p, q]) == [[t], [u]];
  }

  /** A policy without methods lets all truths be uploaded, and then the secret cannot be shared. */
  lemma EmptyPolicyNotShared(pa: string, freshTruth: Key -> Truth)
    ensures var ps, se := [[Slot(pa, 0, None)], []], Setting(1, {pa}, [pa], freshTruth);
            var s := Uploaded(ps, se);
            && s.live && s.continuations == [] && |s.entries| == 1 && s.entries[0].tu.Some?
            && Step(s, 0, STORED).continuations == [BadState]
  {
    var a := Slot(pa, 0, None);
    var ps, se, d := [[a], []], Setting(1, {pa}, [pa], freshTruth), Placed(Ref(0, 0), a);
    TwoPlacements(a, []);
    BareBegins(d, se);
    assert Placements(ps) == [d];
    var s := Uploaded(ps, se);
    assert s.entries[0].tu.Some?;
    var fs := s.entries[0 := Replied(s.entries[0], STORED)];
    FirstErrorIs(fs, 1);
    assert !RowShareable(fs, ps[1]);
  }

  /** A reply that reports a conflicting truth, without error code, still leads to sharing. */
  lemma ConflictStillShares(pa: string, freshTruth: Key -> Truth)
    ensures var ps, se := [[Slot(pa, 0, None)]], Setting(1, {pa}, [pa], freshTruth);
            var s, conflict := Uploaded(ps, se), Details(US_CONFLICTING_TRUTH, EC_NONE, "");
            && s.live && |s.entries| == 1
            && Step(s, 0, conflict).continuations == [Share([[freshTruth(Key(pa, 0))]])]
            && !UploadsSucceed(ps, s.entries, [conflict])
  {
    var a := Slot(pa, 0, None);
    var ps, se, d := [[a]], Setting(1, {pa}, [pa], freshTruth), Placed(Ref(0, 0), a);
    var conflict := Details(US_CONFLICTING_TRUTH, EC_NONE, "");
    OnePlacement(a);
    BareBegins(d, se);
    var s := Uploaded(ps, se);
    assert s.entries[0].tu.Some?;
    var fs := s.entries[0 := Replied(s.entries[0], conflict)];
    FirstErrorIs(fs, 1);
    assert TruthFor(fs, a) == Some(freshTruth(KeyOf(a)));
    assert RowShareable(fs, ps[0]);
    assert TruthsForRow(fs, ps[0]) == [freshTruth(KeyOf(a))];
    assert TruthsFor(fs, ps) == [[freshTruth(KeyOf(a))]];
    assert SlotsIn(ps) == [a];
  }

  /** A slot without truth, then one of the same key that awaits payment. */
  function BareThenUnpaid(pa: string, t: Truth): seq<seq<Slot>> {
    [[Slot(pa, 0, None)], [Slot(pa, 0, Some(SavedTruth(t, US_PAYMENT_REQUIRED)))]]
  }

  function BothInFlight(pa: string, u: Truth): Entry {
    Entry(Key(pa, 0), [Ref(0, 0), Ref(1, 0)], Some(u), None, None, US_SUCCESS, EC_NONE)
  }

  lemma BareFirstUploads(pa: string, t: Truth, freshTruth: Key -> Truth)
    ensures Uploaded(BareThenUnpaid(pa, t), Setting(1, {pa}, [pa], freshTruth))
         == State(Setting(1, {pa}, [pa], freshTruth), BareThenUnpaid(pa, t),
                  [BothInFlight(pa, freshTruth(Key(pa, 0)))], [], true)
  {
    var ps, se, u := BareThenUnpaid(pa, t), Setting(1, {pa}, [pa], freshTruth), freshTruth(Key(pa, 0));
    var a, b := ps[0][0], ps[1][0];
    var da, db := Placed(Ref(0, 0), a), Placed(Ref(1, 0), b);
    TwoPlacements(a, [b]);
    BareBegins(da, se);
    var ds := Placements(ps);
    assert ds == [da] + [db];
    assert SlotsOf([da])[..0] == [] && SlotsOf([da]) == [a] && ds[..1] == [da];
    assert PhaseOf([a], KeyOf(a), freshTruth) == InFlight(u);
    FirstFaultSnoc([da], db, se);
    EntriesSnoc([da], db, freshTruth);
    SecondSlotJoins(pa, b, freshTruth);
    assert [BothInFlight(pa, u)][0].tu.Some?;
  }

  lemma SecondSlotJoins(pa: string, b: Slot, freshTruth: Key -> Truth)
    requires b.provider == pa && b.am == 0 && b.truth.Some? && b.truth.value.status != US_SUCCESS
    ensures var e := BothInFlight(pa, freshTruth(Key(pa, 0)));
            Processed([e.(refs := [Ref(0, 0)])], Ref(1, 0), b, freshTruth) == [e]
  {
    var e := BothInFlight(pa, freshTruth(Key(pa, 0)));
    var ea := e.(refs := [Ref(0, 0)]);
    assert ea.refs + [Ref(1, 0)] == e.refs && [ea][0 := e] == [e];
  }

  /**
   * There a new truth is uploaded. If that succeeds both truths are handed on, the old one not being
   * stored; if it has to be paid first, the new truth is serialized in place of the old one.
   */
  lemma BareSlotFirst(pa: string, t: Truth, freshTruth: Key -> Truth)
    requires freshTruth(Key(pa, 0)) != t
    ensures var ps, u := BareThenUnpaid(pa, t), freshTruth(Key(pa, 0));
            var s := Uploaded(ps, Setting(1, {pa}, [pa], freshTruth));
            && s.live && |s.entries| == 1 && s.entries[0].tu == Some(u)
            && Step(s, 0, STORED).continuations == [Share([[u], [t]])]
            && !NoneReplaced(ps, freshTruth)
            && var paid := ps[0][0].(truth := Some(SavedTruth(u, US_PAYMENT_REQUIRED)));
            Step(s, 0, Details(US_PAYMENT_REQUIRED, EC_NONE, "")).policies == [[paid], [paid]]
  {
    hide Uploaded, NoneReplaced;
    var ps, u, se := BareThenUnpaid(pa, t), freshTruth(Key(pa, 0)), Setting(1, {pa}, [pa], freshTruth);
    BareFirstUploads(pa, t, freshTruth);
    StoredThere(se, pa, t, u);
    UnpaidThere(se, pa, t, u);
    BareReplaces(ps, ps[0][0], ps[1][0], t, freshTruth);
  }

  lemma StoredThere(se: Setting, pa: string, t: Truth, u: Truth)
    requires ProvidersKnown(se)
    ensures Step(State(se, BareThenUnpaid(pa, t), [BothInFlight(pa, u)], [], true), 0, STORED).continuations
      == [Share([[u], [t]])]
  {
    var ps, e := BareThenUnpaid(pa, t), BothInFlight(pa, u);
    var stored := [e][0 := Replied(e, STORED)];
    FirstErrorIs(stored, 1);
    SharesRows(se, stored, ps[0], u, ps[1], t);
  }

  lemma UnpaidThere(se: Setting, pa: string, t: Truth, u: Truth)
    ensures var s := State(se, BareThenUnpaid(pa, t), [BothInFlight(pa, u)], [], true);
            var paid := Slot(pa, 0, Some(SavedTruth(u, US_PAYMENT_REQUIRED)));
            Step(s, 0, Details(US_PAYMENT_REQUIRED, EC_NONE, "")).policies == [[paid], [paid]]
  {
    var ps, e := BareThenUnpaid(pa, t), BothInFlight(pa, u);
    var unpaid := [e][0 := Replied(e, Details(US_PAYMENT_REQUIRED, EC_NONE, ""))];
    FirstErrorIs(unpaid, 1);
    assert unpaid[0].paymentRequest.Some?;
    BothSerialized(unpaid, ps[0][0], ps[1][0], u);
  }

  lemma BothSerialized(es: seq<Entry>, a: Slot, b: Slot, u: Truth)
    requires |es| == 1 && KeyOf(a) == KeyOf(b) == es[0].key && es[0].refs == [Ref(0, 0), Ref(1, 0)]
    requires es[0].t == Some(u) && es[0].us == US_PAYMENT_REQUIRED
    ensures var paid := a.(truth := Some(SavedTruth(u, US_PAYMENT_REQUIRED)));
            Serialized(es, [[a], [b]]) == [[paid], [paid]]
  {
    IndexIs(es, KeyOf(a), 0);
    var paid := a.(truth := Some(SavedTruth(u, US_PAYMENT_REQUIRED)));
    assert SerializedRow(es, 0, [a]) == [paid];
    assert SerializedRow(es, 1, [b]) == [paid];
  }

  lemma BareReplaces(ps: seq<seq<Slot>>, a: Slot, b: Slot, t: Truth, freshTruth: Key -> Truth)
    requires ps == [[a], [b]] && KeyOf(a) == KeyOf(b) && a.truth.None? &&
      b.truth == Some(SavedTruth(t, US_PAYMENT_REQUIRED))
    requires freshTruth(KeyOf(a)) != t
    ensures !NoneReplaced(ps, freshTruth)
  {
    TwoPlacements(a, [b]);
    var ss := SlotsIn(ps);
    assert ss == [a] + [b] && ss[..1] == [a] && [a][..0] == [];
    assert PhaseOf([a], KeyOf(a), freshTruth) == InFlight(freshTruth(KeyOf(a)));
    assert PhaseOf(ss, KeyOf(a), freshTruth) == InFlight(freshTruth(KeyOf(a)));
    assert !NotReplaced(ps, freshTruth, ps[1][0]);
  }
}
