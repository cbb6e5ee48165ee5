/** From the policies reported to the user, over their upload, to the recovered secret. */
module Journey {
  import opened Wrappers
  import opened Subsets
  import opened Crypto
  import opened Backup
  import opened Providers
  import opened PolicyBuilder
  import opened PolicyChoice
  import opened Upload
  import opened KeyPhases
  import opened UploadRun
  import opened UploadProtocol
  import opened PaymentRounds
  import opened SharedTruths
  import opened Recovery
  import opened EndToEnd

  // ----- the truths of an upload make consistent policies

  /** The truth is serialized in some slot, or the new one for the key of some slot. */
  ghost predicate InPool(ps: seq<seq<Slot>>, freshTruth: Key -> Truth, t: Truth) {
    exists i, j :: 0 <= i < |ps| && 0 <= j < |ps[i]| && FromSlot(freshTruth, ps[i][j], t)
  }

  ghost predicate FromSlot(freshTruth: Key -> Truth, s: Slot, t: Truth) {
    t == freshTruth(KeyOf(s)) || (s.truth.Some? && s.truth.value.truth == t)
  }

  /** Serialized and new truths differ in their UUIDs. */
  ghost predicate DistinctPool(ps: seq<seq<Slot>>, freshTruth: Key -> Truth) {
    forall t, u :: InPool(ps, freshTruth, t) && InPool(ps, freshTruth, u) && t.uuid == u.uuid ==> t == u
  }

  lemma HandedFromPool(ps: seq<seq<Slot>>, es: seq<Entry>, replies: seq<UploadRun.Details>, freshTruth: Key -> Truth,
                       i: nat, j: nat)
    requires Tracks(es, Placements(ps), freshTruth) && |replies| == |es| && i < |ps| && j < |ps[i]|
    ensures TruthFor(Settled(es, replies), ps[i][j]).Some?
    ensures InPool(ps, freshTruth, TruthFor(Settled(es, replies), ps[i][j]).value)
  {
    var s, ss := ps[i][j], SlotsIn(ps);
    HandedOn(ps, es, replies, freshTruth, i, j);
    var t := TruthFor(Settled(es, replies), s).value;
    if !FromSlot(freshTruth, s, t) {
      PhaseSource(ss, KeyOf(s), freshTruth);
      var k :| 0 <= k < |ss| && KeyOf(ss[k]) == KeyOf(s) && ss[k].truth.Some? && ss[k].truth.value.truth == t;
      var d := Placements(ps)[k];
      assert d in Placements(ps);
      PlacementsHold(ps, d);
      assert FromSlot(freshTruth, ps[d.r.policy][d.r.method_], t);
    }
  }

  /** Policies made from the truths that a fault-free call hands on agree on what each UUID names. */
  lemma HandedConsistent(ps: seq<seq<Slot>>, se: Setting, tr: seq<UploadRun.State>, order: seq<nat>,
                         replies: seq<UploadRun.Details>, bs: seq<BackupPolicy>)
    requires Call(ps, se, tr, order, replies) && Faultless(Placements(ps), se) && Shares(tr[|order|])
    requires DistinctPool(ps, se.freshTruth)
    requires tr[|order|].continuations[0].Share? && |bs| == |tr[|order|].continuations[0].truths|
    requires forall i :: 0 <= i < |bs| ==> bs[i].truths == tr[|order|].continuations[0].truths[i]
    ensures Consistent(bs)
  {
    hide InPool, Faultless, Shareable, Settled, Uploaded, Covers;
    var es, ts := tr[0].entries, tr[|order|].continuations[0].truths;
    CallHandsOn(ps, se, tr, order, replies);
    SharedSlotBySlot(ps, es, replies, ts);
    forall i, j | 0 <= i < |bs| && 0 <= j < |bs[i].truths| ensures InPool(ps, se.freshTruth, bs[i].truths[j]) {
      HandedFromPool(ps, es, replies, se.freshTruth, i, j);
      SharedIs(ps, es, replies, ts, i, j);
    }
  }

  lemma SharedIs(ps: seq<seq<Slot>>, es: seq<Entry>, replies: seq<UploadRun.Details>, ts: seq<seq<Truth>>, i: nat,
                 j: nat)
    requires |replies| == |es| && Shareable(Settled(es, replies), ps) && ts == TruthsFor(Settled(es, replies), ps)
    requires i < |ps| && j < |ps[i]|
    ensures i < |ts| && j < |ts[i]| && TruthFor(Settled(es, replies), ps[i][j]) == Some(ts[i][j])
  {
    assert RowShareable(Settled(es, replies), ps[i]);
    assert ts[i] == TruthsForRow(Settled(es, replies), ps[i]);
  }

  // ----- uploading the reported policies

  function FreshRow(uses: seq<MethodUse>): (r: seq<Slot>)
    ensures |r| == |uses| && forall j :: 0 <= j < |r| ==> r[j] == Slot(uses[j].provider, uses[j].method_, None)
  {
    seq(|uses|, j requires 0 <= j < |uses| => Slot(uses[j].provider, uses[j].method_, None))
  }

  /** The policies as they enter the first upload: no truth yet. */
  function FreshSlots(out: seq<seq<MethodUse>>): (r: seq<seq<Slot>>)
    ensures |r| == |out| && forall i :: 0 <= i < |r| ==> r[i] == FreshRow(out[i])
  {
    seq(|out|, i requires 0 <= i < |out| => FreshRow(out[i]))
  }

  function UseKey(u: MethodUse): Key {
    Key(u.provider, u.method_)
  }

  function UseTruths(uses: seq<MethodUse>, freshTruth: Key -> Truth): (r: seq<Truth>)
    ensures |r| == |uses| && forall j :: 0 <= j < |r| ==> r[j] == freshTruth(UseKey(uses[j]))
  {
    seq(|uses|, j requires 0 <= j < |uses| => freshTruth(UseKey(uses[j])))
  }

  /** A first upload that ends in sharing hands on one new truth per method and provider. */
  lemma FirstUploadHandsOn(out: seq<seq<MethodUse>>, se: Setting, tr: seq<UploadRun.State>, order: seq<nat>,
                           replies: seq<UploadRun.Details>)
    requires var ps := FreshSlots(out);
             Call(ps, se, tr, order, replies) && Faultless(Placements(ps), se) && Shares(tr[|order|])
    ensures tr[|order|].continuations[0].Share?
    ensures var ts := tr[|order|].continuations[0].truths;
            |ts| == |out| && forall i :: 0 <= i < |out| ==> ts[i] == UseTruths(out[i], se.freshTruth)
  {
    var ps, es := FreshSlots(out), tr[0].entries;
    CallHandsOn(ps, se, tr, order, replies);
    var ts, ss := tr[|order|].continuations[0].truths, SlotsIn(ps);
    SharedSlotBySlot(ps, es, replies, ts);
    forall k | 0 <= k < |ss| ensures ss[k].truth.None? {
      assert Placements(ps)[k] in Placements(ps);
      PlacementsHold(ps, Placements(ps)[k]);
    }
    forall i | 0 <= i < |out| ensures ts[i] == UseTruths(out[i], se.freshTruth) {
      forall j | 0 <= j < |out[i]| ensures ts[i][j] == se.freshTruth(UseKey(out[i][j])) {
        HandedOn(ps, es, replies, se.freshTruth, i, j);
        BarePhase(ss, KeyOf(ps[i][j]), se.freshTruth);
        SharedIs(ps, es, replies, ts, i, j);
      }
    }
  }

  // ----- recovering with enough methods

  /** Backed-up policies with the new truths of the reported ones; their keys are derived as for any policy. */
  ghost predicate BacksUp(bs: seq<BackupPolicy>, out: seq<seq<MethodUse>>, freshTruth: Key -> Truth) {
    |bs| == |out| && forall i :: 0 <= i < |bs| ==>
      && bs[i].truths == UseTruths(out[i], freshTruth)
      && bs[i].key == PolicyKey(SharesOf(bs[i].truths), bs[i].salt)
  }

  ghost predicate FreshUuids(freshTruth: Key -> Truth) {
    forall k, l :: freshTruth(k).uuid == freshTruth(l).uuid ==> k == l
  }

  lemma ReportedMethodsDistinct(su: Setup, i: nat)
    requires ValidSetup(su) && |su.methods| >= 2 && AllServed(su) && i < |Reported(su)|
    ensures Reported(su)[i] != []
    ensures forall j, l :: 0 <= j < l < |Reported(su)[i]| ==> Reported(su)[i][j].method_ != Reported(su)[i][l].method_
  {
    hide Reported, Combos;
    var subs := SubsetsFor(|su.methods|);
    ReportedReverses(su);
    var k := |subs| - 1 - i;
    ReportedPolicies(su, k);
    CombosMembers(0, |su.methods|, ReqMethods(|su.methods|), subs[k]);
  }

  lemma BackupSound(su: Setup, bs: seq<BackupPolicy>, freshTruth: Key -> Truth)
    requires ValidSetup(su) && |su.methods| >= 2 && AllServed(su)
    requires BacksUp(bs, Reported(su), freshTruth) && FreshUuids(freshTruth)
    ensures Created(bs)
    ensures forall k :: 0 <= k < |bs| ==> NoFreshRepeats(bs[..k], bs[k].truths)
  {
    hide Reported;
    forall i | 0 <= i < |bs| ensures NoFreshRepeats(bs[..i], bs[i].truths) {
      ReportedMethodsDistinct(su, i);
      var uses := Reported(su)[i];
      assert forall j, l :: 0 <= j < l < |uses| ==> UseKey(uses[j]) != UseKey(uses[l]);
    }
  }

  /** Every challenge for this UUID is solved. */
  ghost predicate SolvedFor(s: Recovery.State, u: Uuid) {
    forall c :: 0 <= c < |s.cs| && s.cs[c].uuid == u ==> c in s.solved
  }

  /** For each of the methods the challenges at every provider used with it are solved. */
  ghost predicate MethodsSolved(out: seq<seq<MethodUse>>, freshTruth: Key -> Truth, methods: set<nat>,
                                s: Recovery.State) {
    forall i, j :: 0 <= i < |out| && 0 <= j < |out[i]| && out[i][j].method_ in methods ==>
      SolvedFor(s, freshTruth(UseKey(out[i][j])).uuid)
  }

  /** Every solved challenge belongs to one of the methods. */
  ghost predicate OnlySolved(out: seq<seq<MethodUse>>, freshTruth: Key -> Truth, methods: set<nat>, s: Recovery.State)
    requires Inv(s)
  {
    forall k :: 0 <= k < |s.solved| ==> SolvedBy(out, freshTruth, methods, s.cs[s.solved[k]].uuid)
  }

  ghost predicate SolvedBy(out: seq<seq<MethodUse>>, freshTruth: Key -> Truth, methods: set<nat>, u: Uuid) {
    exists i, j :: 0 <= i < |out| && 0 <= j < |out[i]| && out[i][j].method_ in methods
                   && freshTruth(UseKey(out[i][j])).uuid == u
  }

  /** A policy is complete if its methods are solved, wherever they are placed. */
  lemma CompleteIfSolved(out: seq<seq<MethodUse>>, bs: seq<BackupPolicy>, freshTruth: Key -> Truth, methods: set<nat>,
                         master: MasterKey, secret: string, s: Recovery.State, i: nat)
    requires BacksUp(bs, out, freshTruth) && Sound(bs, master, secret, s) && i < |out|
    requires MethodsSolved(out, freshTruth, methods, s) && Satisfied(out[i], methods)
    ensures Complete(s.solved, s.dps[i])
  {
    var links := s.dps[i].challenges;
    assert LinkedTo(bs[i].truths, links, s.cs);
    forall j | 0 <= j < |links| ensures links[j] in s.solved {
      assert out[i][j] in out[i];
      assert out[i][j].method_ in methods;
      assert SolvedFor(s, freshTruth(UseKey(out[i][j])).uuid);
    }
  }

  lemma SatisfiedIfComplete(out: seq<seq<MethodUse>>, bs: seq<BackupPolicy>, freshTruth: Key -> Truth,
                            methods: set<nat>, master: MasterKey, secret: string, s: Recovery.State, i: nat)
    requires BacksUp(bs, out, freshTruth) && Sound(bs, master, secret, s) && i < |out| && FreshUuids(freshTruth)
    requires OnlySolved(out, freshTruth, methods, s) && Complete(s.solved, s.dps[i])
    ensures Satisfied(out[i], methods)
  {
    var links := s.dps[i].challenges;
    assert LinkedTo(bs[i].truths, links, s.cs);
    forall m | m in MethodsOf(out[i]) ensures m in methods {
      var u :| u in out[i] && u.method_ == m;
      var j :| 0 <= j < |out[i]| && out[i][j] == u;
      assert links[j] in s.solved;
      var k :| 0 <= k < |s.solved| && s.solved[k] == links[j];
      assert SolvedBy(out, freshTruth, methods, s.cs[links[j]].uuid);
      var i', j' :| 0 <= i' < |out| && 0 <= j' < |out[i']| && out[i'][j'].method_ in methods
                    && freshTruth(UseKey(out[i'][j'])).uuid == s.cs[links[j]].uuid;
      assert UseKey(out[i'][j']) == UseKey(u);
    }
  }

  /**
   * In any sound state: if as many methods are solved as policies ask for, the backed-up secret has been
   * delivered; while the solved challenges belong to fewer methods, nothing has.
   */
  lemma EnoughMethods(su: Setup, bs: seq<BackupPolicy>, freshTruth: Key -> Truth, methods: set<nat>,
                      master: MasterKey, secret: string, s: Recovery.State)
    requires ValidSetup(su) && |su.methods| >= 2 && AllServed(su) && forall m :: m in methods ==> m < |su.methods|
    requires BacksUp(bs, Reported(su), freshTruth) && FreshUuids(freshTruth) && Sound(bs, master, secret, s)
    ensures |methods| >= ReqMethods(|su.methods|) && MethodsSolved(Reported(su), freshTruth, methods, s) ==>
              s.outcomes == [CoreSecret(Some(secret))]
    ensures |methods| < ReqMethods(|su.methods|) && OnlySolved(Reported(su), freshTruth, methods, s) ==>
              s.outcomes == []
  {
    hide Reported, MethodsSolved, OnlySolved, Satisfied, AllServed;
    var out := Reported(su);
    ThresholdRecovery(su, methods);
    if |methods| >= ReqMethods(|su.methods|) && MethodsSolved(out, freshTruth, methods, s) {
      var p :| p in out && Satisfied(p, methods);
      var i :| 0 <= i < |out| && out[i] == p;
      ReportedMethodsDistinct(su, i);
      CompleteIfSolved(out, bs, freshTruth, methods, master, secret, s, i);
      assert LinkedTo(bs[i].truths, s.dps[i].challenges, s.cs);
      assert s.dps[i].challenges[0] in s.solved;
    }
    if |methods| < ReqMethods(|su.methods|) && OnlySolved(out, freshTruth, methods, s) {
      if i :| 0 <= i < |bs| && Complete(s.solved, s.dps[i]) {
        SatisfiedIfComplete(out, bs, freshTruth, methods, master, secret, s, i);
      }
    }
  }

  /**
   * The whole way: back up the reported policies, then recover with any order of replies and any
   * number of suspensions. Every state passed through is sound, so the above holds of it.
   */
  lemma EnoughMethodsDeliver(su: Setup, bs: seq<BackupPolicy>, freshTruth: Key -> Truth, methods: set<nat>,
                             master: MasterKey, secret: string, name: Option<string>, info: Info, version: nat,
                             tr: seq<Recovery.State>, ms: seq<Move>, k: nat)
    requires ValidSetup(su) && |su.methods| >= 2 && AllServed(su) && forall m :: m in methods ==> m < |su.methods|
    requires BacksUp(bs, Reported(su), freshTruth) && FreshUuids(freshTruth)
    requires Run(bs, LoadedState(info, version, DocumentOf(name, bs, master, secret)), tr, ms) && k <= |ms|
    ensures Inv(tr[k])
    ensures |methods| >= ReqMethods(|su.methods|) && MethodsSolved(Reported(su), freshTruth, methods, tr[k]) ==>
              tr[k].outcomes == [CoreSecret(Some(secret))]
    ensures |methods| < ReqMethods(|su.methods|) && OnlySolved(Reported(su), freshTruth, methods, tr[k]) ==>
              tr[k].outcomes == []
  {
    hide Reported, MethodsSolved, OnlySolved, AllServed, Created, DocumentOf, LoadedState;
    BackupSound(su, bs, freshTruth);
    RunInvariant(bs, master, secret, name, info, version, tr, ms, k);
    EnoughMethods(su, bs, freshTruth, methods, master, secret, tr[k]);
  }
}
