/** The upload context: starting all uploads, collecting the replies, and what follows. */
module UploadRun {
  import opened Wrappers
  import opened Backup
  import opened Upload

  const US_PAYMENT_REQUIRED: nat := 1

  /** Result of one upload. */
  datatype Details = Details(us: nat, ec: nat, payment: string)

  /** How an upload operation goes on, told to the caller once. */
  datatype Continuation = BadState | Failed(ec: nat) | PayTruths(payments: seq<string>) | Share(truths: seq<seq<Truth>>)

  /** What an upload is given besides the policies. */
  datatype Setting = Setting(
    numMethods: nat,
    /** Providers whose salt can be looked up. */
    salts: set<string>,
    /** Where the recovery document goes. */
    policyProviders: seq<string>,
    /** The random truth a new upload would be given. */
    freshTruth: Key -> Truth)

  datatype State = State(setting: Setting, policies: seq<seq<Slot>>, entries: seq<Entry>,
                         continuations: seq<Continuation>, live: bool)

  // ----- faults found while starting uploads

  /** The slot names a method that does not exist, or begins an upload at a provider without salt. */
  ghost predicate FaultAt(ds: seq<Placed>, k: nat, se: Setting)
    requires k < |ds|
  {
    var s := ds[k].s;
    || s.am >= se.numMethods
    || (Begins(PhaseOf(SlotsOf(ds[..k]), KeyOf(s), se.freshTruth), s) && s.provider !in se.salts)
  }

  ghost predicate Faultless(ds: seq<Placed>, se: Setting) {
    forall k :: 0 <= k < |ds| ==> !FaultAt(ds, k, se)
  }

  /** Position of the first fault, or the number of slots. */
  ghost function FirstFault(ds: seq<Placed>, se: Setting): nat {
    if ds == [] then 0
    else
      var k := FirstFault(ds[..|ds| - 1], se);
      if k < |ds| - 1 then k else if FaultAt(ds, |ds| - 1, se) then |ds| - 1 else |ds|
  }

  lemma {:induction false} FirstFaultIs(ds: seq<Placed>, se: Setting)
    ensures var k := FirstFault(ds, se);
            && k <= |ds| && (k < |ds| ==> FaultAt(ds, k, se))
            && forall j :: 0 <= j < k ==> !FaultAt(ds, j, se)
  {
    if ds != [] {
      var front := ds[..|ds| - 1];
      FirstFaultIs(front, se);
      forall j | 0 <= j < |front| ensures FaultAt(ds, j, se) <==> FaultAt(front, j, se) {
        assert ds[..j] == front[..j];
      }
    }
  }

  lemma FaultlessIff(ds: seq<Placed>, se: Setting)
    ensures FirstFault(ds, se) == |ds| <==> Faultless(ds, se)
  {
    FirstFaultIs(ds, se);
  }

  lemma FirstFaultSnoc(ds: seq<Placed>, d: Placed, se: Setting)
    requires FirstFault(ds, se) == |ds|
    ensures FirstFault(ds + [d], se) == if FaultAt(ds + [d], |ds|, se) then |ds| else |ds| + 1
  {
    assert (ds + [d])[..|ds|] == ds;
  }

  /** A fault found among the first slots is the first of all. */
  lemma {:induction false} FaultStays(ds: seq<Placed>, all: seq<Placed>, se: Setting)
    requires ds <= all && FirstFault(ds, se) < |ds|
    ensures FirstFault(all, se) == FirstFault(ds, se)
  {
    if |ds| < |all| {
      FaultStays(ds, all[..|all| - 1], se);
    } else {
      assert ds == all;
    }
  }

  /**
   * Whether a fault at this slot leaves the uploads begun so far running: a missing salt found by
   * add_truth_object is reported without cancelling them.
   */
  predicate LeavesRunning(s: Slot, se: Setting) {
    s.am < se.numMethods && s.truth.Some?
  }

  ghost function EntriesAtFault(ds: seq<Placed>, k: nat, se: Setting): seq<Entry>
    requires k < |ds|
  {
    if LeavesRunning(ds[k].s, se) then Parked(Entries(ds[..k], se.freshTruth), ds[k].r, ds[k].s) else []
  }

  // ----- the truths handed to secret sharing

  /** The serialized truth of the slot, or else the one at hand for its key. */
  ghost function TruthFor(es: seq<Entry>, s: Slot): Option<Truth> {
    if s.truth.Some? then Some(s.truth.value.truth)
    else
      var i := IndexOf(es, KeyOf(s));
      if i < |es| then es[i].t else None
  }

  ghost predicate RowShareable(es: seq<Entry>, row: seq<Slot>) {
    row != [] && forall j :: 0 <= j < |row| ==> TruthFor(es, row[j]).Some?
  }

  ghost function TruthsForRow(es: seq<Entry>, row: seq<Slot>): (r: seq<Truth>)
    requires RowShareable(es, row)
    ensures |r| == |row| && forall j :: 0 <= j < |row| ==> r[j] == TruthFor(es, row[j]).value
  {
    seq(|row|, j requires 0 <= j < |row| => TruthFor(es, row[j]).value)
  }

  ghost predicate Shareable(es: seq<Entry>, ps: seq<seq<Slot>>) {
    ps != [] && forall i :: 0 <= i < |ps| ==> RowShareable(es, ps[i])
  }

  ghost function TruthsFor(es: seq<Entry>, ps: seq<seq<Slot>>): (r: seq<seq<Truth>>)
    requires Shareable(es, ps)
    ensures |r| == |ps| && forall i :: 0 <= i < |ps| ==> r[i] == TruthsForRow(es, ps[i])
  {
    seq(|ps|, i requires 0 <= i < |ps| => TruthsForRow(es, ps[i]))
  }

  /** There are providers to share with, each with a salt. */
  ghost predicate ProvidersKnown(se: Setting) {
    se.policyProviders != [] && forall i :: 0 <= i < |se.policyProviders| ==> se.policyProviders[i] in se.salts
  }

  ghost function ShareOf(se: Setting, es: seq<Entry>, ps: seq<seq<Slot>>): Continuation {
    if Shareable(es, ps) && ProvidersKnown(se) then Share(TruthsFor(es, ps)) else BadState
  }

  // ----- after a reply

  function Replied(e: Entry, ud: Details): Entry {
    e.(tu := None, t := e.tu, us := ud.us, ec := ud.ec,
       paymentRequest := if ud.us == US_PAYMENT_REQUIRED then Some(ud.payment) else e.paymentRequest)
  }

  function PaymentsOf(es: seq<Entry>): seq<string> {
    if es == [] then []
    else
      var front, e := PaymentsOf(es[..|es| - 1]), es[|es| - 1];
      if e.paymentRequest.Some? then front + [e.paymentRequest.value] else front
  }

  /** Position of the first entry with an error, or the number of entries. */
  function FirstError(es: seq<Entry>): (i: nat)
    ensures i <= |es|
    ensures i < |es| ==> es[i].ec != EC_NONE
    ensures forall k :: 0 <= k < i ==> es[k].ec == EC_NONE
  {
    if es == [] || es[0].ec != EC_NONE then 0 else 1 + FirstError(es[1..])
  }

  ghost predicate AnyInFlight(es: seq<Entry>) {
    exists i :: 0 <= i < |es| && es[i].tu.Some?
  }

  ghost predicate AnyPayment(es: seq<Entry>) {
    exists i :: 0 <= i < |es| && es[i].paymentRequest.Some?
  }

  // ----- serialization

  /** What serialization makes of the slot at r. */
  function SerializedSlot(es: seq<Entry>, r: Ref, s: Slot): Slot {
    var i := IndexOf(es, KeyOf(s));
    if i < |es| && es[i].t.Some? && r in es[i].refs then s.(truth := Some(SavedTruth(es[i].t.value, es[i].us))) else s
  }

  ghost function SerializedRow(es: seq<Entry>, p: nat, row: seq<Slot>): (r: seq<Slot>)
    ensures |r| == |row| && forall j :: 0 <= j < |row| ==> r[j] == SerializedSlot(es, Ref(p, j), row[j])
  {
    seq(|row|, j requires 0 <= j < |row| => SerializedSlot(es, Ref(p, j), row[j]))
  }

  ghost function Serialized(es: seq<Entry>, ps: seq<seq<Slot>>): (r: seq<seq<Slot>>)
    ensures |r| == |ps| && forall i :: 0 <= i < |ps| ==> r[i] == SerializedRow(es, i, ps[i])
  {
    seq(|ps|, i requires 0 <= i < |ps| => SerializedRow(es, i, ps[i]))
  }

  /** The whole effect of looking at all entries after a change. */
  ghost function Checked(s: State): State {
    var i := FirstError(s.entries);
    if i < |s.entries| then s.(continuations := s.continuations + [Failed(s.entries[i].ec)], live := false)
    else if AnyInFlight(s.entries) then s
    else if AnyPayment(s.entries) then
      s.(policies := Serialized(s.entries, s.policies),
         continuations := s.continuations + [PayTruths(PaymentsOf(s.entries))], live := false)
    else s.(continuations := s.continuations + [ShareOf(s.setting, s.entries, s.policies)], live := false)
  }

  ghost function Step(s: State, i: nat, ud: Details): State
    requires i < |s.entries|
  {
    Checked(s.(entries := s.entries[i := Replied(s.entries[i], ud)]))
  }

  // ----- references lead back to the slots

  ghost predicate InRange(ps: seq<seq<Slot>>, r: Ref) {
    r.policy < |ps| && r.method_ < |ps[r.policy]|
  }

  /** One entry per key, and each entry refers to slots of its key only. */
  ghost predicate RefsSound(es: seq<Entry>, ps: seq<seq<Slot>>) {
    && UniqueKeys(es)
    && forall k, l :: 0 <= k < |es| && 0 <= l < |es[k].refs| ==>
         InRange(ps, es[k].refs[l]) && KeyOf(ps[es[k].refs[l].policy][es[k].refs[l].method_]) == es[k].key
  }

  /** Each entry refers to all the slots of its key. */
  ghost predicate RefsMatch(es: seq<Entry>, ps: seq<seq<Slot>>) {
    && RefsSound(es, ps)
    && forall k, i, j :: 0 <= k < |es| && 0 <= i < |ps| && 0 <= j < |ps[i]| && KeyOf(ps[i][j]) == es[k].key ==>
         Ref(i, j) in es[k].refs
  }

  // ----- starting all uploads

  /** What upload leaves behind when it returns. */
  ghost function Uploaded(ps: seq<seq<Slot>>, se: Setting): State {
    var ds := Placements(ps);
    var k, es := FirstFault(ds, se), Entries(ds, se.freshTruth);
    if ps == [] then State(se, ps, [], [BadState], false)
    else if k < |ds| then State(se, ps, EntriesAtFault(ds, k, se), [BadState], LeavesRunning(ds[k].s, se))
    else if AnyInFlight(es) then State(se, ps, es, [], true)
    else State(se, ps, es, [ShareOf(se, es, ps)], false)
  }

  // ----- the operation

  class Context {
    const setting: Setting
    var policies: seq<seq<Slot>>
    /** Newest first. */
    var entries: seq<Entry>
    var continuations: seq<Continuation>
    var live: bool

    constructor (policies: seq<seq<Slot>>, setting: Setting)
      ensures AsState() == State(setting, policies, [], [], true)
    {
      this.policies, this.setting := policies, setting;
      entries, continuations, live := [], [], true;
    }

    ghost function AsState(): State
      reads this
    {
      State(setting, policies, entries, continuations, live)
    }

    /** Position of the entry with this key, or the number of entries. */
    method Find(key: Key) returns (i: nat)
      ensures i == IndexOf(entries, key)
    {
      for k := 0 to |entries|
        invariant forall l :: 0 <= l < k ==> entries[l].key != key
      {
        if entries[k].key == key {
          IndexIs(entries, key, k);
          return k;
        }
      }
      IndexIs(entries, key, |entries|);
      return |entries|;
    }

    /** Stops all uploads and forgets them. */
    method Cancel()
      modifies `entries, `live
      ensures entries == [] && !live
    {
      entries, live := [], false;
    }

    /** For a slot with a serialized truth: registers it and, unless it is stored already, uploads it. */
    method AddTruthObject(r: Ref, s: Slot, asyncTruth: nat) returns (ok: bool, pending: nat)
      requires s.truth.Some? && asyncTruth == InFlightCount(entries)
      requires forall k :: 0 <= k < |entries| ==> entries[k].tu.None? || entries[k].t.None?
      modifies `entries
      ensures ok <==> !(Begins(PhaseAt(old(entries), KeyOf(s)), s) && s.provider !in setting.salts)
      ensures ok ==> entries == Processed(old(entries), r, s, setting.freshTruth) && pending == InFlightCount(entries)
      ensures !ok ==> entries == Parked(old(entries), r, s)
    {
      hide InFlightCount;
      ghost var es0 := entries;
      pending := asyncTruth;
      var i := Find(KeyOf(s));
      if i < |entries| {
        entries := entries[i := entries[i].(refs := entries[i].refs + [r])];
        InFlightCountUpdate(es0, i, entries[i]);
      } else {
        i := 0;
        entries := [NewEntry(KeyOf(s), r)] + entries;
        InFlightCountCons(NewEntry(KeyOf(s), r), es0);
      }
      ghost var es1 := entries;
      var e := entries[i];
      var mustUpload := s.truth.value.status != US_SUCCESS;
      if e.t.None? {
        e := e.(t := Some(s.truth.value.truth));
      }
      if e.tu.Some? && !mustUpload {
        InFlightPositive(es1, i);
        e := e.(tu := None);
        pending := pending - 1;
        entries := entries[i := e];
        InFlightCountUpdate(es1, i, e);
        return true, pending;
      }
      if e.tu.None? && mustUpload {
        if s.provider !in setting.salts {
          entries := entries[i := e];
          return false, pending;
        }
        e := e.(tu := e.t, t := None);
        pending := pending + 1;
      }
      if e.tu.Some? && e.t.Some? {
        e := e.(t := None);
      }
      entries := entries[i := e];
      InFlightCountUpdate(es1, i, e);
      return true, pending;
    }

    /** For a slot without a truth: joins the entry of its key or uploads a new truth. */
    method CheckTruthUpload(r: Ref, s: Slot, asyncTruth: nat) returns (ok: bool, pending: nat)
      requires s.truth.None? && asyncTruth == InFlightCount(entries)
      requires forall k :: 0 <= k < |entries| ==> !EntryPhase(entries[k]).Absent?
      requires forall k :: 0 <= k < |entries| ==> entries[k].tu.None? || entries[k].t.None?
      modifies `entries, `live
      ensures ok <==> !(Begins(PhaseAt(old(entries), KeyOf(s)), s) && s.provider !in setting.salts)
      ensures ok ==> entries == Processed(old(entries), r, s, setting.freshTruth) && pending == InFlightCount(entries)
      ensures if ok then live == old(live) else entries == [] && !live
    {
      ghost var es0 := entries;
      var i := Find(KeyOf(s));
      if i < |entries| {
        entries := entries[i := entries[i].(refs := entries[i].refs + [r])];
        InFlightCountUpdate(es0, i, entries[i]);
        return true, asyncTruth;
      }
      var tue := NewEntry(KeyOf(s), r);
      entries := [tue] + entries;
      if s.provider !in setting.salts {
        Cancel();
        return false, asyncTruth;
      }
      entries := entries[0 := tue.(tu := Some(setting.freshTruth(KeyOf(s))))];
      InFlightCountCons(entries[0], es0);
      assert entries == [entries[0]] + es0;
      return true, asyncTruth + 1;
    }

    /** All these slots are registered. */
    ghost predicate Registered(ds: seq<Placed>)
      reads this
    {
      FirstFault(ds, setting) == |ds| && live && entries == Entries(ds, setting.freshTruth)
    }

    /** Registering these slots stopped at the first fault. */
    ghost predicate Stopped(ds: seq<Placed>)
      reads this
    {
      var k := FirstFault(ds, setting);
      k < |ds| && live == LeavesRunning(ds[k].s, setting) && entries == EntriesAtFault(ds, k, setting)
    }

    /** One round of the loop body of upload: the slot is checked and registered. */
    method Register(d: Placed, asyncTruth: nat, ghost ds: seq<Placed>) returns (ok: bool, pending: nat)
      requires Registered(ds) && asyncTruth == InFlightCount(entries)
      modifies `entries, `live
      ensures if ok then Registered(ds + [d]) && pending == InFlightCount(entries) else Stopped(ds + [d])
    {
      assert (ds + [d])[..|ds|] == ds;
      FirstFaultSnoc(ds, d, setting);
      if d.s.am >= setting.numMethods {
        Cancel();
        return false, asyncTruth;
      }
      EntriesTrack(ds, setting.freshTruth);
      PhaseAtTracked(entries, ds, KeyOf(d.s), setting.freshTruth);
      TrackedPhases(entries, ds, setting.freshTruth);
      EntriesSnoc(ds, d, setting.freshTruth);
      if d.s.truth.None? {
        ok, pending := CheckTruthUpload(d.r, d.s, asyncTruth);
      } else {
        ok, pending := AddTruthObject(d.r, d.s, asyncTruth);
      }
    }

    method Upload()
      requires live && continuations == [] && entries == []
      modifies this
      ensures AsState() == Uploaded(old(policies), setting)
    {
      if policies == [] {
        continuations, live := [BadState], false;
        return;
      }
      var ok, asyncTruth := RegisterAll();
      if !ok {
        continuations := [BadState];
        return;
      }
      InFlightCountZero(entries);
      if asyncTruth > 0 {
        return;
      }
      ShareSecret();
    }

    /** Outer loop of upload; it stops at the first fault. */
    method RegisterAll() returns (ok: bool, asyncTruth: nat)
      requires live && entries == []
      modifies `entries, `live
      ensures if ok then Registered(Placements(policies)) && asyncTruth == InFlightCount(entries)
              else Stopped(Placements(policies))
    {
      asyncTruth := 0;
      for p := 0 to |policies|
        invariant Registered(Placements(policies[..p])) && asyncTruth == InFlightCount(entries)
      {
        ok, asyncTruth := RegisterPolicy(p, asyncTruth);
        PlacementsSnoc(policies, p);
        if !ok {
          PlacementsPrefix(policies, p + 1);
          StoppedStays(Placements(policies[..p + 1]), Placements(policies));
          return;
        }
      }
      assert policies[..|policies|] == policies;
      ok := true;
    }

    lemma StoppedStays(ds: seq<Placed>, all: seq<Placed>)
      requires Stopped(ds) && ds <= all
      ensures Stopped(all)
    {
      FaultStays(ds, all, setting);
      var k := FirstFault(ds, setting);
      assert ds[..k] == all[..k];
    }

    /** Inner loop of upload: the methods of one policy. */
    method RegisterPolicy(p: nat, asyncTruth: nat) returns (ok: bool, pending: nat)
      requires p < |policies| && Registered(Placements(policies[..p])) && asyncTruth == InFlightCount(entries)
      modifies `entries, `live
      ensures var ds := Placements(policies[..p]) + PlacedRow(p, policies[p]);
              if ok then Registered(ds) && pending == InFlightCount(entries) else Stopped(ds)
    {
      hide FirstFault, Entries, InFlightCount, EntriesAtFault;
      ghost var row, all := PlacedRow(p, policies[p]), Placements(policies[..p]) + PlacedRow(p, policies[p]);
      ghost var ds := Placements(policies[..p]);
      pending := asyncTruth;
      for m := 0 to |policies[p]|
        invariant ds == Placements(policies[..p]) + row[..m]
        invariant Registered(ds) && pending == InFlightCount(entries)
      {
        ghost var d := row[m];
        assert ds + [d] == Placements(policies[..p]) + row[..m + 1];
        ok, pending := Register(Placed(Ref(p, m), policies[p][m]), pending, ds);
        if !ok {
          assert ds + [d] <= all;
          StoppedStays(ds + [d], all);
          return;
        }
        ds := ds + [d];
      }
      assert row[..|row|] == row;
      assert ds == all;
      ok := true;
    }

    /** The truth of one slot, serialized or at hand. */
    method LookupTruth(s: Slot) returns (r: Option<Truth>)
      ensures r == TruthFor(entries, s)
    {
      if s.truth.Some? {
        return Some(s.truth.value.truth);
      }
      var i := Find(KeyOf(s));
      if i < |entries| {
        return entries[i].t;
      }
      return None;
    }

    /** Collects the truths of all policies and goes on to secret sharing. */
    method ShareSecret()
      modifies `continuations, `live
      ensures continuations == old(continuations) + [ShareOf(setting, entries, policies)] && !live
    {
      live := false;
      if policies == [] || setting.policyProviders == [] {
        continuations := continuations + [BadState];
        return;
      }
      var truths := [];
      for i := 0 to |policies|
        invariant continuations == old(continuations) && !live
        invariant |truths| == i
        invariant forall k :: 0 <= k < i ==>
          RowShareable(entries, policies[k]) && truths[k] == TruthsForRow(entries, policies[k])
      {
        var row := ShareRow(policies[i]);
        if row.None? {
          assert !RowShareable(entries, policies[i]);
          continuations := continuations + [BadState];
          return;
        }
        truths := truths + [row.value];
      }
      assert truths == TruthsFor(entries, policies);
      for i := 0 to |setting.policyProviders|
        invariant forall k :: 0 <= k < i ==> setting.policyProviders[k] in setting.salts
        invariant continuations == old(continuations) && !live
      {
        if setting.policyProviders[i] !in setting.salts {
          continuations := continuations + [BadState];
          return;
        }
      }
      continuations := continuations + [Share(truths)];
    }

    method ShareRow(row: seq<Slot>) returns (r: Option<seq<Truth>>)
      ensures r == if RowShareable(entries, row) then Some(TruthsForRow(entries, row)) else None
    {
      if row == [] {
        return None;
      }
      var truths := [];
      for j := 0 to |row|
        invariant |truths| == j
        invariant forall k :: 0 <= k < j ==> TruthFor(entries, row[k]) == Some(truths[k])
      {
        var t := LookupTruth(row[j]);
        if t.None? {
          return None;
        }
        truths := truths + [t.value];
      }
      assert truths == TruthsForRow(entries, row);
      return Some(truths);
    }

    /** Writes the truth at hand, with its upload status, into every slot that refers to it. */
    method SerializeTruth()
      requires RefsSound(entries, policies)
      modifies `policies
      ensures policies == Serialized(entries, old(policies))
    {
      ghost var ps := policies;
      for k := 0 to |entries|
        invariant SerializedUpTo(entries, ps, policies, k)
      {
        var tue := entries[k];
        if tue.t.None? {
          SkipEntry(entries, ps, policies, k);
          continue;
        }
        SerializeEntry(k, ps);
      }
      AllSerialized(entries, ps, policies);
    }

    method SerializeEntry(k: nat, ghost ps: seq<seq<Slot>>)
      requires k < |entries| && entries[k].t.Some? && RefsSound(entries, ps) && SerializedUpTo(entries, ps, policies, k)
      modifies `policies
      ensures SerializedUpTo(entries, ps, policies, k + 1)
    {
      hide IndexOf;
      var tue := entries[k];
      for l := 0 to |tue.refs|
        invariant SameShape(ps, policies)
        invariant forall i, j :: 0 <= i < |ps| && 0 <= j < |ps[i]| ==>
                    policies[i][j] == if IndexOf(entries, KeyOf(ps[i][j])) < k || Ref(i, j) in tue.refs[..l]
                                      then SerializedSlot(entries, Ref(i, j), ps[i][j]) else ps[i][j]
      {
        var r := tue.refs[l];
        IndexIs(entries, tue.key, k);
        assert KeyOf(ps[r.policy][r.method_]) == tue.key;
        assert tue.refs[..l + 1] == tue.refs[..l] + [r];
        policies := policies[r.policy := policies[r.policy][r.method_ :=
          policies[r.policy][r.method_].(truth := Some(SavedTruth(tue.t.value, tue.us)))]];
      }
      assert tue.refs[..|tue.refs|] == tue.refs;
      forall i, j | 0 <= i < |ps| && 0 <= j < |ps[i]|
        ensures policies[i][j] == if IndexOf(entries, KeyOf(ps[i][j])) < k + 1
                                  then SerializedSlot(entries, Ref(i, j), ps[i][j]) else ps[i][j]
      {
        RefsAreOwn(entries, ps, k, i, j);
      }
    }

    /** Decides how to go on, once nothing is in flight any more or something failed. */
    method CheckUploadFinished()
      requires live && RefsSound(entries, policies)
      modifies `policies, `continuations, `live
      ensures AsState() == Checked(old(AsState()))
    {
      var pay, active := false, false;
      for k := 0 to |entries|
        invariant forall l :: 0 <= l < k ==> entries[l].ec == EC_NONE
        invariant active <==> exists l :: 0 <= l < k && entries[l].tu.Some?
        invariant pay <==> exists l :: 0 <= l < k && entries[l].paymentRequest.Some?
      {
        var tue := entries[k];
        if tue.ec != EC_NONE {
          FirstErrorIs(entries, k);
          continuations := continuations + [Failed(tue.ec)];
          live := false;
          return;
        }
        if tue.tu.Some? {
          active := true;
        }
        if tue.paymentRequest.Some? {
          pay := true;
        }
      }
      FirstErrorIs(entries, |entries|);
      if active {
        return;
      }
      if pay {
        RequestTruthPayment();
        return;
      }
      ShareSecret();
    }

    method RequestTruthPayment()
      requires RefsSound(entries, policies)
      modifies `policies, `continuations, `live
      ensures policies == Serialized(entries, old(policies)) && !live
      ensures continuations == old(continuations) + [PayTruths(PaymentsOf(entries))]
    {
      SerializeTruth();
      var payments := [];
      for k := 0 to |entries|
        invariant payments == PaymentsOf(entries[..k])
      {
        assert entries[..k + 1][..k] == entries[..k];
        if entries[k].paymentRequest.None? {
          continue;
        }
        payments := payments + [entries[k].paymentRequest.value];
      }
      assert entries[..|entries|] == entries;
      continuations := continuations + [PayTruths(payments)];
      live := false;
    }

    method TruthUploadCb(i: nat, ud: Details)
      requires live && i < |entries| && entries[i].tu.Some? && RefsSound(entries, policies)
      modifies this
      ensures AsState() == Step(old(AsState()), i, ud)
    {
      ghost var es0 := entries;
      var tue := entries[i];
      tue := tue.(t := tue.tu, tu := None, ec := ud.ec, us := ud.us);
      if ud.us == US_PAYMENT_REQUIRED {
        tue := tue.(paymentRequest := Some(ud.payment));
      }
      entries := entries[i := tue];
      assert tue == Replied(es0[i], ud);
      SameRefsSound(es0, entries, policies);
      CheckUploadFinished();
    }
  }

  // ----- facts used by the methods above

  lemma PhaseAtTracked(es: seq<Entry>, ds: seq<Placed>, key: Key, freshTruth: Key -> Truth)
    requires Tracks(es, ds, freshTruth)
    ensures PhaseAt(es, key) == PhaseOf(SlotsOf(ds), key, freshTruth)
  {
    var i := IndexOf(es, key);
    if i < |es| {
      assert Accounts(es[i], ds, freshTruth);
    } else {
      forall k | 0 <= k < |ds| ensures KeyOf(ds[k].s) != key {
        assert HasKey(es, KeyOf(ds[k].s));
      }
      UnusedKey(ds, key, freshTruth);
    }
  }

  /** Each entry has exactly one of an upload in flight and a truth at hand. */
  lemma TrackedPhases(es: seq<Entry>, ds: seq<Placed>, freshTruth: Key -> Truth)
    requires Tracks(es, ds, freshTruth)
    ensures forall k :: 0 <= k < |es| ==> (es[k].tu.Some? <==> es[k].t.None?)
    ensures forall k :: 0 <= k < |es| ==> !EntryPhase(es[k]).Absent?
  {
    forall k | 0 <= k < |es| ensures (es[k].tu.Some? <==> es[k].t.None?) && !EntryPhase(es[k]).Absent? {
      assert Accounts(es[k], ds, freshTruth);
    }
  }

  lemma PlacementsSnoc(ps: seq<seq<Slot>>, p: nat)
    requires p < |ps|
    ensures Placements(ps[..p + 1]) == Placements(ps[..p]) + PlacedRow(p, ps[p])
  {
    assert ps[..p + 1][..p] == ps[..p];
  }

  lemma {:induction false} PlacementsPrefix(ps: seq<seq<Slot>>, n: nat)
    requires n <= |ps|
    ensures Placements(ps[..n]) <= Placements(ps)
  {
    if n < |ps| {
      PlacementsPrefix(ps[..|ps| - 1], n);
      assert ps[..|ps| - 1][..n] == ps[..n];
    } else {
      assert ps[..n] == ps;
    }
  }

  ghost predicate SameShape(ps: seq<seq<Slot>>, qs: seq<seq<Slot>>) {
    |ps| == |qs| && forall i :: 0 <= i < |ps| ==> |ps[i]| == |qs[i]|
  }

  /** The slots of the first k entries are serialized, the others as before. */
  ghost predicate SerializedUpTo(es: seq<Entry>, ps: seq<seq<Slot>>, qs: seq<seq<Slot>>, k: nat) {
    && SameShape(ps, qs)
    && forall i, j :: 0 <= i < |ps| && 0 <= j < |ps[i]| ==>
         qs[i][j] == if IndexOf(es, KeyOf(ps[i][j])) < k then SerializedSlot(es, Ref(i, j), ps[i][j]) else ps[i][j]
  }

  lemma SkipEntry(es: seq<Entry>, ps: seq<seq<Slot>>, qs: seq<seq<Slot>>, k: nat)
    requires SerializedUpTo(es, ps, qs, k) && k < |es| && es[k].t.None?
    ensures SerializedUpTo(es, ps, qs, k + 1)
  {
  }

  lemma AllSerialized(es: seq<Entry>, ps: seq<seq<Slot>>, qs: seq<seq<Slot>>)
    requires SerializedUpTo(es, ps, qs, |es|)
    ensures qs == Serialized(es, ps)
  {
    forall i | 0 <= i < |ps| ensures qs[i] == Serialized(es, ps)[i] {
      assert qs[i] == SerializedRow(es, i, ps[i]);
    }
  }

  lemma RefsAreOwn(es: seq<Entry>, ps: seq<seq<Slot>>, k: nat, i: nat, j: nat)
    requires RefsSound(es, ps) && k < |es| && i < |ps| && j < |ps[i]|
    ensures Ref(i, j) in es[k].refs ==> IndexOf(es, KeyOf(ps[i][j])) == k
  {
    if Ref(i, j) in es[k].refs {
      var l :| 0 <= l < |es[k].refs| && es[k].refs[l] == Ref(i, j);
      assert KeyOf(ps[es[k].refs[l].policy][es[k].refs[l].method_]) == es[k].key;
      IndexIs(es, es[k].key, k);
    }
  }

  lemma SameRefsSound(es: seq<Entry>, fs: seq<Entry>, ps: seq<seq<Slot>>)
    requires RefsSound(es, ps) && |es| == |fs|
    requires forall k :: 0 <= k < |es| ==> fs[k].key == es[k].key && fs[k].refs == es[k].refs
    ensures RefsSound(fs, ps)
  {
  }

  lemma {:induction false} FirstErrorIs(es: seq<Entry>, i: nat)
    requires i <= |es| && (i < |es| ==> es[i].ec != EC_NONE) && forall k :: 0 <= k < i ==> es[k].ec == EC_NONE
    ensures FirstError(es) == i
  {
    if i > 0 {
      FirstErrorIs(es[1..], i - 1);
    }
  }

  ghost function PhaseAt(es: seq<Entry>, key: Key): Phase {
    var i := IndexOf(es, key);
    if i < |es| then EntryPhase(es[i]) else Absent
  }

  lemma {:induction false} IndexIs(es: seq<Entry>, key: Key, i: nat)
    requires i <= |es| && (i < |es| ==> es[i].key == key) && forall k :: 0 <= k < i ==> es[k].key != key
    ensures IndexOf(es, key) == i
  {
    if i > 0 {
      IndexIs(es[1..], key, i - 1);
    }
  }

  lemma {:induction false} InFlightPositive(es: seq<Entry>, i: nat)
    requires i < |es| && es[i].tu.Some?
    ensures InFlightCount(es) > 0
  {
    if i < |es| - 1 {
      InFlightPositive(es[..|es| - 1], i);
    }
  }
}
