/** Building policies and the recovery document, and storing it with several providers. */
module Backup {
  import opened Wrappers
  import opened Crypto

  datatype Truth = Truth(uuid: Uuid, keyShare: KeyShare, nonce: nat, truthKey: nat, providerSalt: nat,
                         salt: nat, url: string, kind: string, instructions: string, mimeType: Option<string>)

  datatype BackupPolicy = BackupPolicy(key: PolicyKey, salt: nat, truths: seq<Truth>)

  datatype DecPolicy = DecPolicy(masterKey: SealedMaster, salt: nat, uuids: seq<Uuid>)

  datatype Escrow = Escrow(uuid: Uuid, url: string, instructions: string, truthKey: nat, truthSalt: nat,
                           providerSalt: nat, kind: string)

  datatype Document = Document(secretName: Option<string>, policies: seq<DecPolicy>, escrowMethods: seq<Escrow>,
                               encryptedCoreSecret: SealedSecret)

  function SharesOf(ts: seq<Truth>): (r: seq<KeyShare>)
    ensures |r| == |ts| && forall i :: 0 <= i < |ts| ==> r[i] == ts[i].keyShare
  {
    seq(|ts|, i requires 0 <= i < |ts| => ts[i].keyShare)
  }

  function UuidsOf(ts: seq<Truth>): (r: seq<Uuid>)
    ensures |r| == |ts| && forall i :: 0 <= i < |ts| ==> r[i] == ts[i].uuid
  {
    seq(|ts|, i requires 0 <= i < |ts| => ts[i].uuid)
  }

  /** The policy key is derived from the key shares in the order of the truths. */
  method PolicyCreate(truths: array<Truth>, salt: nat) returns (p: BackupPolicy)
    ensures p == BackupPolicy(PolicyKey(SharesOf(truths[..]), salt), salt, truths[..])
  {
    var keyShares := new KeyShare[truths.Length];
    for i := 0 to truths.Length
      invariant forall k :: 0 <= k < i ==> keyShares[k] == truths[k].keyShare
    {
      keyShares[i] := truths[i].keyShare;
    }
    assert keyShares[..] == SharesOf(truths[..]);
    p := BackupPolicy(PolicyKey(keyShares[..], salt), salt, truths[..]);
  }

  function EscrowOf(t: Truth): Escrow {
    Escrow(t.uuid, t.url, t.instructions, t.truthKey, t.salt, t.providerSalt, t.kind)
  }

  ghost predicate UuidIn(u: Uuid, ts: seq<Truth>) {
    exists l :: 0 <= l < |ts| && ts[l].uuid == u
  }

  /** Some policy of the list has a truth with this UUID. */
  ghost predicate UsedIn(u: Uuid, ps: seq<BackupPolicy>) {
    exists k :: 0 <= k < |ps| && UuidIn(u, ps[k].truths)
  }

  /** Truths of the list not used by the earlier policies, in order. */
  ghost function NewTruths(earlier: seq<BackupPolicy>, ts: seq<Truth>): seq<Escrow> {
    if ts == [] then []
    else
      var front, t := NewTruths(earlier, ts[..|ts| - 1]), ts[|ts| - 1];
      if UsedIn(t.uuid, earlier) then front else front + [EscrowOf(t)]
  }

  ghost function EscrowMethods(ps: seq<BackupPolicy>): seq<Escrow> {
    if ps == [] then []
    else
      var earlier := ps[..|ps| - 1];
      EscrowMethods(earlier) + NewTruths(earlier, ps[|ps| - 1].truths)
  }

  function DecPolicyOf(p: BackupPolicy, master: MasterKey): DecPolicy {
    DecPolicy(SealedMaster(master, p.key), p.salt, UuidsOf(p.truths))
  }

  function DecPolicies(ps: seq<BackupPolicy>, master: MasterKey): (r: seq<DecPolicy>)
    ensures |r| == |ps| && forall i :: 0 <= i < |ps| ==> r[i] == DecPolicyOf(ps[i], master)
  {
    seq(|ps|, i requires 0 <= i < |ps| => DecPolicyOf(ps[i], master))
  }

  ghost function DocumentOf(name: Option<string>, ps: seq<BackupPolicy>, master: MasterKey, secret: string): Document {
    Document(name, DecPolicies(ps, master), EscrowMethods(ps), SealedSecret(secret, master))
  }

  /** The search for the truth's UUID in the policies before policy k. */
  method IsUnique(ps: seq<BackupPolicy>, k: nat, u: Uuid) returns (unique: bool)
    requires k <= |ps|
    ensures unique <==> !UsedIn(u, ps[..k])
  {
    ghost var earlier := ps[..k];
    for k2 := 0 to k
      invariant forall i :: 0 <= i < k2 ==> !UuidIn(u, earlier[i].truths)
    {
      for l2 := 0 to |ps[k2].truths|
        invariant forall i :: 0 <= i < l2 ==> ps[k2].truths[i].uuid != u
      {
        if u == ps[k2].truths[l2].uuid {
          assert UuidIn(u, earlier[k2].truths);
          return false;
        }
      }
    }
    return true;
  }

  /** The document built by secret_share before it is sealed and sent. */
  method BuildDocument(name: Option<string>, ps: seq<BackupPolicy>, master: MasterKey,
                       secret: string) returns (doc: Document)
    ensures doc == DocumentOf(name, ps, master, secret)
  {
    var decPolicies := [];
    for k := 0 to |ps|
      invariant decPolicies == DecPolicies(ps, master)[..k]
    {
      var uuids := [];
      for b := 0 to |ps[k].truths|
        invariant uuids == UuidsOf(ps[k].truths)[..b]
      {
        uuids := uuids + [ps[k].truths[b].uuid];
      }
      assert uuids == UuidsOf(ps[k].truths);
      decPolicies := decPolicies + [DecPolicy(SealedMaster(master, ps[k].key), ps[k].salt, uuids)];
    }
    var escMethods := [];
    for k := 0 to |ps|
      invariant escMethods == EscrowMethods(ps[..k])
    {
      var ts := ps[k].truths;
      for l := 0 to |ts|
        invariant escMethods == EscrowMethods(ps[..k]) + NewTruths(ps[..k], ts[..l])
      {
        var pt := ts[l];
        assert ts[..l + 1][..l] == ts[..l];
        var unique := IsUnique(ps, k, pt.uuid);
        if !unique {
          continue;
        }
        escMethods := escMethods + [EscrowOf(pt)];
      }
      assert ts[..|ts|] == ts && ps[..k + 1][..k] == ps[..k];
    }
    assert ps[..|ps|] == ps;
    doc := Document(name, decPolicies, escMethods, SealedSecret(secret, master));
  }

  // ----- the escrow list

  /** One UUID names one truth. */
  ghost predicate Consistent(ps: seq<BackupPolicy>) {
    forall i, j, k, l | 0 <= i < |ps| && 0 <= j < |ps[i].truths| && 0 <= k < |ps| && 0 <= l < |ps[k].truths| ::
      ps[i].truths[j].uuid == ps[k].truths[l].uuid ==> ps[i].truths[j] == ps[k].truths[l]
  }

  ghost predicate UniqueUuids(es: seq<Escrow>) {
    forall i, j :: 0 <= i < j < |es| ==> es[i].uuid != es[j].uuid
  }

  ghost predicate Listed(u: Uuid, es: seq<Escrow>) {
    exists i :: 0 <= i < |es| && es[i].uuid == u
  }

  /** Within this policy no truth that earlier policies do not use appears twice. */
  ghost predicate NoFreshRepeats(earlier: seq<BackupPolicy>, ts: seq<Truth>) {
    forall i, j :: 0 <= i < j < |ts| && ts[i].uuid == ts[j].uuid ==> UsedIn(ts[j].uuid, earlier)
  }

  lemma {:induction false} NewTruthsListed(earlier: seq<BackupPolicy>, ts: seq<Truth>, u: Uuid)
    ensures Listed(u, NewTruths(earlier, ts)) <==> UuidIn(u, ts) && !UsedIn(u, earlier)
  {
    if ts != [] {
      var front, t := ts[..|ts| - 1], ts[|ts| - 1];
      NewTruthsListed(earlier, front, u);
      var es, es' := NewTruths(earlier, front), NewTruths(earlier, ts);
      if Listed(u, es) {
        var i :| 0 <= i < |es| && es[i].uuid == u;
        assert es'[i].uuid == u;
      }
      if UuidIn(u, front) {
        var l :| 0 <= l < |front| && front[l].uuid == u;
        assert ts[l].uuid == u;
      }
      if t.uuid == u && !UsedIn(u, earlier) {
        assert es'[|es|].uuid == u;
      }
    }
  }

  lemma UniqueSnoc(es: seq<Escrow>, e: Escrow)
    ensures UniqueUuids(es + [e]) <==> UniqueUuids(es) && !Listed(e.uuid, es)
  {
    if UniqueUuids(es + [e]) {
      assert forall i :: 0 <= i < |es| ==> (es + [e])[i] == es[i];
      assert (es + [e])[|es|] == e;
    }
  }

  lemma RepeatsSnoc(earlier: seq<BackupPolicy>, ts: seq<Truth>, t: Truth)
    ensures NoFreshRepeats(earlier, ts + [t]) <==>
            NoFreshRepeats(earlier, ts) && (UuidIn(t.uuid, ts) ==> UsedIn(t.uuid, earlier))
  {
    var all := ts + [t];
    assert all[|ts|] == t && forall i :: 0 <= i < |ts| ==> all[i] == ts[i];
    if NoFreshRepeats(earlier, all) {
      if l :| 0 <= l < |ts| && ts[l].uuid == t.uuid {
        assert all[l].uuid == all[|ts|].uuid;
      }
    }
  }

  lemma {:induction false} NewTruthsUnique(earlier: seq<BackupPolicy>, ts: seq<Truth>)
    ensures UniqueUuids(NewTruths(earlier, ts)) <==> NoFreshRepeats(earlier, ts)
  {
    if ts != [] {
      var front, t := ts[..|ts| - 1], ts[|ts| - 1];
      NewTruthsUnique(earlier, front);
      NewTruthsListed(earlier, front, t.uuid);
      assert ts == front + [t];
      RepeatsSnoc(earlier, front, t);
      UniqueSnoc(NewTruths(earlier, front), EscrowOf(t));
    }
  }

  /** The escrow list names exactly the truths used by the policies. */
  lemma {:induction false} EscrowListsUsed(ps: seq<BackupPolicy>, u: Uuid)
    ensures Listed(u, EscrowMethods(ps)) <==> UsedIn(u, ps)
  {
    if ps != [] {
      var earlier, last := ps[..|ps| - 1], ps[|ps| - 1];
      EscrowListsUsed(earlier, u);
      NewTruthsListed(earlier, last.truths, u);
      ListedConcat(u, EscrowMethods(earlier), NewTruths(earlier, last.truths));
      if UsedIn(u, earlier) {
        var k :| 0 <= k < |earlier| && UuidIn(u, earlier[k].truths);
        assert ps[k] == earlier[k];
      }
      if UsedIn(u, ps) {
        var k :| 0 <= k < |ps| && UuidIn(u, ps[k].truths);
        assert k < |earlier| ==> earlier[k] == ps[k];
      }
    }
  }

  lemma ListedConcat(u: Uuid, a: seq<Escrow>, b: seq<Escrow>)
    ensures Listed(u, a + b) <==> Listed(u, a) || Listed(u, b)
  {
    if Listed(u, a) {
      var i :| 0 <= i < |a| && a[i].uuid == u;
      assert (a + b)[i].uuid == u;
    }
    if Listed(u, b) {
      var i :| 0 <= i < |b| && b[i].uuid == u;
      assert (a + b)[|a| + i].uuid == u;
    }
  }

  /**
   * Every truth is listed once exactly when no policy repeats a truth it is the first to use.
   * Repeats of a truth that an earlier policy already uses do no harm.
   */
  lemma {:induction false} EscrowUnique(ps: seq<BackupPolicy>)
    ensures UniqueUuids(EscrowMethods(ps)) <==> forall k :: 0 <= k < |ps| ==> NoFreshRepeats(ps[..k], ps[k].truths)
  {
    if ps != [] {
      var earlier, last := ps[..|ps| - 1], ps[|ps| - 1];
      EscrowUnique(earlier);
      NewTruthsUnique(earlier, last.truths);
      var a, b := EscrowMethods(earlier), NewTruths(earlier, last.truths);
      forall i, j | 0 <= i < |a| && 0 <= j < |b| ensures a[i].uuid != b[j].uuid {
        EscrowListsUsed(earlier, a[i].uuid);
        NewTruthsListed(earlier, last.truths, b[j].uuid);
        assert Listed(a[i].uuid, a) && Listed(b[j].uuid, b);
      }
      UniqueConcat(a, b);
      assert forall k :: 0 <= k < |earlier| ==> earlier[..k] == ps[..k] && earlier[k] == ps[k];
    }
  }

  /** A first policy with the same truth twice gets two entries. */
  lemma RepeatedTruthListedTwice(p: BackupPolicy, t: Truth)
    requires p.truths == [t, t]
    ensures EscrowMethods([p]) == [EscrowOf(t), EscrowOf(t)] && !UniqueUuids(EscrowMethods([p]))
  {
    var none := [p][..0];
    assert !UsedIn(t.uuid, none);
    assert NewTruths(none, [t][..0]) == [];
    assert NewTruths(none, [t]) == [EscrowOf(t)];
    assert [t, t][..1] == [t];
    assert NewTruths(none, [t, t]) == [EscrowOf(t)] + [EscrowOf(t)];
    assert EscrowMethods(none) == [];
    var es := EscrowMethods([p]);
    assert es == [EscrowOf(t), EscrowOf(t)];
    assert es[0].uuid == es[1].uuid;
  }

  lemma UniqueConcat(a: seq<Escrow>, b: seq<Escrow>)
    requires forall i, j :: 0 <= i < |a| && 0 <= j < |b| ==> a[i].uuid != b[j].uuid
    ensures UniqueUuids(a + b) <==> UniqueUuids(a) && UniqueUuids(b)
  {
    if UniqueUuids(a + b) {
      assert forall i :: 0 <= i < |a| ==> (a + b)[i] == a[i];
      assert forall j :: 0 <= j < |b| ==> (a + b)[|a| + j] == b[j];
    }
  }

  /** Each listed entry describes a truth of the policies. */
  lemma {:induction false} EscrowDescribesTruths(ps: seq<BackupPolicy>, e: Escrow)
    requires e in EscrowMethods(ps)
    ensures exists k, l :: 0 <= k < |ps| && 0 <= l < |ps[k].truths| && e == EscrowOf(ps[k].truths[l])
  {
    var earlier, last := ps[..|ps| - 1], ps[|ps| - 1];
    if e in EscrowMethods(earlier) {
      EscrowDescribesTruths(earlier, e);
      var k, l :| 0 <= k < |earlier| && 0 <= l < |earlier[k].truths| && e == EscrowOf(earlier[k].truths[l]);
      assert ps[k] == earlier[k];
    } else {
      var l := NewTruthsDescribe(earlier, last.truths, e);
      assert ps[|ps| - 1].truths[l] == last.truths[l];
    }
  }

  lemma {:induction false} NewTruthsDescribe(earlier: seq<BackupPolicy>, ts: seq<Truth>, e: Escrow) returns (l: nat)
    requires e in NewTruths(earlier, ts)
    ensures l < |ts| && e == EscrowOf(ts[l])
  {
    var front, t := ts[..|ts| - 1], ts[|ts| - 1];
    if e in NewTruths(earlier, front) {
      l := NewTruthsDescribe(earlier, front, e);
    } else {
      l := |front|;
    }
  }
}
