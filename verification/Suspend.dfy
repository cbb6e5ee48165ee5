/** Suspending a recovery to a document and resuming from it. */
module Suspend {
  import opened Wrappers
  import opened Crypto
  import opened Backup
  import opened Recovery

  datatype SavedPolicy = SavedPolicy(emk: SealedMaster, salt: nat, uuids: seq<Uuid>)

  datatype SavedChallenge = SavedChallenge(uuid: Uuid, truthKey: nat, salt: nat, providerSalt: nat,
                                           keyShare: Option<KeyShare>,
                                           url: string, kind: string, instructions: string, solved: bool, async: bool)

  datatype Saved = Saved(info: Info, dps: seq<SavedPolicy>, cs: seq<SavedChallenge>)

  // ----- what is written

  function SavedChallengeOf(c: Challenge): SavedChallenge {
    SavedChallenge(c.uuid, c.truthKey, c.salt, c.providerSalt, if c.solved then Some(c.keyShare) else None,
                   c.url, c.kind, c.instructions, c.solved, c.async)
  }

  function SavedChallenges(cs: seq<Challenge>): (r: seq<SavedChallenge>)
    ensures |r| == |cs| && forall i :: 0 <= i < |cs| ==> r[i] == SavedChallengeOf(cs[i])
  {
    seq(|cs|, i requires 0 <= i < |cs| => SavedChallengeOf(cs[i]))
  }

  ghost function UuidsAt(cs: seq<Challenge>, p: DecryptionPolicy): (r: seq<Uuid>)
    requires LinksValid(|cs|, p)
    ensures |r| == |p.challenges| && forall j :: 0 <= j < |r| ==> r[j] == cs[p.challenges[j]].uuid
  {
    seq(|p.challenges|, j requires 0 <= j < |p.challenges| => cs[p.challenges[j]].uuid)
  }

  ghost function SavedPolicies(cs: seq<Challenge>, dps: seq<DecryptionPolicy>): (r: seq<SavedPolicy>)
    requires forall i :: 0 <= i < |dps| ==> LinksValid(|cs|, dps[i])
    ensures |r| == |dps|
    ensures forall i :: 0 <= i < |dps| ==> r[i] == SavedPolicy(dps[i].emk, dps[i].salt, UuidsAt(cs, dps[i]))
  {
    seq(|dps|, i requires 0 <= i < |dps| => SavedPolicy(dps[i].emk, dps[i].salt, UuidsAt(cs, dps[i])))
  }

  ghost function Save(s: State): Saved
    requires Inv(s)
  {
    Saved(s.info, SavedPolicies(s.cs, s.dps), SavedChallenges(s.cs))
  }

  method Serialize(op: Operation) returns (d: Saved)
    requires op.Valid()
    ensures d == Save(op.AsState())
  {
    var dpsArr := [];
    for i := 0 to |op.dps|
      invariant dpsArr == SavedPolicies(op.cs, op.dps)[..i]
    {
      var dp := op.dps[i];
      assert LinksValid(|op.cs|, dp);
      var cArr := [];
      for j := 0 to |dp.challenges|
        invariant cArr == UuidsAt(op.cs, dp)[..j]
      {
        cArr := cArr + [op.cs[dp.challenges[j]].uuid];
      }
      assert cArr == UuidsAt(op.cs, dp);
      dpsArr := dpsArr + [SavedPolicy(dp.emk, dp.salt, cArr)];
    }
    var csArr := [];
    for i := 0 to |op.cs|
      invariant csArr == SavedChallenges(op.cs)[..i]
    {
      csArr := csArr + [SavedChallengeOf(op.cs[i])];
    }
    d := Saved(op.info, dpsArr, csArr);
  }

  // ----- what is read back

  function RestoredChallenge(c: SavedChallenge): Challenge {
    Challenge(c.uuid, c.truthKey, c.salt, c.providerSalt, c.url, c.kind, c.instructions,
              if c.keyShare.Some? then c.keyShare.value else ZERO_SHARE, None, c.keyShare.Some?, c.async, false)
  }

  function RestoredChallenges(cs: seq<SavedChallenge>): (r: seq<Challenge>)
    ensures |r| == |cs| && forall i :: 0 <= i < |cs| ==> r[i] == RestoredChallenge(cs[i])
  {
    seq(|cs|, i requires 0 <= i < |cs| => RestoredChallenge(cs[i]))
  }

  /** Positions of the solved challenges, in the order of the array. */
  ghost function SolvedIn(cs: seq<Challenge>): (r: seq<nat>)
    ensures forall k :: 0 <= k < |r| ==> r[k] < |cs| && cs[r[k]].solved
    ensures forall k, l :: 0 <= k < l < |r| ==> r[k] < r[l]
    ensures |r| <= |cs|
  {
    if cs == [] then []
    else
      var r := SolvedIn(cs[..|cs| - 1]);
      if cs[|cs| - 1].solved then r + [|cs| - 1] else r
  }

  lemma SolvedInNone()
    ensures SolvedIn([]) == []
  {
  }

  lemma SolvedInSnoc(cs: seq<Challenge>, n: nat)
    requires n < |cs|
    ensures SolvedIn(cs[..n + 1]) == SolvedIn(cs[..n]) + (if cs[n].solved then [n] else [])
  {
    assert cs[..n + 1][..n] == cs[..n];
  }

  lemma {:induction false} SolvedInFinds(cs: seq<Challenge>, c: nat)
    requires c < |cs|
    ensures c in SolvedIn(cs) <==> cs[c].solved
  {
    if c < |cs| - 1 {
      SolvedInFinds(cs[..|cs| - 1], c);
    }
  }

  ghost function LastLinks(cs: seq<Challenge>, us: seq<Uuid>): (r: seq<nat>)
    ensures |r| == |us| && forall i :: 0 <= i < |us| ==> r[i] == LastMatch(cs, us[i])
  {
    seq(|us|, i requires 0 <= i < |us| => LastMatch(cs, us[i]))
  }

  ghost predicate Found(cs: seq<Challenge>, us: seq<Uuid>) {
    forall i :: 0 <= i < |us| ==> LastMatch(cs, us[i]) < |cs|
  }

  ghost function RestoredPolicies(cs: seq<Challenge>, dps: seq<SavedPolicy>): (r: seq<DecryptionPolicy>)
    ensures |r| == |dps|
    ensures forall i :: 0 <= i < |dps| ==>
      r[i] == DecryptionPolicy(dps[i].emk, dps[i].salt, LastLinks(cs, dps[i].uuids))
  {
    seq(|dps|, i requires 0 <= i < |dps| => DecryptionPolicy(dps[i].emk, dps[i].salt, LastLinks(cs, dps[i].uuids)))
  }

  ghost predicate Restorable(d: Saved) {
    forall i :: 0 <= i < |d.dps| ==> Found(RestoredChallenges(d.cs), d.dps[i].uuids)
  }

  ghost function Restore(d: Saved): State {
    var cs := RestoredChallenges(d.cs);
    State(d.info, cs, RestoredPolicies(cs, d.dps), SolvedIn(cs), [], true)
  }

  /** What the new operation does next. */
  datatype Resumption = LookUpAgain | RunPolicyCallback | ParseError

  method LinkLast(cs: seq<Challenge>, uuids: seq<Uuid>) returns (r: Option<seq<nat>>)
    ensures r == if Found(cs, uuids) then Some(LastLinks(cs, uuids)) else None
  {
    var challenges: seq<nat> := [];
    for n := 0 to |uuids|
      invariant challenges == LastLinks(cs, uuids)[..n]
      invariant forall k :: 0 <= k < n ==> LastMatch(cs, uuids[k]) < |cs|
    {
      var found := false;
      var link: nat := 0;
      for i := 0 to |cs|
        invariant !found ==> forall k :: 0 <= k < i ==> cs[k].uuid != uuids[n]
        invariant found ==> link < i && cs[link].uuid == uuids[n] && forall k :: link < k < i ==> cs[k].uuid != uuids[n]
      {
        if uuids[n] != cs[i].uuid {
          continue;
        }
        link := i;
        found := true;
      }
      if !found {
        assert LastMatch(cs, uuids[n]) == |cs|;
        return None;
      }
      assert link == LastMatch(cs, uuids[n]);
      challenges := challenges + [link];
    }
    assert challenges == LastLinks(cs, uuids);
    return Some(challenges);
  }

  /** The saved solved flag is not read: a challenge with a key share is a solved one. */
  method ParseCsArray(op: Operation, csArr: seq<SavedChallenge>)
    requires op.Loading()
    modifies op
    ensures fresh(op.solvedChallenges) && op.solvedChallenges.Length == |csArr| && op.solvedPos <= |csArr|
    ensures op.cs == RestoredChallenges(csArr) && op.solvedChallenges[..op.solvedPos] == SolvedIn(op.cs)
    ensures op.info == old(op.info) && op.dps == [] && op.outcomes == [] && op.live
  {
    hide SolvedIn;
    SolvedInNone();
    var goal := RestoredChallenges(csArr);
    op.solvedChallenges := new nat[|csArr|];
    for n := 0 to |csArr|
      invariant fresh(op.solvedChallenges) && op.solvedChallenges.Length == |csArr|
      invariant op.info == old(op.info) && op.dps == [] && op.outcomes == [] && op.live
      invariant op.cs == goal[..n] && op.solvedPos <= n
      invariant op.solvedChallenges[..op.solvedPos] == SolvedIn(goal[..n])
    {
      SolvedInSnoc(goal, n);
      op.cs := op.cs + [RestoredChallenge(csArr[n])];
      if csArr[n].keyShare.Some? {
        op.solvedChallenges[op.solvedPos] := n;
        op.solvedPos := op.solvedPos + 1;
      }
    }
    assert goal[..|csArr|] == goal;
  }

  method ParseDpsArray(op: Operation, dpsArr: seq<SavedPolicy>) returns (ok: bool)
    requires op.dps == []
    modifies op`dps
    ensures ok <==> forall i :: 0 <= i < |dpsArr| ==> Found(op.cs, dpsArr[i].uuids)
    ensures ok ==> op.dps == RestoredPolicies(op.cs, dpsArr)
  {
    for n := 0 to |dpsArr|
      invariant op.dps == RestoredPolicies(op.cs, dpsArr)[..n]
      invariant forall k :: 0 <= k < n ==> Found(op.cs, dpsArr[k].uuids)
    {
      var challenges := LinkLast(op.cs, dpsArr[n].uuids);
      if challenges.None? {
        return false;
      }
      op.dps := op.dps + [DecryptionPolicy(dpsArr[n].emk, dpsArr[n].salt, challenges.value)];
    }
    return true;
  }

  /** A fresh operation in the saved state. */
  method Deserialize(d: Saved) returns (op: Operation, next: Resumption)
    ensures fresh(op) && fresh(op.solvedChallenges)
    ensures next == ParseError <==> !Restorable(d)
    ensures next != ParseError ==> op.Valid() && op.AsState() == Restore(d)
    ensures next == LookUpAgain <==> Restorable(d) && d.dps == []
  {
    op := new Operation(d.info);
    ParseCsArray(op, d.cs);
    var ok := ParseDpsArray(op, d.dps);
    if !ok {
      return op, ParseError;
    }
    RestoredInv(d);
    next := if d.dps == [] then LookUpAgain else RunPolicyCallback;
  }

  lemma RestoredInv(d: Saved)
    requires Restorable(d)
    ensures Inv(Restore(d))
  {
    var s := Restore(d);
    forall c | 0 <= c < |s.cs| ensures s.cs[c].solved <==> c in s.solved {
      SolvedInFinds(s.cs, c);
    }
  }

  // ----- resuming is invisible

  /** Same state except for the order in which challenges were solved. */
  ghost predicate Alike(s: State, t: State) {
    && s.info == t.info && s.cs == t.cs && s.dps == t.dps && s.outcomes == t.outcomes && s.live == t.live
    && forall c :: c in s.solved <==> c in t.solved
  }

  /** The state with its requests aborted and the answers typed in forgotten. */
  ghost function Quiet(s: State): (t: State)
    ensures |t.cs| == |s.cs| && forall c :: 0 <= c < |s.cs| ==> t.cs[c] == s.cs[c].(answer := None, inFlight := false)
    ensures t.info == s.info && t.dps == s.dps && t.solved == s.solved && t.outcomes == s.outcomes && t.live == s.live
  {
    s.(cs := seq(|s.cs|, c requires 0 <= c < |s.cs| => s.cs[c].(answer := None, inFlight := false)))
  }

  lemma QuietInv(s: State)
    requires Inv(s)
    ensures Inv(Quiet(s))
  {
    var t := Quiet(s);
    forall c | 0 <= c < |t.cs| ensures t.cs[c].solved <==> c in t.solved {
      assert s.cs[c].solved <==> c in s.solved;
    }
  }

  /** Every link leads to the last challenge with its UUID. */
  ghost predicate LinksLast(s: State) {
    forall i, j :: 0 <= i < |s.dps| && 0 <= j < |s.dps[i].challenges| ==> LinkIsLast(s.cs, s.dps[i].challenges[j])
  }

  ghost predicate LinkIsLast(cs: seq<Challenge>, c: nat) {
    c < |cs| && forall k :: c < k < |cs| ==> cs[k].uuid != cs[c].uuid
  }

  lemma DistinctLinksLast(s: State)
    requires Inv(s) && DistinctUuids(s.cs)
    ensures LinksLast(s)
  {
    assert forall i :: 0 <= i < |s.dps| ==> LinksValid(|s.cs|, s.dps[i]);
  }

  /** Links always lead somewhere again; they are kept exactly if each led to the last challenge with its UUID. */
  lemma LinksKept(s: State)
    requires Inv(s)
    ensures Restorable(Save(s))
    ensures Restore(Save(s)).dps == s.dps <==> LinksLast(s)
  {
    var d, t := Save(s), Restore(Save(s));
    assert |t.cs| == |s.cs| && forall c :: 0 <= c < |s.cs| ==> t.cs[c].uuid == s.cs[c].uuid;
    forall i | 0 <= i < |s.dps|
      ensures Found(t.cs, d.dps[i].uuids)
      ensures t.dps[i] == s.dps[i] <==>
        forall j :: 0 <= j < |s.dps[i].challenges| ==> LinkIsLast(s.cs, s.dps[i].challenges[j])
    {
      var links := s.dps[i].challenges;
      assert LinksValid(|s.cs|, s.dps[i]);
      forall j | 0 <= j < |links|
        ensures LastMatch(t.cs, d.dps[i].uuids[j]) < |t.cs|
        ensures LastLinks(t.cs, d.dps[i].uuids)[j] == links[j] <==> LinkIsLast(s.cs, links[j])
      {
        assert d.dps[i].uuids[j] == s.cs[links[j]].uuid;
        assert t.cs[links[j]].uuid == d.dps[i].uuids[j];
      }
    }
  }

  /** Challenges, solved set and key shares survive suspending and resuming, whatever happens to the links. */
  lemma ChallengesRestored(s: State)
    requires Inv(s)
    ensures Restorable(Save(s)) && Inv(Restore(Save(s)))
    ensures Restore(Save(s)).cs == Quiet(s).cs && Restore(Save(s)).info == s.info
    ensures forall c :: c in s.solved <==> c in Restore(Save(s)).solved
  {
    var d, t, q := Save(s), Restore(Save(s)), Quiet(s);
    forall c | 0 <= c < |s.cs| ensures t.cs[c] == q.cs[c] {
      assert d.cs[c] == SavedChallengeOf(s.cs[c]);
    }
    assert t.cs == q.cs;
    LinksKept(s);
    RestoredInv(d);
    QuietInv(s);
    SameFlagsSameSolved(q, t);
  }

  /** So do links to last challenges, and then all but the order of solving is as before. */
  lemma ResumeRestores(s: State)
    requires Inv(s) && Waiting(s) && LinksLast(s)
    ensures Restorable(Save(s)) && Inv(Restore(Save(s))) && Alike(Quiet(s), Restore(Save(s)))
  {
    ChallengesRestored(s);
    LinksKept(s);
  }

  lemma SameFlagsSameSolved(s: State, t: State)
    requires Inv(s) && Inv(t) && s.cs == t.cs
    ensures forall c :: c in s.solved <==> c in t.solved
  {
    forall c | c in s.solved || c in t.solved ensures c in s.solved && c in t.solved {
      assert c < |s.cs|;
      assert s.cs[c].solved <==> c in s.solved;
      assert t.cs[c].solved <==> c in t.solved;
    }
  }

  /**
   * A policy that repeats a truth it is the first to use: the truth is listed twice, the loaded links
   * lead to the first of the two challenges, and after a resume they lead to the second.
   */
  lemma RepeatedTruthRelinked(t: Truth, salt: nat, name: Option<string>, master: MasterKey, secret: string,
                              info: Info, version: nat)
    ensures var p := BackupPolicy(PolicyKey(SharesOf([t, t]), salt), salt, [t, t]);
            var doc := DocumentOf(name, [p], master, secret);
            var s := LoadedState(info, version, doc);
            && doc.escrowMethods == [EscrowOf(t), EscrowOf(t)] && AllLinkable(doc)
            && |s.dps| == 1 && s.dps[0].challenges == [0, 0]
            && |Restore(Save(s)).dps| == 1 && Restore(Save(s)).dps[0].challenges == [1, 1]
  {
    var p := BackupPolicy(PolicyKey(SharesOf([t, t]), salt), salt, [t, t]);
    var doc := DocumentOf(name, [p], master, secret);
    RepeatedTruthListedTwice(p, t);
    var s := LoadedState(info, version, doc);
    assert s.cs[0].uuid == s.cs[1].uuid == t.uuid;
    assert doc.policies[0].uuids == [t.uuid, t.uuid];
    assert s.dps[0].challenges == [0, 0];
    var u := Restore(Save(s));
    assert u.cs[0].uuid == u.cs[1].uuid == t.uuid;
    assert Save(s).dps[0].uuids == [t.uuid, t.uuid];
    assert u.dps[0].challenges == [1, 1];
  }

  /** A loaded state links to last challenges exactly if no policy repeats a truth that it is the first to use. */
  lemma LoadedLinksLastIff(info: Info, version: nat, name: Option<string>, ps: seq<BackupPolicy>,
                           master: MasterKey, secret: string)
    ensures LinksLast(LoadedState(info, version, DocumentOf(name, ps, master, secret))) <==>
            forall k :: 0 <= k < |ps| ==> NoFreshRepeats(ps[..k], ps[k].truths)
  {
    hide LinksLast, NoFreshRepeats;
    var s, es := LoadedState(info, version, DocumentOf(name, ps, master, secret)), EscrowMethods(ps);
    EscrowUnique(ps);
    LoadedLinks(info, version, name, ps, master, secret);
    if UniqueUuids(es) {
      UniqueLinksLast(ps, s);
    } else {
      RepeatNotLast(ps, s);
    }
  }

  /** The links of a loaded state, in terms of the policies that were backed up. */
  ghost predicate LinksFirst(ps: seq<BackupPolicy>, s: State) {
    && s.cs == LoadedChallenges(EscrowMethods(ps)) && |s.dps| == |ps|
    && forall k :: 0 <= k < |ps| ==> LinksFirstOf(ps[k].truths, s.dps[k].challenges, s.cs)
  }

  ghost predicate LinksFirstOf(ts: seq<Truth>, links: seq<nat>, cs: seq<Challenge>) {
    |links| == |ts| && forall j :: 0 <= j < |ts| ==> links[j] == FirstMatch(cs, ts[j].uuid)
  }

  lemma LoadedLinks(info: Info, version: nat, name: Option<string>, ps: seq<BackupPolicy>, master: MasterKey,
                    secret: string)
    ensures LinksFirst(ps, LoadedState(info, version, DocumentOf(name, ps, master, secret)))
  {
    var doc := DocumentOf(name, ps, master, secret);
    var s := LoadedState(info, version, doc);
    forall k | 0 <= k < |ps| ensures LinksFirstOf(ps[k].truths, s.dps[k].challenges, s.cs) {
      assert doc.policies[k] == DecPolicyOf(ps[k], master);
    }
  }

  lemma UniqueLinksLast(ps: seq<BackupPolicy>, s: State)
    requires LinksFirst(ps, s) && UniqueUuids(EscrowMethods(ps))
    ensures LinksLast(s)
  {
    forall k, j | 0 <= k < |s.dps| && 0 <= j < |s.dps[k].challenges| ensures LinkIsLast(s.cs, s.dps[k].challenges[j]) {
      assert LinksFirstOf(ps[k].truths, s.dps[k].challenges, s.cs);
      LinkToUsed(ps, EscrowMethods(ps), s.cs, k, j);
    }
  }

  lemma RepeatNotLast(ps: seq<BackupPolicy>, s: State)
    requires LinksFirst(ps, s) && !UniqueUuids(EscrowMethods(ps))
    ensures !LinksLast(s)
  {
    var es := EscrowMethods(ps);
    var a, b :| 0 <= a < b < |es| && es[a].uuid == es[b].uuid;
    assert Listed(es[a].uuid, es);
    EscrowListsUsed(ps, es[a].uuid);
    var k :| 0 <= k < |ps| && UuidIn(es[a].uuid, ps[k].truths);
    var j :| 0 <= j < |ps[k].truths| && ps[k].truths[j].uuid == es[a].uuid;
    assert LinksFirstOf(ps[k].truths, s.dps[k].challenges, s.cs);
    var c := s.dps[k].challenges[j];
    assert s.cs[a].uuid == s.cs[b].uuid == es[a].uuid;
    assert c == FirstMatch(s.cs, es[a].uuid) <= a;
    assert !LinkIsLast(s.cs, c);
  }

  lemma LinkToUsed(ps: seq<BackupPolicy>, es: seq<Escrow>, cs: seq<Challenge>, k: nat, j: nat)
    requires es == EscrowMethods(ps) && cs == LoadedChallenges(es) && UniqueUuids(es)
    requires k < |ps| && j < |ps[k].truths|
    ensures LinkIsLast(cs, FirstMatch(cs, ps[k].truths[j].uuid))
  {
    var u := ps[k].truths[j].uuid;
    assert UuidIn(u, ps[k].truths);
    EscrowListsUsed(ps, u);
    var i :| 0 <= i < |es| && es[i].uuid == u;
    assert cs[i].uuid == u;
  }

  lemma AlikeComplete(s: State, t: State)
    requires Inv(s) && Inv(t) && Alike(s, t)
    ensures FirstComplete(s.solved, s.dps) == FirstComplete(t.solved, t.dps)
    ensures s.solved == [] <==> t.solved == []
  {
    forall i | 0 <= i < |s.dps| ensures Complete(s.solved, s.dps[i]) <==> Complete(t.solved, t.dps[i]) {
    }
    var i := FirstComplete(s.solved, s.dps);
    FirstCompleteIs(t.solved, t.dps, i);
    if s.solved != [] {
      assert s.solved[0] in t.solved;
    }
    if t.solved != [] {
      assert t.solved[0] in s.solved;
    }
  }

  /** What happens next does not tell the two states apart: same policy, same shares, same secret. */
  lemma AlikeNext(s: State, t: State, e: Event)
    requires Inv(s) && Inv(t) && Alike(s, t) && (s.live ==> Enabled(s, e))
    ensures t.live ==> Enabled(t, e)
    ensures Alike(Next(s, e), Next(t, e))
  {
    if s.live && e.ReplyEv? && e.dd.ShareSuccess? {
      var u, v := Solve(s, e.c, e.dd.eks.share), Solve(t, e.c, e.dd.eks.share);
      SolveKeepsInv(s, e.c, e.dd.eks.share);
      SolveKeepsInv(t, e.c, e.dd.eks.share);
      assert Alike(u, v);
      AlikeComplete(u, v);
    }
  }

  /** The states passed through from s under a sequence of events. */
  ghost predicate Continues(s: State, tr: seq<State>, es: seq<Event>) {
    && |tr| == |es| + 1 && tr[0] == s
    && forall k :: 0 <= k < |es| && Inv(tr[k]) ==>
         (tr[k].live ==> Enabled(tr[k], es[k])) && tr[k + 1] == Next(tr[k], es[k])
  }

  /**
   * Every continuation of the resumed recovery delivers at the same step, the same outcome, as the
   * original continued from the same point with its requests aborted and its answers forgotten.
   */
  lemma {:induction false} ResumeInvisible(s: State, tr: seq<State>, ur: seq<State>, es: seq<Event>, k: nat)
    requires Inv(s) && Waiting(s) && LinksLast(s) && s.dps != []
    requires Continues(Quiet(s), tr, es) && Continues(Restore(Save(s)), ur, es) && k <= |es|
    ensures Inv(tr[k]) && Inv(ur[k]) && Alike(tr[k], ur[k])
    ensures FirstComplete(tr[k].solved, tr[k].dps) == FirstComplete(ur[k].solved, ur[k].dps)
    ensures tr[k].outcomes == ur[k].outcomes
  {
    hide Next, Save, Restore, Quiet, LinksLast;
    if k == 0 {
      QuietInv(s);
      ResumeRestores(s);
    } else {
      ResumeInvisible(s, tr, ur, es, k - 1);
      assert tr[k - 1 + 1] == Next(tr[k - 1], es[k - 1]) && ur[k - 1 + 1] == Next(ur[k - 1], es[k - 1]);
      NextKeepsInv(tr[k - 1], es[k - 1]);
      NextKeepsInv(ur[k - 1], es[k - 1]);
      AlikeNext(tr[k - 1], ur[k - 1], es[k - 1]);
    }
    AlikeComplete(tr[k], ur[k]);
  }
}
