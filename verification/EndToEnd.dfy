/** From policies over truths to the recovered secret, for every order of replies. */
module EndToEnd {
  import opened Wrappers
  import opened Crypto
  import opened Backup
  import opened Recovery
  import opened Suspend

  /** Policies as policy_create makes them, over truths of which each UUID names one. */
  ghost predicate Created(ps: seq<BackupPolicy>) {
    && Consistent(ps)
    && forall k :: 0 <= k < |ps| ==> ps[k].key == PolicyKey(SharesOf(ps[k].truths), ps[k].salt)
  }

  /** Policy and challenge arrays refer to the truths of the backed-up policies, in the same order. */
  ghost predicate Linked(ps: seq<BackupPolicy>, master: MasterKey, secret: string, s: State) {
    && s.info.encCoreSecret == SealedSecret(secret, master)
    && |s.dps| == |ps|
    && forall k :: 0 <= k < |ps| ==>
         && s.dps[k].emk == SealedMaster(master, ps[k].key) && s.dps[k].salt == ps[k].salt
         && LinkedTo(ps[k].truths, s.dps[k].challenges, s.cs)
  }

  ghost predicate LinkedTo(ts: seq<Truth>, links: seq<nat>, cs: seq<Challenge>) {
    |links| == |ts| && forall j :: 0 <= j < |ts| ==> links[j] < |cs| && IsFor(cs[links[j]], ts[j])
  }

  /** The challenge carries what was backed up about the truth. */
  ghost predicate IsFor(c: Challenge, t: Truth) {
    && c.uuid == t.uuid && c.url == t.url && c.kind == t.kind && c.instructions == t.instructions
    && c.truthKey == t.truthKey && c.salt == t.salt && c.providerSalt == t.providerSalt
  }

  /** Every UUID of a policy is linked to a challenge with it. */
  ghost predicate UuidsLinked(ps: seq<BackupPolicy>, s: State) {
    |s.dps| == |ps| && forall k :: 0 <= k < |ps| ==> UuidsLinkedTo(ps[k].truths, s.dps[k].challenges, s.cs)
  }

  ghost predicate UuidsLinkedTo(ts: seq<Truth>, links: seq<nat>, cs: seq<Challenge>) {
    |links| == |ts| && forall j :: 0 <= j < |ts| ==> links[j] < |cs| && cs[links[j]].uuid == ts[j].uuid
  }

  /** An escrow entry becomes a challenge with the same data, not solved and not answered yet. */
  lemma LoadedAsListed(t: Truth)
    ensures IsFor(LoadedChallenge(EscrowOf(t)), t)
    ensures var c := LoadedChallenge(EscrowOf(t));
            !c.solved && !c.inFlight && !c.async && c.answer.None? && c.keyShare == KeyShare(0)
  {
  }

  /**
   * The document can be re-linked. If each UUID names one truth, the links lead to challenges with all
   * that was backed up about the truths they came from.
   */
  lemma DocumentLoads(ps: seq<BackupPolicy>, name: Option<string>, master: MasterKey, secret: string, info: Info,
                      version: nat)
    ensures var doc, s := DocumentOf(name, ps, master, secret),
                          LoadedState(info, version, DocumentOf(name, ps, master, secret));
            && AllLinkable(doc) && UuidsLinked(ps, s)
            && (Consistent(ps) ==> Linked(ps, master, secret, s))
            && s.info == info.(version := version, encCoreSecret := SealedSecret(secret, master),
                               secretName := if name.Some? then name else info.secretName)
  {
    var doc := DocumentOf(name, ps, master, secret);
    var cs := LoadedChallenges(doc.escrowMethods);
    forall k, j | 0 <= k < |ps| && 0 <= j < |ps[k].truths|
      ensures FirstMatch(cs, ps[k].truths[j].uuid) < |cs|
      ensures Consistent(ps) ==> IsFor(cs[FirstMatch(cs, ps[k].truths[j].uuid)], ps[k].truths[j])
    {
      UsedIsListed(ps, k, j);
    }
    forall k | 0 <= k < |ps| ensures Linkable(cs, doc.policies[k].uuids) {
      assert doc.policies[k] == DecPolicyOf(ps[k], master);
      assert forall j :: 0 <= j < |ps[k].truths| ==> doc.policies[k].uuids[j] == ps[k].truths[j].uuid;
    }
    var s := LoadedState(info, version, doc);
    forall k | 0 <= k < |ps|
      ensures UuidsLinkedTo(ps[k].truths, s.dps[k].challenges, s.cs)
      ensures Consistent(ps) ==> LinkedTo(ps[k].truths, s.dps[k].challenges, s.cs)
    {
      assert doc.policies[k] == DecPolicyOf(ps[k], master);
    }
  }

  lemma UsedIsListed(ps: seq<BackupPolicy>, k: nat, j: nat)
    requires k < |ps| && j < |ps[k].truths|
    ensures var cs, t := LoadedChallenges(EscrowMethods(ps)), ps[k].truths[j];
            FirstMatch(cs, t.uuid) < |cs| && (Consistent(ps) ==> IsFor(cs[FirstMatch(cs, t.uuid)], t))
  {
    var es, t := EscrowMethods(ps), ps[k].truths[j];
    var cs := LoadedChallenges(es);
    assert UuidIn(t.uuid, ps[k].truths);
    EscrowListsUsed(ps, t.uuid);
    var i :| 0 <= i < |es| && es[i].uuid == t.uuid;
    assert cs[i].uuid == t.uuid;
    var c := FirstMatch(cs, t.uuid);
    EscrowDescribesTruths(ps, es[c]);
    var m, l :| 0 <= m < |ps| && 0 <= l < |ps[m].truths| && es[c] == EscrowOf(ps[m].truths[l]);
    LoadedAsListed(ps[m].truths[l]);
  }

  /**
   * The key share that was sealed for the user at the provider of a truth, with an answer, opens for
   * the challenge linked to that truth once this answer was given, and is the genuine one.
   */
  lemma UploadedShareOpens(ps: seq<BackupPolicy>, master: MasterKey, secret: string, s: State, k: nat, j: nat,
                           answer: Option<string>)
    requires Consistent(ps) && Linked(ps, master, secret, s) && k < |ps| && j < |ps[k].truths|
    requires j < |s.dps[k].challenges| && s.dps[k].challenges[j] < |s.cs|
    requires s.cs[s.dps[k].challenges[j]].answer == answer
    ensures var t, c := ps[k].truths[j], s.dps[k].challenges[j];
            var dd := ShareSuccess(SealedShare(t.keyShare, UserId(s.info.idData, t.providerSalt), answer));
            Openable(s, c, dd) && Genuine(ps, s, ReplyEv(c, dd))
  {
    assert LinkedTo(ps[k].truths, s.dps[k].challenges, s.cs);
  }

  ghost predicate ShareOfTruth(ps: seq<BackupPolicy>, u: Uuid, share: KeyShare) {
    forall k, j :: 0 <= k < |ps| && 0 <= j < |ps[k].truths| && ps[k].truths[j].uuid == u ==>
      share == ps[k].truths[j].keyShare
  }

  ghost predicate IsSuccess(e: Event) {
    e.ReplyEv? && e.dd.ShareSuccess?
  }

  /** A provider that releases a key share releases the one uploaded under that UUID. */
  ghost predicate Genuine(ps: seq<BackupPolicy>, s: State, e: Event) {
    IsSuccess(e) && e.c < |s.cs| ==> ShareOfTruth(ps, s.cs[e.c].uuid, e.dd.eks.share)
  }

  ghost predicate GenuineShares(ps: seq<BackupPolicy>, s: State) {
    forall c :: 0 <= c < |s.cs| && s.cs[c].solved ==> ShareOfTruth(ps, s.cs[c].uuid, s.cs[c].keyShare)
  }

  ghost predicate Allowed(ps: seq<BackupPolicy>, s: State, e: Event) {
    s.live ==> Enabled(s, e) && Genuine(ps, s, e)
  }

  lemma NextKeepsLinks(ps: seq<BackupPolicy>, master: MasterKey, secret: string, s: State, e: Event)
    requires Inv(s) && Allowed(ps, s, e) && Linked(ps, master, secret, s) && GenuineShares(ps, s)
    ensures Linked(ps, master, secret, Next(s, e)) && GenuineShares(ps, Next(s, e))
  {
    var t := Next(s, e);
    NextFrame(s, e);
    forall k | 0 <= k < |ps| ensures LinkedTo(ps[k].truths, t.dps[k].challenges, t.cs) {
      assert LinkedTo(ps[k].truths, s.dps[k].challenges, s.cs);
    }
    forall c | 0 <= c < |t.cs| && t.cs[c].solved ensures ShareOfTruth(ps, t.cs[c].uuid, t.cs[c].keyShare) {
      assert s.cs[c].solved || (IsSuccess(e) && e.c == c);
    }
  }

  ghost predicate SameTruth(c: Challenge, d: Challenge) {
    && c.uuid == d.uuid && c.url == d.url && c.kind == d.kind && c.instructions == d.instructions
    && c.truthKey == d.truthKey && c.salt == d.salt && c.providerSalt == d.providerSalt
  }

  /** A step touches no policy and no truth, and a share only together with its success reply. */
  lemma NextFrame(s: State, e: Event)
    requires Inv(s) && (s.live ==> Enabled(s, e))
    ensures var t := Next(s, e);
            && t.info == s.info && t.dps == s.dps && |t.cs| == |s.cs|
            && forall c :: 0 <= c < |s.cs| ==>
                 && SameTruth(t.cs[c], s.cs[c])
                 && (if s.live && IsSuccess(e) && e.c == c then t.cs[c].solved && t.cs[c].keyShare == e.dd.eks.share
                     else t.cs[c].solved == s.cs[c].solved && t.cs[c].keyShare == s.cs[c].keyShare)
  {
  }

  /** The shares of a complete policy, taken in order, rebuild its key and open the secret. */
  lemma CompletePolicyOpens(ps: seq<BackupPolicy>, master: MasterKey, secret: string, s: State, k: nat)
    requires Inv(s) && Created(ps) && Linked(ps, master, secret, s) && GenuineShares(ps, s)
    requires k < |ps| && Complete(s.solved, s.dps[k])
    ensures SecretBy(s, s.dps[k]) == Some(secret)
  {
    var p, ts := s.dps[k], ps[k].truths;
    assert LinkedTo(ts, p.challenges, s.cs);
    forall j | 0 <= j < |ts| ensures SharesFor(s.cs, p)[j] == SharesOf(ts)[j] {
      var c := p.challenges[j];
      assert c in s.solved;
      assert s.cs[c].solved;
      assert ShareOfTruth(ps, s.cs[c].uuid, s.cs[c].keyShare);
    }
    assert SharesFor(s.cs, p) == SharesOf(ts);
  }

  /** Only the right key shares, in the right order, open the secret. */
  lemma OnlyRightSharesOpen(ps: seq<BackupPolicy>, master: MasterKey, secret: string, s: State, k: nat)
    requires Inv(s) && Created(ps) && Linked(ps, master, secret, s) && k < |ps|
    ensures SecretBy(s, s.dps[k]) ==
            if SharesFor(s.cs, s.dps[k]) == SharesOf(ps[k].truths) then Some(secret) else None
  {
  }

  // ----- runs

  /** Something happens to the recovery, or it is suspended and resumed. */
  datatype Move = Do(e: Event) | Resume

  ghost predicate Permitted(ps: seq<BackupPolicy>, s: State, m: Move) {
    match m
    case Do(e) => Allowed(ps, s, e)
    case Resume => s.live ==> s.dps != []
  }

  ghost function After(ps: seq<BackupPolicy>, s: State, m: Move): State
    requires Inv(s) && Permitted(ps, s, m)
  {
    match m
    case Do(e) => Next(s, e)
    case Resume => if s.live then Restore(Save(s)) else s
  }

  /** The states passed through by a recovery; moves come in any order. */
  ghost predicate Run(ps: seq<BackupPolicy>, s0: State, tr: seq<State>, ms: seq<Move>) {
    && |tr| == |ms| + 1 && tr[0] == s0
    && forall k :: 0 <= k < |ms| && Inv(tr[k]) ==> Permitted(ps, tr[k], ms[k]) && tr[k + 1] == After(ps, tr[k], ms[k])
  }

  /** Challenge c had a successful reply among the first k moves, while the recovery was running. */
  ghost predicate SolvedWithin(tr: seq<State>, ms: seq<Move>, k: nat, c: nat)
    requires k <= |ms| && |tr| == |ms| + 1
  {
    exists m :: 0 <= m < k && tr[m].live && Solves(ms[m], c)
  }

  ghost predicate Solves(m: Move, c: nat) {
    m.Do? && IsSuccess(m.e) && m.e.c == c
  }

  /** No policy repeats a truth that it is the first to use, or the recovery is never suspended. */
  ghost predicate Resumable(ps: seq<BackupPolicy>, ms: seq<Move>) {
    || (forall k :: 0 <= k < |ps| ==> NoFreshRepeats(ps[..k], ps[k].truths))
    || forall k :: 0 <= k < |ms| ==> ms[k].Do?
  }

  ghost predicate Delivered(ps: seq<BackupPolicy>, secret: string, s: State) {
    && !s.live && s.outcomes == [CoreSecret(Some(secret))]
    && s.solved != [] && FirstComplete(s.solved, s.dps) < |s.dps|
  }

  /** What holds of every state of a run. */
  ghost predicate Sound(ps: seq<BackupPolicy>, master: MasterKey, secret: string, s: State) {
    Inv(s) && Linked(ps, master, secret, s) && GenuineShares(ps, s) && (Waiting(s) || Delivered(ps, secret, s))
  }

  lemma {:induction false} RunStaysSound(ps: seq<BackupPolicy>, master: MasterKey, secret: string, s0: State,
                                         tr: seq<State>, ms: seq<Move>, k: nat)
    requires Created(ps) && Sound(ps, master, secret, s0) && Run(ps, s0, tr, ms) && k <= |ms|
    requires LinksLast(s0) || forall k :: 0 <= k < |ms| ==> ms[k].Do?
    ensures Sound(ps, master, secret, tr[k]) && (LinksLast(s0) ==> LinksLast(tr[k]))
  {
    hide Linked, GenuineShares, Waiting, Delivered, Created, LinksLast, After, Permitted;
    if k > 0 {
      RunStaysSound(ps, master, secret, s0, tr, ms, k - 1);
      assert tr[k - 1 + 1] == After(ps, tr[k - 1], ms[k - 1]);
      MoveKeepsSound(ps, master, secret, tr[k - 1], ms[k - 1]);
    }
  }

  lemma MoveKeepsSound(ps: seq<BackupPolicy>, master: MasterKey, secret: string, s: State, m: Move)
    requires Created(ps) && Sound(ps, master, secret, s) && Permitted(ps, s, m) && (LinksLast(s) || m.Do?)
    ensures Sound(ps, master, secret, After(ps, s, m))
    ensures LinksLast(s) ==> LinksLast(After(ps, s, m))
  {
    hide Next, Save, Restore, Linked, GenuineShares, Waiting, Delivered;
    match m {
      case Do(e) =>
        StepDelivers(ps, master, secret, s, e);
        if LinksLast(s) {
          NextFrame(s, e);
          SameLinksLast(s, Next(s, e));
        }
      case Resume =>
        if s.live {
          ResumeKeepsSound(ps, master, secret, s);
        }
    }
  }

  lemma SameLinksLast(s: State, t: State)
    requires LinksLast(s) && t.dps == s.dps && |t.cs| == |s.cs|
    requires forall c :: 0 <= c < |s.cs| ==> t.cs[c].uuid == s.cs[c].uuid
    ensures LinksLast(t)
  {
    forall i, j | 0 <= i < |t.dps| && 0 <= j < |t.dps[i].challenges| ensures LinkIsLast(t.cs, t.dps[i].challenges[j]) {
      assert LinkIsLast(s.cs, s.dps[i].challenges[j]);
    }
  }

  /** A suspended recovery resumes where it was, links and shares included. */
  lemma ResumeKeepsSound(ps: seq<BackupPolicy>, master: MasterKey, secret: string, s: State)
    requires Sound(ps, master, secret, s) && s.live && LinksLast(s)
    ensures Sound(ps, master, secret, Restore(Save(s))) && LinksLast(Restore(Save(s)))
  {
    hide Save, Restore, Quiet, LinksLast, Inv;
    var q, t := Quiet(s), Restore(Save(s));
    ResumeRestores(s);
    QuietInv(s);
    AlikeComplete(q, t);
    SameLinksLast(s, t);
    assert t.dps == s.dps && t.cs == q.cs;
    forall k | 0 <= k < |ps| ensures LinkedTo(ps[k].truths, t.dps[k].challenges, t.cs) {
      assert LinkedTo(ps[k].truths, s.dps[k].challenges, s.cs);
    }
  }

  lemma StepDelivers(ps: seq<BackupPolicy>, master: MasterKey, secret: string, s: State, e: Event)
    requires Created(ps) && Sound(ps, master, secret, s) && Allowed(ps, s, e)
    ensures Sound(ps, master, secret, Next(s, e))
  {
    var t := Next(s, e);
    NextKeepsInv(s, e);
    NextKeepsLinks(ps, master, secret, s, e);
    NextWaitsOrDelivers(s, e);
    if s.live && !Waiting(t) {
      CompletePolicyOpens(ps, master, secret, t, FirstComplete(t.solved, t.dps));
    }
  }

  lemma RunInvariant(ps: seq<BackupPolicy>, master: MasterKey, secret: string, name: Option<string>,
                     info: Info, version: nat, tr: seq<State>, ms: seq<Move>, k: nat)
    requires Created(ps) && Resumable(ps, ms) && k <= |ms|
    requires Run(ps, LoadedState(info, version, DocumentOf(name, ps, master, secret)), tr, ms)
    ensures Sound(ps, master, secret, tr[k])
  {
    var doc := DocumentOf(name, ps, master, secret);
    DocumentLoads(ps, name, master, secret, info, version);
    LoadedInv(info, version, doc);
    LoadedLinksLastIff(info, version, name, ps, master, secret);
    RunStaysSound(ps, master, secret, LoadedState(info, version, doc), tr, ms, k);
  }

  /**
   * For any policies over truths, any order of replies and any number of suspensions: the secret
   * callback fires at most once; it fires exactly when some policy has all its challenges solved; and
   * it delivers the secret that was shared.
   */
  lemma RecoversSharedSecret(ps: seq<BackupPolicy>, master: MasterKey, secret: string, name: Option<string>,
                             info: Info, version: nat, tr: seq<State>, ms: seq<Move>, k: nat)
    requires Created(ps) && Resumable(ps, ms) && k <= |ms|
    requires Run(ps, LoadedState(info, version, DocumentOf(name, ps, master, secret)), tr, ms)
    ensures Linked(ps, master, secret, tr[k])
    ensures tr[k].outcomes ==
            if tr[k].solved != [] && exists i :: 0 <= i < |ps| && Complete(tr[k].solved, tr[k].dps[i])
            then [CoreSecret(Some(secret))] else []
    ensures tr[k].live <==> tr[k].outcomes == []
  {
    RunInvariant(ps, master, secret, name, info, version, tr, ms, k);
  }

  /** The solved challenges are those with a successful reply, before or after any suspension. */
  lemma {:induction false} SolvedAreAnswered(ps: seq<BackupPolicy>, s0: State, tr: seq<State>, ms: seq<Move>, k: nat,
                                             c: nat)
    requires Inv(s0) && Run(ps, s0, tr, ms) && s0.solved == [] && k <= |ms|
    ensures Inv(tr[k])
    ensures c in tr[k].solved <==> SolvedWithin(tr, ms, k, c)
  {
    if k > 0 {
      SolvedAreAnswered(ps, s0, tr, ms, k - 1, c);
      assert tr[k - 1 + 1] == After(ps, tr[k - 1], ms[k - 1]);
      SolvedStep(ps, tr[k - 1], ms[k - 1], c);
      if SolvedWithin(tr, ms, k - 1, c) {
        var m :| 0 <= m < k - 1 && tr[m].live && Solves(ms[m], c);
        assert SolvedWithin(tr, ms, k, c);
      }
      if tr[k - 1].live && Solves(ms[k - 1], c) {
        assert SolvedWithin(tr, ms, k, c);
      }
    }
  }

  lemma SolvedStep(ps: seq<BackupPolicy>, s: State, m: Move, c: nat)
    requires Inv(s) && Permitted(ps, s, m)
    ensures Inv(After(ps, s, m))
    ensures c in After(ps, s, m).solved <==> c in s.solved || (s.live && Solves(m, c))
  {
    match m {
      case Do(e) => NextKeepsInv(s, e);
      case Resume => ChallengesRestored(s);
    }
  }
}
