/**
 * Recovering the core secret: challenges are solved in any order, and the first policy whose
 * challenges are all solved yields the secret.
 */
module Recovery {
  import opened Wrappers
  import opened Sequences
  import opened Subsets
  import opened Crypto
  import opened Backup

  datatype Challenge = Challenge(uuid: Uuid, truthKey: nat, salt: nat, providerSalt: nat, url: string, kind: string,
                                 instructions: string, keyShare: KeyShare, answer: Option<string>,
                                 solved: bool, async: bool, inFlight: bool)

  /** Challenges of a policy are positions in the array of challenges. */
  datatype DecryptionPolicy = DecryptionPolicy(emk: SealedMaster, salt: nat, challenges: seq<nat>)

  datatype RecoveryStatus = PolicyUnknown | PolicyGone | PolicyServerError | PolicyDownloadFailed
    | PolicyDownloadNoPolicy
    | PolicyMalformedJson

  /** Arguments of the core secret callback. */
  datatype Outcome = CoreSecret(secret: Option<string>) | Failure(status: RecoveryStatus)

  /** Fixed data of one recovery. */
  datatype Info = Info(id: UserId, idData: string, providerUrl: string, version: nat, secretName: Option<string>,
                       encCoreSecret: SealedSecret)

  datatype State = State(info: Info, cs: seq<Challenge>, dps: seq<DecryptionPolicy>, solved: seq<nat>,
                         outcomes: seq<Outcome>, live: bool)

  const ZERO_SHARE: KeyShare := KeyShare(0)

  // ----- linking policies to challenges by UUID

  function FirstMatch(cs: seq<Challenge>, u: Uuid): (i: nat)
    ensures i <= |cs|
    ensures i < |cs| ==> cs[i].uuid == u
    ensures forall k :: 0 <= k < i ==> cs[k].uuid != u
  {
    if cs == [] || cs[0].uuid == u then 0 else 1 + FirstMatch(cs[1..], u)
  }

  function LastMatch(cs: seq<Challenge>, u: Uuid): (i: nat)
    ensures i <= |cs|
    ensures i < |cs| ==> cs[i].uuid == u && forall k :: i < k < |cs| ==> cs[k].uuid != u
    ensures i == |cs| ==> forall k :: 0 <= k < |cs| ==> cs[k].uuid != u
  {
    if cs == [] then 0
    else if cs[|cs| - 1].uuid == u then |cs| - 1
    else
      var i := LastMatch(cs[..|cs| - 1], u);
      assert forall k :: 0 <= k < |cs| - 1 ==> cs[k] == cs[..|cs| - 1][k];
      if i == |cs| - 1 then |cs| else i
  }

  ghost predicate DistinctUuids(cs: seq<Challenge>) {
    forall i, j :: 0 <= i < j < |cs| ==> cs[i].uuid != cs[j].uuid
  }

  // ----- from the downloaded document

  function LoadedChallenge(e: Escrow): Challenge {
    Challenge(e.uuid, e.truthKey, e.truthSalt, e.providerSalt, e.url, e.kind, e.instructions, ZERO_SHARE, None,
      false, false, false)
  }

  function LoadedChallenges(es: seq<Escrow>): (cs: seq<Challenge>)
    ensures |cs| == |es| && forall i :: 0 <= i < |es| ==> cs[i] == LoadedChallenge(es[i])
  {
    seq(|es|, i requires 0 <= i < |es| => LoadedChallenge(es[i]))
  }

  ghost predicate Linkable(cs: seq<Challenge>, us: seq<Uuid>) {
    forall i :: 0 <= i < |us| ==> FirstMatch(cs, us[i]) < |cs|
  }

  function Links(cs: seq<Challenge>, us: seq<Uuid>): (r: seq<nat>)
    ensures |r| == |us| && forall i :: 0 <= i < |us| ==> r[i] == FirstMatch(cs, us[i])
  {
    seq(|us|, i requires 0 <= i < |us| => FirstMatch(cs, us[i]))
  }

  function LoadedPolicies(cs: seq<Challenge>, ps: seq<DecPolicy>): (r: seq<DecryptionPolicy>)
    ensures |r| == |ps|
    ensures forall i :: 0 <= i < |ps| ==> r[i] == DecryptionPolicy(ps[i].masterKey, ps[i].salt, Links(cs, ps[i].uuids))
  {
    seq(|ps|, i requires 0 <= i < |ps| => DecryptionPolicy(ps[i].masterKey, ps[i].salt, Links(cs, ps[i].uuids)))
  }

  ghost predicate AllLinkable(doc: Document) {
    forall i :: 0 <= i < |doc.policies| ==> Linkable(LoadedChallenges(doc.escrowMethods), doc.policies[i].uuids)
  }

  function LoadedState(info: Info, version: nat, doc: Document): State {
    var cs := LoadedChallenges(doc.escrowMethods);
    State(info.(version := version, secretName := if doc.secretName.Some? then doc.secretName else info.secretName,
                encCoreSecret := doc.encryptedCoreSecret),
          cs, LoadedPolicies(cs, doc.policies), [], [], true)
  }

  /** Reply to the download of the recovery document; a document arrives opened and parsed. */
  datatype LookupReply = LookupOk(version: nat, doc: Option<Document>) | NotFound | NoContent | InternalServerError
    | OtherStatus

  function LookupFailure(reply: LookupReply): RecoveryStatus
    requires reply.LookupOk? ==> reply.doc.None?
  {
    match reply
    case NotFound => PolicyUnknown
    case NoContent => PolicyGone
    case InternalServerError => PolicyServerError
    case OtherStatus => PolicyDownloadFailed
    case LookupOk(_, _) => PolicyDownloadNoPolicy
  }

  // ----- key shares

  /** Reply of a provider asked for a key share. */
  datatype ShareReply = ShareSuccess(eks: SealedShare) | PaymentRequired | InvalidAnswer | Redirect | TruthUnknown
    | RateLimitExceeded | ServerFailure | ClientFailure | AuthTimeout | ExternalInstructions

  datatype ChallengeStatus = StatusSolved | StatusPaymentRequired | StatusInstructions | StatusRedirect
    | StatusTruthUnknown
    | StatusRateLimitExceeded | StatusServerFailure | StatusAuthTimeout | StatusExternalInstructions

  function Feedback(dd: ShareReply): ChallengeStatus {
    match dd
    case ShareSuccess(_) => StatusSolved
    case PaymentRequired => StatusPaymentRequired
    case InvalidAnswer => StatusInstructions
    case Redirect => StatusRedirect
    case TruthUnknown => StatusTruthUnknown
    case RateLimitExceeded => StatusRateLimitExceeded
    case ServerFailure => StatusServerFailure
    case ClientFailure => StatusServerFailure
    case AuthTimeout => StatusAuthTimeout
    case ExternalInstructions => StatusExternalInstructions
  }

  ghost predicate Complete(solved: seq<nat>, p: DecryptionPolicy) {
    forall j :: 0 <= j < |p.challenges| ==> p.challenges[j] in solved
  }

  /** The first complete policy, or the number of policies. */
  ghost function FirstComplete(solved: seq<nat>, dps: seq<DecryptionPolicy>): (i: nat)
    ensures i <= |dps|
    ensures i < |dps| ==> Complete(solved, dps[i])
    ensures forall k :: 0 <= k < i ==> !Complete(solved, dps[k])
  {
    if dps == [] || Complete(solved, dps[0]) then 0 else 1 + FirstComplete(solved, dps[1..])
  }

  ghost predicate LinksValid(n: nat, p: DecryptionPolicy) {
    forall j :: 0 <= j < |p.challenges| ==> p.challenges[j] < n
  }

  ghost function SharesFor(cs: seq<Challenge>, p: DecryptionPolicy): (r: seq<KeyShare>)
    requires LinksValid(|cs|, p)
    ensures |r| == |p.challenges| && forall j :: 0 <= j < |r| ==> r[j] == cs[p.challenges[j]].keyShare
  {
    seq(|p.challenges|, j requires 0 <= j < |p.challenges| => cs[p.challenges[j]].keyShare)
  }

  ghost function SecretBy(s: State, p: DecryptionPolicy): Option<string>
    requires LinksValid(|s.cs|, p)
  {
    RecoverSecret(p.emk, PolicyKey(SharesFor(s.cs, p), p.salt), s.info.encCoreSecret)
  }

  // ----- the state machine

  ghost predicate Inv(s: State) {
    && (forall i :: 0 <= i < |s.dps| ==> LinksValid(|s.cs|, s.dps[i]))
    && NoDuplicates(s.solved)
    && (forall k :: 0 <= k < |s.solved| ==> s.solved[k] < |s.cs|)
    && (forall c :: 0 <= c < |s.cs| ==> (s.cs[c].solved <==> c in s.solved))
    && (forall c :: 0 <= c < |s.cs| && !s.cs[c].solved ==> s.cs[c].keyShare == ZERO_SHARE)
    && (forall c :: 0 <= c < |s.cs| && s.cs[c].inFlight ==> !s.cs[c].solved)
  }

  /** A running recovery has not delivered anything; once a challenge is solved no policy is complete. */
  ghost predicate Waiting(s: State) {
    s.live && s.outcomes == [] && (s.solved == [] || FirstComplete(s.solved, s.dps) == |s.dps|)
  }

  ghost function Solve(s: State, c: nat, share: KeyShare): State
    requires c < |s.cs|
  {
    s.(cs := s.cs[c := s.cs[c].(inFlight := false, solved := true, keyShare := share)], solved := s.solved + [c])
  }

  ghost function Finish(s: State): State
    requires forall i :: 0 <= i < |s.dps| ==> LinksValid(|s.cs|, s.dps[i])
  {
    var i := FirstComplete(s.solved, s.dps);
    if i == |s.dps| then s else s.(outcomes := s.outcomes + [CoreSecret(SecretBy(s, s.dps[i]))], live := false)
  }

  ghost predicate Openable(s: State, c: nat, dd: ShareReply) {
    c < |s.cs| && (dd.ShareSuccess? ==> Opens(dd.eks, UserId(s.info.idData, s.cs[c].providerSalt), s.cs[c].answer))
  }

  ghost function Reply(s: State, c: nat, dd: ShareReply): State
    requires Inv(s) && Openable(s, c, dd)
  {
    match dd
    case ShareSuccess(eks) => Finish(Solve(s, c, eks.share))
    case AuthTimeout => s.(cs := s.cs[c := s.cs[c].(inFlight := false, async := true)])
    case _ => s.(cs := s.cs[c := s.cs[c].(inFlight := false)])
  }

  ghost function Start(s: State, c: nat): State
    requires c < |s.cs|
  {
    if s.cs[c].solved || s.cs[c].inFlight then s else s.(cs := s.cs[c := s.cs[c].(inFlight := true)])
  }

  ghost function Answer(s: State, c: nat, a: string): State
    requires c < |s.cs|
  {
    Start(s.(cs := s.cs[c := s.cs[c].(answer := Some(a))]), c)
  }

  ghost function Abort(s: State, c: nat): State
    requires c < |s.cs|
  {
    s.(cs := s.cs[c := s.cs[c].(inFlight := false)])
  }

  datatype Event = StartEv(c: nat) | AnswerEv(c: nat, a: string) | AbortEv(c: nat) | ReplyEv(c: nat, dd: ShareReply)

  /** Replies come for lookups in flight only, and open with the answer given. */
  ghost predicate Enabled(s: State, e: Event) {
    && e.c < |s.cs|
    && (e.ReplyEv? ==> s.cs[e.c].inFlight && Openable(s, e.c, e.dd))
  }

  /** Once the secret was delivered the operation is gone and nothing happens any more. */
  ghost function Next(s: State, e: Event): State
    requires Inv(s) && (s.live ==> Enabled(s, e))
  {
    if !s.live then s
    else match e
      case StartEv(c) => Start(s, c)
      case AnswerEv(c, a) => Answer(s, c, a)
      case AbortEv(c) => Abort(s, c)
      case ReplyEv(c, dd) => Reply(s, c, dd)
  }

  lemma SolveKeepsInv(s: State, c: nat, share: KeyShare)
    requires Inv(s) && c < |s.cs| && !s.cs[c].solved
    ensures Inv(Solve(s, c, share))
  {
    var t := Solve(s, c, share);
    forall d | 0 <= d < |t.cs| ensures t.cs[d].solved <==> d in t.solved {
      assert s.cs[d].solved <==> d in s.solved;
    }
  }

  /** The number of solved challenges never exceeds the number of challenges. */
  lemma SolvedFits(s: State)
    requires Inv(s)
    ensures |s.solved| <= |s.cs|
    ensures (exists c :: 0 <= c < |s.cs| && !s.cs[c].solved) ==> |s.solved| < |s.cs|
  {
    ElementsCount(s.solved);
    BelowCount(Elements(s.solved), |s.cs|);
    if c :| 0 <= c < |s.cs| && !s.cs[c].solved {
      var e := Elements(s.solved);
      assert c !in e;
      assert |e + {c}| == |e| + 1;
      BelowCount(e + {c}, |s.cs|);
    }
  }

  /** Every step of the machine keeps the invariant. */
  lemma NextKeepsInv(s: State, e: Event)
    requires Inv(s) && (s.live ==> Enabled(s, e))
    ensures Inv(Next(s, e))
  {
    if s.live && e.ReplyEv? && e.dd.ShareSuccess? {
      SolveKeepsInv(s, e.c, e.dd.eks.share);
    }
  }

  /**
   * The callback fires at the first step after which a challenge is solved and some policy is
   * complete, with the secret of the first such policy, and never again.
   */
  lemma NextWaitsOrDelivers(s: State, e: Event)
    requires Inv(s) && (Waiting(s) || (!s.live && |s.outcomes| == 1)) && (s.live ==> Enabled(s, e))
    ensures var t := Next(s, e);
            if !s.live then t == s
            else if t.solved == [] || FirstComplete(t.solved, t.dps) == |t.dps| then Waiting(t)
            else !t.live && LinksValid(|t.cs|, t.dps[FirstComplete(t.solved, t.dps)])
                 && t.outcomes == [CoreSecret(SecretBy(t, t.dps[FirstComplete(t.solved, t.dps)]))]
  {
    NextKeepsInv(s, e);
    if s.live && e.ReplyEv? && e.dd.ShareSuccess? {
      var t := Solve(s, e.c, e.dd.eks.share);
      assert t.solved != [];
      var i := FirstComplete(t.solved, t.dps);
      if i < |t.dps| {
        assert SecretBy(Finish(t), t.dps[i]) == SecretBy(t, t.dps[i]);
      }
    }
  }

  // ----- what each event does to the challenges

  /** Nothing but the named challenge differs, and the operation goes on. */
  ghost predicate OnlyChallenge(s: State, t: State, c: nat) {
    && t.info == s.info && t.dps == s.dps && t.solved == s.solved && t.outcomes == s.outcomes && t.live == s.live
    && |t.cs| == |s.cs| && forall d :: 0 <= d < |s.cs| && d != c ==> t.cs[d] == s.cs[d]
  }

  ghost predicate Idle(s: State, c: nat) {
    c < |s.cs| && !s.cs[c].inFlight && !s.cs[c].solved
  }

  /** A lookup starts for an idle challenge only. */
  lemma StartLooksUp(s: State, c: nat)
    requires Inv(s) && s.live && c < |s.cs|
    ensures OnlyChallenge(s, Next(s, StartEv(c)), c)
    ensures Next(s, StartEv(c)).cs[c] == if Idle(s, c) then s.cs[c].(inFlight := true) else s.cs[c]
  {
  }

  /** The answer is remembered in any case, and a lookup starts if the challenge is idle. */
  lemma AnswerLooksUp(s: State, c: nat, a: string)
    requires Inv(s) && s.live && c < |s.cs|
    ensures OnlyChallenge(s, Next(s, AnswerEv(c, a)), c)
    ensures Next(s, AnswerEv(c, a)).cs[c] == s.cs[c].(answer := Some(a), inFlight := s.cs[c].inFlight || Idle(s, c))
  {
  }

  /** An aborted challenge is not looked up any more. */
  lemma AbortFrees(s: State, c: nat)
    requires Inv(s) && s.live && c < |s.cs|
    ensures OnlyChallenge(s, Next(s, AbortEv(c)), c)
    ensures Next(s, AbortEv(c)).cs[c] == s.cs[c].(inFlight := false)
  {
  }

  /**
   * A reply without a share leaves the challenge idle, so that it can be tried again; all it may change
   * besides is to mark the challenge as answered out of band after a time-out.
   */
  lemma FailedReplyFrees(s: State, c: nat, dd: ShareReply)
    requires Inv(s) && s.live && Enabled(s, ReplyEv(c, dd)) && !dd.ShareSuccess?
    ensures var t := Next(s, ReplyEv(c, dd));
            && OnlyChallenge(s, t, c) && Idle(t, c)
            && t.cs[c] == s.cs[c].(inFlight := false, async := s.cs[c].async || dd.AuthTimeout?)
            && Inv(t) && Next(t, StartEv(c)).cs[c].inFlight
            && forall a :: Next(t, AnswerEv(c, a)).cs[c].inFlight && Next(t, AnswerEv(c, a)).cs[c].answer == Some(a)
  {
    NextKeepsInv(s, ReplyEv(c, dd));
    var t := Next(s, ReplyEv(c, dd));
    StartLooksUp(t, c);
    forall a ensures Next(t, AnswerEv(c, a)).cs[c].inFlight && Next(t, AnswerEv(c, a)).cs[c].answer == Some(a) {
      AnswerLooksUp(t, c, a);
    }
  }

  /** A released share is recorded with its challenge, which is solved for good. */
  lemma ShareReplySolves(s: State, c: nat, eks: SealedShare)
    requires Inv(s) && s.live && Enabled(s, ReplyEv(c, ShareSuccess(eks)))
    ensures var t := Next(s, ReplyEv(c, ShareSuccess(eks)));
            && t.cs == s.cs[c := s.cs[c].(inFlight := false, solved := true, keyShare := eks.share)]
            && t.solved == s.solved + [c] && t.info == s.info && t.dps == s.dps
  {
  }

  /** The caller is told that a challenge is solved exactly by a released share. */
  lemma FeedbackTells(a: ShareReply)
    ensures Feedback(a) == StatusSolved <==> a.ShareSuccess?
    ensures Feedback(a) == StatusAuthTimeout <==> a.AuthTimeout?
    ensures Feedback(a) == StatusServerFailure <==> a.ServerFailure? || a.ClientFailure?
    ensures Feedback(a) == StatusInstructions <==> a.InvalidAnswer?
    ensures Feedback(a) == StatusPaymentRequired <==> a.PaymentRequired?
    ensures Feedback(a) == StatusRedirect <==> a.Redirect?
    ensures Feedback(a) == StatusTruthUnknown <==> a.TruthUnknown?
    ensures Feedback(a) == StatusRateLimitExceeded <==> a.RateLimitExceeded?
    ensures Feedback(a) == StatusExternalInstructions <==> a.ExternalInstructions?
  {
  }

  /** Why no document was loaded. */
  lemma LookupFailureTells(reply: LookupReply)
    requires reply.LookupOk? ==> reply.doc.None?
    ensures LookupFailure(reply) == PolicyUnknown <==> reply.NotFound?
    ensures LookupFailure(reply) == PolicyGone <==> reply.NoContent?
    ensures LookupFailure(reply) == PolicyServerError <==> reply.InternalServerError?
    ensures LookupFailure(reply) == PolicyDownloadFailed <==> reply.OtherStatus?
    ensures LookupFailure(reply) == PolicyDownloadNoPolicy <==> reply.LookupOk?
  {
  }

  // ----- the operation

  class Operation {
    var info: Info
    var cs: seq<Challenge>
    var dps: seq<DecryptionPolicy>
    /** Filled up to solvedPos. */
    var solvedChallenges: array<nat>
    var solvedPos: nat
    var outcomes: seq<Outcome>
    var live: bool
    /** Number of times the policy callback was called. */
    var policyCalls: nat

    constructor (info: Info)
      ensures Loading() && this.info == info && policyCalls == 0
      ensures fresh(solvedChallenges)
    {
      this.info := info;
      cs, dps, outcomes, live, policyCalls := [], [], [], true, 0;
      solvedChallenges := new nat[0];
      solvedPos := 0;
    }

    /** Before the document arrived. */
    ghost predicate Loading()
      reads this
    {
      live && outcomes == [] && cs == [] && dps == [] && solvedPos == 0
    }

    ghost predicate Valid()
      reads this, solvedChallenges
    {
      && solvedPos <= solvedChallenges.Length == |cs|
      && Inv(AsState())
    }

    ghost function AsState(): State
      reads this, solvedChallenges
      requires solvedPos <= solvedChallenges.Length
    {
      State(info, cs, dps, solvedChallenges[..solvedPos], outcomes, live)
    }

    method Fail(status: RecoveryStatus)
      modifies this
      ensures outcomes == old(outcomes) + [Failure(status)] && !live
      ensures policyCalls == old(policyCalls) && info == old(info)
    {
      outcomes := outcomes + [Failure(status)];
      live := false;
    }

    method PolicyLookupCb(reply: LookupReply)
      requires Loading()
      modifies this
      ensures reply.LookupOk? && reply.doc.Some? && AllLinkable(reply.doc.value) ==>
                && Valid() && AsState() == LoadedState(old(info), reply.version, reply.doc.value)
                && policyCalls == old(policyCalls) + 1
      ensures reply.LookupOk? && reply.doc.Some? && !AllLinkable(reply.doc.value) ==>
                outcomes == [Failure(PolicyMalformedJson)] && !live && policyCalls == old(policyCalls)
      ensures !(reply.LookupOk? && reply.doc.Some?) ==>
                outcomes == [Failure(LookupFailure(reply))] && !live && policyCalls == old(policyCalls)
    {
      match reply {
        case NotFound => Fail(PolicyUnknown);
        case NoContent => Fail(PolicyGone);
        case InternalServerError => Fail(PolicyServerError);
        case OtherStatus => Fail(PolicyDownloadFailed);
        case LookupOk(_, None) => Fail(PolicyDownloadNoPolicy);
        case LookupOk(version, Some(doc)) => LoadDocument(version, doc);
      }
    }

    method LoadDocument(version: nat, doc: Document)
      requires Loading()
      modifies this
      ensures AllLinkable(doc) ==>
                Valid() && AsState() == LoadedState(old(info), version, doc) && policyCalls == old(policyCalls) + 1
      ensures !AllLinkable(doc) ==>
                outcomes == [Failure(PolicyMalformedJson)] && !live && policyCalls == old(policyCalls)
    {
      if doc.secretName.Some? {
        info := info.(secretName := doc.secretName);
      }
      info := info.(encCoreSecret := doc.encryptedCoreSecret);
      info := info.(version := version);
      solvedChallenges := new nat[|doc.escrowMethods|];
      ghost var goal := LoadedChallenges(doc.escrowMethods);
      for i := 0 to |doc.escrowMethods|
        invariant cs == goal[..i] && dps == [] && outcomes == [] && live && solvedPos == 0
        invariant policyCalls == old(policyCalls)
        invariant info == LoadedState(old(info), version, doc).info
        invariant solvedChallenges.Length == |doc.escrowMethods|
      {
        cs := cs + [LoadedChallenge(doc.escrowMethods[i])];
      }
      assert cs == goal;
      for j := 0 to |doc.policies|
        invariant cs == goal && outcomes == [] && live && solvedPos == 0
        invariant policyCalls == old(policyCalls)
        invariant info == LoadedState(old(info), version, doc).info
        invariant solvedChallenges.Length == |doc.escrowMethods|
        invariant forall k :: 0 <= k < j ==> Linkable(goal, doc.policies[k].uuids)
        invariant dps == LoadedPolicies(goal, doc.policies)[..j]
      {
        var p := doc.policies[j];
        var challenges := LinkFirst(p.uuids);
        if challenges.None? {
          assert !Linkable(goal, doc.policies[j].uuids);
          Fail(PolicyMalformedJson);
          return;
        }
        dps := dps + [DecryptionPolicy(p.masterKey, p.salt, challenges.value)];
      }
      assert dps == LoadedPolicies(goal, doc.policies);
      assert AsState() == LoadedState(old(info), version, doc);
      LoadedInv(old(info), version, doc);
      policyCalls := policyCalls + 1;
    }

    /** Looks each UUID up in the challenges, first match first. */
    method LinkFirst(uuids: seq<Uuid>) returns (r: Option<seq<nat>>)
      ensures r == if Linkable(cs, uuids) then Some(Links(cs, uuids)) else None
    {
      var challenges := [];
      for n := 0 to |uuids|
        invariant challenges == Links(cs, uuids)[..n]
        invariant forall k :: 0 <= k < n ==> FirstMatch(cs, uuids[k]) < |cs|
      {
        var found := false;
        for i := 0 to |cs|
          invariant !found && forall k :: 0 <= k < i ==> cs[k].uuid != uuids[n]
        {
          if uuids[n] != cs[i].uuid {
            continue;
          }
          found := true;
          assert i == FirstMatch(cs, uuids[n]);
          challenges := challenges + [i];
          break;
        }
        if !found {
          assert FirstMatch(cs, uuids[n]) == |cs|;
          return None;
        }
      }
      assert challenges == Links(cs, uuids);
      return Some(challenges);
    }

    /** Returns whether a lookup was started. */
    method ChallengeStart(c: nat) returns (started: bool)
      requires Valid() && c < |cs|
      modifies this
      ensures Valid() && solvedChallenges == old(solvedChallenges) && policyCalls == old(policyCalls)
      ensures AsState() == Start(old(AsState()), c)
      ensures started <==> !old(cs[c]).solved && !old(cs[c]).inFlight
    {
      if cs[c].solved || cs[c].inFlight {
        return false;
      }
      cs := cs[c := cs[c].(inFlight := true)];
      return true;
    }

    /** Remembers the answer first, also when the lookup is then refused. */
    method ChallengeAnswer(c: nat, answer: string) returns (started: bool)
      requires Valid() && c < |cs|
      modifies this
      ensures Valid() && solvedChallenges == old(solvedChallenges) && policyCalls == old(policyCalls)
      ensures AsState() == Answer(old(AsState()), c, answer)
    {
      cs := cs[c := cs[c].(answer := Some(answer))];
      started := ChallengeStart(c);
    }

    method ChallengeAbort(c: nat)
      requires Valid() && c < |cs|
      modifies this
      ensures Valid() && solvedChallenges == old(solvedChallenges) && policyCalls == old(policyCalls)
      ensures AsState() == Abort(old(AsState()), c)
    {
      if !cs[c].inFlight {
        assert cs == cs[c := cs[c].(inFlight := false)];
        return;
      }
      cs := cs[c := cs[c].(inFlight := false)];
    }

    /** Whether challenge c is among the solved ones. */
    method IsSolved(c: nat) returns (found: bool)
      requires solvedPos <= solvedChallenges.Length
      ensures found <==> c in solvedChallenges[..solvedPos]
    {
      for k := 0 to solvedPos
        invariant c !in solvedChallenges[..k]
      {
        if c == solvedChallenges[k] {
          assert solvedChallenges[..solvedPos][k] == c;
          return true;
        }
      }
      return false;
    }

    /** The search for a policy whose challenges are all solved. */
    method FindComplete() returns (r: nat)
      requires solvedPos <= solvedChallenges.Length
      ensures r == FirstComplete(solvedChallenges[..solvedPos], dps)
    {
      ghost var solved := solvedChallenges[..solvedPos];
      for i := 0 to |dps|
        invariant forall k :: 0 <= k < i ==> !Complete(solved, dps[k])
      {
        var missing := false;
        var challenges := dps[i].challenges;
        for j := 0 to |challenges|
          invariant !missing && forall k :: 0 <= k < j ==> challenges[k] in solved
        {
          var found := IsSolved(challenges[j]);
          if !found {
            missing := true;
            break;
          }
        }
        if !missing {
          FirstCompleteIs(solved, dps, i);
          return i;
        }
      }
      FirstCompleteIs(solved, dps, |dps|);
      return |dps|;
    }

    /** Collects the key shares of a complete policy in the order of its challenges. */
    method CollectShares(p: DecryptionPolicy) returns (shares: array<KeyShare>)
      requires Valid() && LinksValid(|cs|, p) && Complete(solvedChallenges[..solvedPos], p)
      ensures fresh(shares) && shares[..] == SharesFor(cs, p)
    {
      ghost var solved := solvedChallenges[..solvedPos];
      shares := new KeyShare[|p.challenges|];
      for l := 0 to |p.challenges|
        invariant forall k :: 0 <= k < l ==> shares[k] == cs[p.challenges[k]].keyShare
      {
        for m := 0 to solvedPos
          invariant forall k :: 0 <= k < l ==> shares[k] == cs[p.challenges[k]].keyShare
          invariant p.challenges[l] in solved[..m] ==> shares[l] == cs[p.challenges[l]].keyShare
        {
          assert solved[..m + 1] == solved[..m] + [solved[m]];
          if p.challenges[l] == solvedChallenges[m] {
            shares[l] := cs[solvedChallenges[m]].keyShare;
          }
        }
        assert solved[..solvedPos] == solved;
      }
    }

    method KeyshareLookupCb(c: nat, dd: ShareReply) returns (feedback: ChallengeStatus)
      requires Valid() && live && c < |cs| && cs[c].inFlight && Openable(AsState(), c, dd)
      modifies this, solvedChallenges
      ensures Valid() && solvedChallenges == old(solvedChallenges)
      ensures AsState() == Reply(old(AsState()), c, dd)
      ensures feedback == Feedback(dd)
    {
      ghost var s := AsState();
      if !dd.ShareSuccess? {
        cs := cs[c := cs[c].(inFlight := false)];
        if dd.AuthTimeout? {
          cs := cs[c := cs[c].(async := true)];
        }
        return Feedback(dd);
      }
      SolvedFits(s);
      SolveKeepsInv(s, c, dd.eks.share);
      RecordShare(c, OpenShare(dd.eks, UserId(info.idData, cs[c].providerSalt), cs[c].answer));
      feedback := StatusSolved;
      var r := FindComplete();
      if r == |dps| {
        return;
      }
      var rdps := dps[r];
      var keyShares := CollectShares(rdps);
      var policyKey := PolicyKey(keyShares[..], rdps.salt);
      var coreSecret := RecoverSecret(rdps.emk, policyKey, info.encCoreSecret);
      outcomes := outcomes + [CoreSecret(coreSecret)];
      live := false;
    }

    method RecordShare(c: nat, share: KeyShare)
      requires Valid() && c < |cs| && solvedPos < solvedChallenges.Length
      requires Inv(Solve(AsState(), c, share))
      modifies `cs, `solvedPos, solvedChallenges
      ensures Valid() && AsState() == Solve(old(AsState()), c, share)
    {
      ghost var solved := solvedChallenges[..solvedPos];
      cs := cs[c := cs[c].(inFlight := false, keyShare := share)];
      solvedChallenges[solvedPos] := c;
      solvedPos := solvedPos + 1;
      assert solvedChallenges[..solvedPos] == solved + [c];
      cs := cs[c := cs[c].(solved := true)];
    }
  }

  lemma {:induction false} FirstCompleteIs(solved: seq<nat>, dps: seq<DecryptionPolicy>, i: nat)
    requires i <= |dps| && (i < |dps| ==> Complete(solved, dps[i]))
    requires forall k :: 0 <= k < i ==> !Complete(solved, dps[k])
    ensures FirstComplete(solved, dps) == i
  {
    if i > 0 {
      FirstCompleteIs(solved, dps[1..], i - 1);
    }
  }

  /** A document whose policies name listed truths only gives a well-formed state. */
  lemma LoadedInv(info: Info, version: nat, doc: Document)
    requires AllLinkable(doc)
    ensures Inv(LoadedState(info, version, doc)) && Waiting(LoadedState(info, version, doc))
  {
  }
}
