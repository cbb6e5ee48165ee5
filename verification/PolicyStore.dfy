/** Storing the recovery document with all providers at once: replies come back in any order. */
module PolicyStore {
  import opened Wrappers
  import opened Sequences
  import opened Subsets

  datatype Status = UsSuccess | UsPaymentRequired | UsHttpError | UsClientError | UsServerError | UsConflictingTruth

  /** Decoded reply of a provider; fields that do not belong to the status are zero or empty. */
  datatype Details = Details(us: Status, httpStatus: nat, ec: nat, hash: nat, version: nat, expiration: nat,
                             request: string, secret: nat)

  datatype Provider = Provider(url: string, currHash: nat, pending: bool, paymentRequest: Option<string>,
                               paymentSecret: nat, version: nat, expiration: nat)

  datatype Stored = Stored(url: string, version: nat, expiration: nat)
  datatype Payment = Payment(url: string, request: string, secret: nat)

  datatype Result =
    | ShareSuccess(stored: seq<Stored>)
    | SharePayment(payments: seq<Payment>)
    | ProviderFailed(url: string, httpStatus: nat, ec: nat)

  // ----- specification

  /** A success whose hash is not that of the upload counts as a server error. */
  function Effective(p: Provider, ud: Details): Status {
    if ud.us == UsSuccess && p.currHash != ud.hash then UsServerError else ud.us
  }

  predicate Fails(p: Provider, ud: Details) {
    var us := Effective(p, ud);
    us.UsHttpError? || us.UsClientError? || us.UsServerError?
  }

  function Recorded(p: Provider, ud: Details): Provider {
    match Effective(p, ud)
    case UsSuccess => p.(pending := false, version := ud.version, expiration := ud.expiration)
    case UsPaymentRequired => p.(pending := false, paymentRequest := Some(ud.request), paymentSecret := ud.secret)
    case _ => p.(pending := false)
  }

  function PaymentsOf(ps: seq<Provider>): seq<Payment> {
    if ps == [] then []
    else
      var front, p := PaymentsOf(ps[..|ps| - 1]), ps[|ps| - 1];
      if p.paymentRequest.Some? then front + [Payment(p.url, p.paymentRequest.value, p.paymentSecret)] else front
  }

  function StoredOf(ps: seq<Provider>): seq<Stored> {
    if ps == [] then []
    else
      var front, p := StoredOf(ps[..|ps| - 1]), ps[|ps| - 1];
      if p.paymentRequest.None? then front + [Stored(p.url, p.version, p.expiration)] else front
  }

  lemma SummaryOfNone()
    ensures PaymentsOf([]) == [] && StoredOf([]) == []
  {
  }

  lemma SummarySnoc(ps: seq<Provider>, i: nat)
    requires i < |ps|
    ensures PaymentsOf(ps[..i + 1]) == PaymentsOf(ps[..i])
              + if ps[i].paymentRequest.Some?
                then [Payment(ps[i].url, ps[i].paymentRequest.value, ps[i].paymentSecret)] else []
    ensures StoredOf(ps[..i + 1]) == StoredOf(ps[..i])
              + if ps[i].paymentRequest.None? then [Stored(ps[i].url, ps[i].version, ps[i].expiration)] else []
  {
    assert ps[..i + 1][..i] == ps[..i];
  }

  function Summary(ps: seq<Provider>): Result {
    if PaymentsOf(ps) != [] then SharePayment(PaymentsOf(ps)) else ShareSuccess(StoredOf(ps))
  }

  datatype State = State(pss: seq<Provider>, results: seq<Result>, live: bool)

  function Step(s: State, i: nat, ud: Details): State
    requires i < |s.pss|
  {
    if Fails(s.pss[i], ud) then
      s.(pss := s.pss[i := s.pss[i].(pending := false)],
         results := s.results + [ProviderFailed(s.pss[i].url, ud.httpStatus, ud.ec)], live := false)
    else
      var pss := s.pss[i := Recorded(s.pss[i], ud)];
      if exists k :: 0 <= k < |pss| && pss[k].pending then s.(pss := pss)
      else s.(pss := pss, results := s.results + [Summary(pss)], live := false)
  }

  // ----- the operation

  class SecretShare {
    var pss: seq<Provider>
    /** Arguments the result callback was called with. */
    var results: seq<Result>
    var live: bool

    constructor (providers: seq<Provider>)
      requires providers != [] && forall i :: 0 <= i < |providers| ==> providers[i].pending
      ensures AsState() == State(providers, [], true)
    {
      pss, results, live := providers, [], true;
    }

    ghost function AsState(): State
      reads this
    {
      State(pss, results, live)
    }

    method PolicyStoreCb(i: nat, ud: Details)
      requires live && i < |pss| && pss[i].pending
      modifies this
      ensures AsState() == Step(old(AsState()), i, ud)
    {
      var us := ud.us;
      if us == UsSuccess && pss[i].currHash != ud.hash {
        us := UsServerError;
      }
      pss := pss[i := pss[i].(pending := false)];
      match us {
        case UsSuccess =>
          pss := pss[i := pss[i].(version := ud.version, expiration := ud.expiration)];
        case UsPaymentRequired =>
          pss := pss[i := pss[i].(paymentRequest := Some(ud.request), paymentSecret := ud.secret)];
        case UsHttpError | UsClientError | UsServerError =>
          results := results + [ProviderFailed(pss[i].url, ud.httpStatus, ud.ec)];
          live := false;
          return;
        case UsConflictingTruth =>
      }
      assert pss == old(pss)[i := Recorded(old(pss[i]), ud)];
      for k := 0 to |pss|
        invariant pss == old(pss)[i := Recorded(old(pss[i]), ud)] && results == old(results) && live
        invariant forall l :: 0 <= l < k ==> !pss[l].pending
      {
        if pss[k].pending {
          return;
        }
      }
      var summary := Summarize();
      results := results + [summary];
      live := false;
    }

    /** Fills the two result arrays from the front, each with its own offset. */
    method Summarize() returns (r: Result)
      ensures r == Summary(pss)
    {
      hide PaymentsOf, StoredOf;
      SummaryOfNone();
      assert pss[..0] == [];
      var spr := new Payment[|pss|](_ => Payment("", "", 0));
      var apss := new Stored[|pss|](_ => Stored("", 0, 0));
      var off, voff := 0, 0;
      for i := 0 to |pss|
        invariant off + voff == i
        invariant spr[..off] == PaymentsOf(pss[..i]) && apss[..voff] == StoredOf(pss[..i])
      {
        var pssi := pss[i];
        SummarySnoc(pss, i);
        if pssi.paymentRequest.None? {
          apss[voff] := Stored(pssi.url, pssi.version, pssi.expiration);
          voff := voff + 1;
        } else {
          spr[off] := Payment(pssi.url, pssi.paymentRequest.value, pssi.paymentSecret);
          off := off + 1;
        }
      }
      assert pss[..|pss|] == pss;
      r := if off > 0 then SharePayment(spr[..off]) else ShareSuccess(apss[..voff]);
    }
  }

  // ----- every order of replies

  /** A reply reaches the operation only while it lives; once it ended, no callback is left to fire. */
  ghost function Next(s: State, i: nat, ud: Details): State
    requires i < |s.pss|
  {
    if s.live then Step(s, i, ud) else s
  }

  /** The states passed through while the replies arrive in the given order. */
  ghost predicate Run(tr: seq<State>, order: seq<nat>, replies: seq<Details>) {
    && |tr| == |order| + 1
    && (forall i :: 0 <= i < |order| ==> order[i] < |replies|)
    && (forall k :: 0 <= k < |tr| ==> |tr[k].pss| == |replies|)
    && forall k :: 0 <= k < |order| ==> tr[k + 1] == Next(tr[k], order[k], replies[order[k]])
  }

  ghost predicate Starts(s: State) {
    s.live && s.results == [] && s.pss != [] && forall i :: 0 <= i < |s.pss| ==> s.pss[i].pending
  }

  /** Each provider replies once. */
  ghost predicate Order(order: seq<nat>, n: nat) {
    |order| == n && NoDuplicates(order) && forall i :: 0 <= i < n ==> order[i] < n
  }

  /** A complete run: it starts with all replies pending and every provider replies once. */
  ghost predicate FullRun(tr: seq<State>, order: seq<nat>, replies: seq<Details>) {
    Run(tr, order, replies) && Order(order, |replies|) && Starts(tr[0])
  }

  /** Still waiting after k replies, all of them recorded. */
  ghost predicate GoingWell(s: State, order: seq<nat>, replies: seq<Details>, k: nat, r: State)
    requires |replies| == |s.pss| && Order(order, |s.pss|)
  {
    && r.live && r.results == [] && |r.pss| == |s.pss|
    && forall j :: 0 <= j < |order| ==>
         r.pss[order[j]] == if j < k then Recorded(s.pss[order[j]], replies[order[j]]) else s.pss[order[j]]
  }

  lemma {:induction false} WhileAllGoesWell(tr: seq<State>, order: seq<nat>, replies: seq<Details>, k: nat)
    requires FullRun(tr, order, replies) && k < |order|
    requires forall i :: 0 <= i < k ==> !Fails(tr[0].pss[order[i]], replies[order[i]])
    ensures GoingWell(tr[0], order, replies, k, tr[k])
  {
    if k > 0 {
      WhileAllGoesWell(tr, order, replies, k - 1);
      WaitingStep(tr[0], order, replies, k - 1, tr[k - 1]);
      assert tr[k - 1 + 1] == Next(tr[k - 1], order[k - 1], replies[order[k - 1]]);
    }
  }

  lemma WaitingStep(s: State, order: seq<nat>, replies: seq<Details>, k: nat, prev: State)
    requires Starts(s) && |replies| == |s.pss| && Order(order, |s.pss|) && k + 1 < |order|
    requires GoingWell(s, order, replies, k, prev) && !Fails(s.pss[order[k]], replies[order[k]])
    ensures GoingWell(s, order, replies, k + 1, Step(prev, order[k], replies[order[k]]))
  {
    var i, j := order[k], order[k + 1];
    assert i != j && s.pss[j].pending;
    assert prev.pss[i := Recorded(prev.pss[i], replies[i])][j].pending;
  }

  /** A sequence of n different numbers below n contains them all. */
  lemma OrderCovers(order: seq<nat>, n: nat, i: nat)
    requires Order(order, n) && i < n
    ensures i in order
  {
    if i !in order {
      ElementsCount(order);
      BelowCount(Elements(order) + {i}, n);
    }
  }

  lemma {:induction false} NothingAfterEnd(tr: seq<State>, order: seq<nat>, replies: seq<Details>, k: nat, l: nat)
    requires Run(tr, order, replies) && k <= l < |tr| && !tr[k].live
    ensures tr[l] == tr[k]
  {
    if k < l {
      NothingAfterEnd(tr, order, replies, k, l - 1);
      assert tr[l - 1 + 1] == Next(tr[l - 1], order[l - 1], replies[order[l - 1]]);
    }
  }

  ghost function AllRecorded(ps: seq<Provider>, replies: seq<Details>): seq<Provider>
    requires |ps| == |replies|
  {
    seq(|ps|, i requires 0 <= i < |ps| => Recorded(ps[i], replies[i]))
  }

  /**
   * If no provider fails, the result callback fires once, at the last reply, and what it is told
   * does not depend on the order of the replies.
   */
  lemma SummaryInAnyOrder(tr: seq<State>, order: seq<nat>, replies: seq<Details>, k: nat)
    requires FullRun(tr, order, replies) && k < |tr|
    requires forall i :: 0 <= i < |replies| ==> !Fails(tr[0].pss[i], replies[i])
    ensures tr[k].results == if k < |order| then [] else [Summary(AllRecorded(tr[0].pss, replies))]
    ensures tr[k].live <==> k < |order|
  {
    if k < |order| {
      WhileAllGoesWell(tr, order, replies, k);
    } else {
      WhileAllGoesWell(tr, order, replies, k - 1);
      LastStep(tr[0], order, replies, tr[k - 1]);
      assert tr[k - 1 + 1] == Next(tr[k - 1], order[k - 1], replies[order[k - 1]]);
    }
  }

  lemma LastStep(s: State, order: seq<nat>, replies: seq<Details>, prev: State)
    requires Starts(s) && |replies| == |s.pss| && Order(order, |s.pss|)
    requires forall i :: 0 <= i < |s.pss| ==> !Fails(s.pss[i], replies[i])
    requires GoingWell(s, order, replies, |order| - 1, prev)
    ensures var i, pss := order[|order| - 1], AllRecorded(s.pss, replies);
            Step(prev, i, replies[i]) == State(pss, [Summary(pss)], false)
  {
    var i := order[|order| - 1];
    LastRecord(s, order, replies, prev);
    FinishingStep(prev, i, replies[i], AllRecorded(s.pss, replies));
  }

  /** With all but the last reply recorded, the last one completes the records. */
  lemma LastRecord(s: State, order: seq<nat>, replies: seq<Details>, prev: State)
    requires s.pss != [] && |replies| == |s.pss| && Order(order, |s.pss|)
    requires GoingWell(s, order, replies, |order| - 1, prev)
    ensures var i := order[|order| - 1];
            prev.pss[i] == s.pss[i] && prev.pss[i := Recorded(prev.pss[i], replies[i])] == AllRecorded(s.pss, replies)
  {
    var i := order[|order| - 1];
    forall m | 0 <= m < |s.pss|
      ensures prev.pss[i := Recorded(prev.pss[i], replies[i])][m] == AllRecorded(s.pss, replies)[m]
    {
      OrderCovers(order, |s.pss|, m);
      var j :| 0 <= j < |order| && order[j] == m;
    }
  }

  lemma FinishingStep(s: State, i: nat, ud: Details, pss: seq<Provider>)
    requires i < |s.pss| && !Fails(s.pss[i], ud) && pss == s.pss[i := Recorded(s.pss[i], ud)]
    requires forall j :: 0 <= j < |pss| ==> !pss[j].pending
    ensures Step(s, i, ud) == State(pss, s.results + [Summary(pss)], false)
  {
  }

  /** The first failing reply is reported, once, and nothing else is. */
  lemma FirstFailureReported(tr: seq<State>, order: seq<nat>, replies: seq<Details>, k: nat, l: nat)
    requires FullRun(tr, order, replies) && k < |order| && l < |tr|
    requires Fails(tr[0].pss[order[k]], replies[order[k]])
    requires forall i :: 0 <= i < k ==> !Fails(tr[0].pss[order[i]], replies[order[i]])
    ensures tr[l].results ==
            if l <= k then []
            else [ProviderFailed(tr[0].pss[order[k]].url, replies[order[k]].httpStatus, replies[order[k]].ec)]
    ensures tr[l].live <==> l <= k
  {
    if l <= k {
      WhileAllGoesWell(tr, order, replies, l);
    } else {
      WhileAllGoesWell(tr, order, replies, k);
      assert tr[k].pss[order[k]] == tr[0].pss[order[k]];
      assert tr[k + 1] == Next(tr[k], order[k], replies[order[k]]);
      NothingAfterEnd(tr, order, replies, k + 1, l);
    }
  }

  /** Whatever the replies and their order, the result callback fires exactly once. */
  lemma ExactlyOneResult(tr: seq<State>, order: seq<nat>, replies: seq<Details>)
    requires FullRun(tr, order, replies)
    ensures |tr[|order|].results| == 1 && !tr[|order|].live
  {
    if k :| 0 <= k < |order| && Fails(tr[0].pss[order[k]], replies[order[k]]) {
      var f := FirstFailure(tr[0], order, replies, k);
      FirstFailureReported(tr, order, replies, f, |order|);
    } else {
      forall i | 0 <= i < |replies| ensures !Fails(tr[0].pss[i], replies[i]) {
        OrderCovers(order, |replies|, i);
        var k :| 0 <= k < |order| && order[k] == i;
      }
      SummaryInAnyOrder(tr, order, replies, |order|);
    }
  }

  lemma FirstFailure(s: State, order: seq<nat>, replies: seq<Details>, k: nat) returns (f: nat)
    requires |replies| == |s.pss| && forall i :: 0 <= i < |order| ==> order[i] < |s.pss|
    requires k < |order| && Fails(s.pss[order[k]], replies[order[k]])
    ensures f <= k && Fails(s.pss[order[f]], replies[order[f]])
    ensures forall i :: 0 <= i < f ==> !Fails(s.pss[order[i]], replies[order[i]])
  {
    f := 0;
    while !Fails(s.pss[order[f]], replies[order[f]])
      invariant f <= k && forall i :: 0 <= i < f ==> !Fails(s.pss[order[i]], replies[order[i]])
      decreases k - f
    {
      f := f + 1;
    }
  }

  // ----- what a summary says

  ghost function UrlsOf<T>(xs: seq<T>, url: T -> string): (r: seq<string>)
    ensures |r| == |xs|
  {
    seq(|xs|, i requires 0 <= i < |xs| => url(xs[i]))
  }

  lemma UrlsSnoc<T>(xs: seq<T>, x: T, url: T -> string)
    ensures UrlsOf(xs + [x], url) == UrlsOf(xs, url) + [url(x)]
  {
  }

  const PROVIDER_URL: Provider -> string := (p: Provider) => p.url
  const PAYMENT_URL: Payment -> string := (p: Payment) => p.url
  const STORED_URL: Stored -> string := (p: Stored) => p.url

  /** The two arrays together name every provider as often as it was asked, none lost or repeated. */
  lemma {:induction false} SummaryPartitions(ps: seq<Provider>)
    ensures multiset(UrlsOf(PaymentsOf(ps), PAYMENT_URL)) + multiset(UrlsOf(StoredOf(ps), STORED_URL))
         == multiset(UrlsOf(ps, PROVIDER_URL))
  {
    if ps != [] {
      var front, p := ps[..|ps| - 1], ps[|ps| - 1];
      SummaryPartitions(front);
      assert ps == front + [p];
      UrlsSnoc(front, p, PROVIDER_URL);
      if p.paymentRequest.Some? {
        UrlsSnoc(PaymentsOf(front), Payment(p.url, p.paymentRequest.value, p.paymentSecret), PAYMENT_URL);
      } else {
        UrlsSnoc(StoredOf(front), Stored(p.url, p.version, p.expiration), STORED_URL);
      }
    }
  }

  /** Positions of the providers that ask for payment, or of those that do not. */
  ghost function Positions(ps: seq<Provider>, paying: bool): (idx: seq<nat>)
    ensures forall k :: 0 <= k < |idx| ==> idx[k] < |ps| && ps[idx[k]].paymentRequest.Some? == paying
  {
    if ps == [] then []
    else
      var n := |ps| - 1;
      Positions(ps[..n], paying) + (if ps[n].paymentRequest.Some? == paying then [n] else [])
  }

  /** The positions ascend, and leave no such provider out. */
  lemma {:induction false} PositionsAscend(ps: seq<Provider>, paying: bool)
    ensures Increasing(Positions(ps, paying), 0, |ps|)
    ensures forall i :: 0 <= i < |ps| && ps[i].paymentRequest.Some? == paying ==> i in Positions(ps, paying)
  {
    if ps != [] {
      PositionsAscend(ps[..|ps| - 1], paying);
    }
  }

  /** The payment requests are those of exactly the providers that ask for payment, in their order. */
  lemma {:induction false} PaymentsInOrder(ps: seq<Provider>)
    ensures var idx := Positions(ps, true);
            && |PaymentsOf(ps)| == |idx|
            && forall k :: 0 <= k < |idx| ==>
                 PaymentsOf(ps)[k] == Payment(ps[idx[k]].url, ps[idx[k]].paymentRequest.value, ps[idx[k]].paymentSecret)
  {
    if ps != [] {
      PaymentsInOrder(ps[..|ps| - 1]);
    }
  }

  /** The successes are those of exactly the providers that do not, in their order. */
  lemma {:induction false} StoredInOrder(ps: seq<Provider>)
    ensures var idx := Positions(ps, false);
            && |StoredOf(ps)| == |idx|
            && forall k :: 0 <= k < |idx| ==>
              StoredOf(ps)[k] == Stored(ps[idx[k]].url, ps[idx[k]].version, ps[idx[k]].expiration)
  {
    if ps != [] {
      StoredInOrder(ps[..|ps| - 1]);
    }
  }

  // ----- the summary in terms of the replies

  /** A reply fails if the status says so, or if it reports success for another document than the one sent. */
  lemma FailsIff(p: Provider, ud: Details)
    ensures Fails(p, ud) <==>
            || ud.us in {UsHttpError, UsClientError, UsServerError}
            || (ud.us == UsSuccess && ud.hash != p.currHash)
  {
  }

  /** What is known of a provider after a reply that does not fail. */
  lemma RecordedIs(p: Provider, ud: Details)
    requires !Fails(p, ud)
    ensures var q := Recorded(p, ud);
            && q.url == p.url && q.currHash == p.currHash && !q.pending
            && (ud.us == UsSuccess ==> q.version == ud.version && q.expiration == ud.expiration
                                       && q.paymentRequest == p.paymentRequest)
            && (ud.us == UsPaymentRequired ==> q.paymentRequest == Some(ud.request) && q.paymentSecret == ud.secret
                                               && q.version == p.version && q.expiration == p.expiration)
            && (ud.us == UsConflictingTruth ==> q == p.(pending := false))
  {
  }

  /** No payment request is on record before the first reply. */
  ghost predicate NothingAsked(ps: seq<Provider>) {
    forall i :: 0 <= i < |ps| ==> ps[i].paymentRequest.None?
  }

  /**
   * If no provider fails and some ask for payment, the result of any run lists each of these, in order,
   * with the request and the secret of its own reply.
   */
  lemma PaymentsOfReplies(tr: seq<State>, order: seq<nat>, replies: seq<Details>) returns (idx: seq<nat>)
    requires FullRun(tr, order, replies) && NothingAsked(tr[0].pss)
    requires forall i :: 0 <= i < |replies| ==> !Fails(tr[0].pss[i], replies[i])
    requires exists i :: 0 <= i < |replies| && replies[i].us == UsPaymentRequired
    ensures Increasing(idx, 0, |replies|)
    ensures forall i :: 0 <= i < |replies| ==> (i in idx <==> replies[i].us == UsPaymentRequired)
    ensures |tr[|order|].results| == 1 && tr[|order|].results[0].SharePayment?
    ensures var l := tr[|order|].results[0].payments;
            |l| == |idx| && forall k :: 0 <= k < |idx| ==>
              l[k] == Payment(tr[0].pss[idx[k]].url, replies[idx[k]].request, replies[idx[k]].secret)
  {
    hide Recorded, Fails, Positions, PaymentsOf, StoredOf;
    var pss := AllRecorded(tr[0].pss, replies);
    SummaryInAnyOrder(tr, order, replies, |order|);
    forall i | 0 <= i < |replies| ensures pss[i].paymentRequest.Some? <==> replies[i].us == UsPaymentRequired {
      FailsIff(tr[0].pss[i], replies[i]);
      RecordedIs(tr[0].pss[i], replies[i]);
    }
    SuccessIffNoPayment(pss);
    idx := Positions(pss, true);
    PositionsAscend(pss, true);
    PaymentsInOrder(pss);
    forall k | 0 <= k < |idx|
      ensures PaymentsOf(pss)[k] == Payment(tr[0].pss[idx[k]].url, replies[idx[k]].request, replies[idx[k]].secret)
    {
      RecordedIs(tr[0].pss[idx[k]], replies[idx[k]]);
    }
  }

  /**
   * If every provider reports success, the result of any run lists all of them, in order, each with the
   * version and expiration of its own reply.
   */
  lemma SuccessesOfReplies(tr: seq<State>, order: seq<nat>, replies: seq<Details>)
    requires FullRun(tr, order, replies) && NothingAsked(tr[0].pss)
    requires forall i :: 0 <= i < |replies| ==> replies[i].us == UsSuccess && replies[i].hash == tr[0].pss[i].currHash
    ensures |tr[|order|].results| == 1 && tr[|order|].results[0].ShareSuccess?
    ensures var l := tr[|order|].results[0].stored;
            |l| == |replies| && forall i :: 0 <= i < |l| ==>
              l[i] == Stored(tr[0].pss[i].url, replies[i].version, replies[i].expiration)
  {
    hide Recorded, Fails, PaymentsOf, StoredOf;
    var pss := AllRecorded(tr[0].pss, replies);
    forall i | 0 <= i < |replies| ensures !Fails(tr[0].pss[i], replies[i]) && pss[i].paymentRequest.None? {
      FailsIff(tr[0].pss[i], replies[i]);
      RecordedIs(tr[0].pss[i], replies[i]);
    }
    SummaryInAnyOrder(tr, order, replies, |order|);
    SuccessIffNoPayment(pss);
    AllStored(pss);
    forall i | 0 <= i < |pss|
      ensures StoredOf(pss)[i] == Stored(tr[0].pss[i].url, replies[i].version, replies[i].expiration) {
      RecordedIs(tr[0].pss[i], replies[i]);
    }
  }

  lemma {:induction false} AllStored(ps: seq<Provider>)
    requires NothingAsked(ps)
    ensures |StoredOf(ps)| == |ps|
    ensures forall i :: 0 <= i < |ps| ==> StoredOf(ps)[i] == Stored(ps[i].url, ps[i].version, ps[i].expiration)
  {
    if ps != [] {
      AllStored(ps[..|ps| - 1]);
    }
  }

  /** Sharing is reported as done only if no provider asked for payment. */
  lemma SuccessIffNoPayment(ps: seq<Provider>)
    ensures Summary(ps).ShareSuccess? <==> forall i :: 0 <= i < |ps| ==> ps[i].paymentRequest.None?
  {
    hide PaymentsOf, StoredOf, Positions;
    var idx := Positions(ps, true);
    PositionsAscend(ps, true);
    PaymentsInOrder(ps);
    if idx != [] {
      assert ps[idx[0]].paymentRequest.Some?;
    }
  }
}
