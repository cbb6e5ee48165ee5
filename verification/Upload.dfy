/**
 * The truth upload protocol of the reducer: one upload per (provider, method), shared by all policy
 * slots that need it, with serialization between payment rounds.
 */
module Upload {
  import opened Wrappers
  import opened Backup

  const US_SUCCESS: nat := 0
  const EC_NONE: nat := 0

  /** A truth in the JSON state; a missing upload status reads as a value that is no success. */
  datatype SavedTruth = SavedTruth(truth: Truth, status: nat)

  /** One method of one policy in the JSON state. */
  datatype Slot = Slot(provider: string, am: nat, truth: Option<SavedTruth>)

  datatype Key = Key(provider: string, am: nat)

  datatype Ref = Ref(policy: nat, method_: nat)

  /** Bookkeeping of one truth: its upload in flight, or the truth at hand. */
  datatype Entry = Entry(key: Key, refs: seq<Ref>, tu: Option<Truth>, t: Option<Truth>, paymentRequest: Option<string>,
                         us: nat, ec: nat)

  function KeyOf(s: Slot): Key {
    Key(s.provider, s.am)
  }

  // ----- what happens to one key

  datatype Phase = Absent | InFlight(t: Truth) | AtHand(t: Truth)

  /** Effect of one more slot on the entry of its key. */
  function NextPhase(ph: Phase, s: Slot, freshTruth: Key -> Truth): Phase {
    match s.truth
    case None => if ph.Absent? then InFlight(freshTruth(KeyOf(s))) else ph
    case Some(sv) =>
      if sv.status != US_SUCCESS then
        match ph
        case Absent => InFlight(sv.truth)
        case InFlight(t) => ph
        case AtHand(t) => InFlight(t)
      else
        match ph
        case Absent => AtHand(sv.truth)
        case InFlight(t) => AtHand(sv.truth)
        case AtHand(t) => ph
  }

  /** An upload begins at this slot, which takes the provider's salt. */
  predicate Begins(ph: Phase, s: Slot) {
    if s.truth.None? then ph.Absent? else s.truth.value.status != US_SUCCESS && !ph.InFlight?
  }

  function PhaseOf(slots: seq<Slot>, key: Key, freshTruth: Key -> Truth): Phase {
    if slots == [] then Absent
    else
      var ph, s := PhaseOf(slots[..|slots| - 1], key, freshTruth), slots[|slots| - 1];
      if KeyOf(s) == key then NextPhase(ph, s, freshTruth) else ph
  }

  // ----- entries

  function EntryPhase(e: Entry): Phase {
    if e.tu.Some? then InFlight(e.tu.value) else if e.t.Some? then AtHand(e.t.value) else Absent
  }

  function WithPhase(e: Entry, ph: Phase): Entry {
    match ph
    case Absent => e.(tu := None, t := None)
    case InFlight(t) => e.(tu := Some(t), t := None)
    case AtHand(t) => e.(tu := None, t := Some(t))
  }

  function NewEntry(key: Key, r: Ref): Entry {
    Entry(key, [r], None, None, None, US_SUCCESS, EC_NONE)
  }

  function IndexOf(es: seq<Entry>, key: Key): (i: nat)
    ensures i <= |es|
    ensures i < |es| ==> es[i].key == key
    ensures forall k :: 0 <= k < i ==> es[k].key != key
  {
    if es == [] || es[0].key == key then 0 else 1 + IndexOf(es[1..], key)
  }

  function Processed(es: seq<Entry>, r: Ref, s: Slot, freshTruth: Key -> Truth): seq<Entry> {
    var i := IndexOf(es, KeyOf(s));
    if i < |es| then
      es[i := WithPhase(es[i].(refs := es[i].refs + [r]), NextPhase(EntryPhase(es[i]), s, freshTruth))]
    else [WithPhase(NewEntry(KeyOf(s), r), NextPhase(Absent, s, freshTruth))] + es
  }

  /** A slot whose upload could not begin still leaves its reference and its truth with the entry. */
  function Parked(es: seq<Entry>, r: Ref, s: Slot): seq<Entry>
    requires s.truth.Some?
  {
    var i := IndexOf(es, KeyOf(s));
    if i < |es| then es[i := WithTruth(es[i].(refs := es[i].refs + [r]), s.truth.value.truth)]
    else [WithTruth(NewEntry(KeyOf(s), r), s.truth.value.truth)] + es
  }

  function WithTruth(e: Entry, t: Truth): Entry {
    if e.t.None? then e.(t := Some(t)) else e
  }

  function InFlightCount(es: seq<Entry>): nat {
    if es == [] then 0 else InFlightCount(es[..|es| - 1]) + (if es[|es| - 1].tu.Some? then 1 else 0)
  }

  lemma {:induction false} InFlightCountUpdate(es: seq<Entry>, i: nat, e: Entry)
    requires i < |es|
    ensures InFlightCount(es[i := e]) + (if es[i].tu.Some? then 1 else 0)
      == InFlightCount(es) + (if e.tu.Some? then 1 else 0)
  {
    if i == |es| - 1 {
      assert es[i := e][..i] == es[..i];
    } else {
      assert es[i := e][..|es| - 1] == es[..|es| - 1][i := e];
      InFlightCountUpdate(es[..|es| - 1], i, e);
    }
  }

  lemma {:induction false} InFlightCountCons(e: Entry, es: seq<Entry>)
    ensures InFlightCount([e] + es) == InFlightCount(es) + (if e.tu.Some? then 1 else 0)
  {
    if es == [] {
      assert ([e] + es)[..0] == [];
    } else {
      assert ([e] + es)[..|es|] == [e] + es[..|es| - 1];
      InFlightCountCons(e, es[..|es| - 1]);
    }
  }

  lemma {:induction false} InFlightCountZero(es: seq<Entry>)
    ensures InFlightCount(es) == 0 <==> forall i :: 0 <= i < |es| ==> es[i].tu.None?
  {
    if es != [] {
      InFlightCountZero(es[..|es| - 1]);
      assert es == es[..|es| - 1] + [es[|es| - 1]];
    }
  }

  // ----- slots with their positions

  datatype Placed = Placed(r: Ref, s: Slot)

  function PlacedRow(p: nat, row: seq<Slot>): (r: seq<Placed>)
    ensures |r| == |row| && forall j :: 0 <= j < |row| ==> r[j] == Placed(Ref(p, j), row[j])
  {
    seq(|row|, j requires 0 <= j < |row| => Placed(Ref(p, j), row[j]))
  }

  /** All slots, policy by policy. */
  function Placements(ps: seq<seq<Slot>>): seq<Placed> {
    if ps == [] then [] else Placements(ps[..|ps| - 1]) + PlacedRow(|ps| - 1, ps[|ps| - 1])
  }

  function SlotsOf(ds: seq<Placed>): (r: seq<Slot>)
    ensures |r| == |ds| && forall i :: 0 <= i < |ds| ==> r[i] == ds[i].s
  {
    seq(|ds|, i requires 0 <= i < |ds| => ds[i].s)
  }

  function RefsOf(ds: seq<Placed>, key: Key): seq<Ref> {
    if ds == [] then []
    else
      var front, d := RefsOf(ds[..|ds| - 1], key), ds[|ds| - 1];
      if KeyOf(d.s) == key then front + [d.r] else front
  }

  /** An entry accounts for exactly the slots of its key. */
  ghost predicate Accounts(e: Entry, ds: seq<Placed>, freshTruth: Key -> Truth) {
    && e.refs == RefsOf(ds, e.key)
    && e == WithPhase(e, PhaseOf(SlotsOf(ds), e.key, freshTruth))
    && !PhaseOf(SlotsOf(ds), e.key, freshTruth).Absent?
    && e.paymentRequest.None? && e.us == US_SUCCESS && e.ec == EC_NONE
  }

  ghost predicate UniqueKeys(es: seq<Entry>) {
    forall i, j :: 0 <= i < j < |es| ==> es[i].key != es[j].key
  }

  ghost predicate HasKey(es: seq<Entry>, key: Key) {
    exists i :: 0 <= i < |es| && es[i].key == key
  }

  /** The entries account for the slots processed so far: one entry per key in use. */
  ghost predicate Tracks(es: seq<Entry>, ds: seq<Placed>, freshTruth: Key -> Truth) {
    && UniqueKeys(es)
    && (forall i :: 0 <= i < |es| ==> Accounts(es[i], ds, freshTruth))
    && (forall k :: 0 <= k < |ds| ==> HasKey(es, KeyOf(ds[k].s)))
  }

  lemma SlotsSnoc(ds: seq<Placed>, d: Placed, key: Key, freshTruth: Key -> Truth)
    ensures SlotsOf(ds + [d]) == SlotsOf(ds) + [d.s]
    ensures PhaseOf(SlotsOf(ds + [d]), key, freshTruth) ==
            if KeyOf(d.s) == key then NextPhase(PhaseOf(SlotsOf(ds), key, freshTruth), d.s, freshTruth)
            else PhaseOf(SlotsOf(ds), key, freshTruth)
    ensures RefsOf(ds + [d], key) == if KeyOf(d.s) == key then RefsOf(ds, key) + [d.r] else RefsOf(ds, key)
  {
    assert SlotsOf(ds + [d]) == SlotsOf(ds) + [d.s];
    assert (SlotsOf(ds) + [d.s])[..|ds|] == SlotsOf(ds);
    assert (ds + [d])[..|ds|] == ds;
  }

  lemma {:induction false} UnusedKey(ds: seq<Placed>, key: Key, freshTruth: Key -> Truth)
    requires forall k :: 0 <= k < |ds| ==> KeyOf(ds[k].s) != key
    ensures PhaseOf(SlotsOf(ds), key, freshTruth) == Absent && RefsOf(ds, key) == []
  {
    if ds != [] {
      UnusedKey(ds[..|ds| - 1], key, freshTruth);
      assert ds == ds[..|ds| - 1] + [ds[|ds| - 1]];
      SlotsSnoc(ds[..|ds| - 1], ds[|ds| - 1], key, freshTruth);
    }
  }

  /** One more slot for the entry of its key. */
  lemma AccountsOwn(e: Entry, ds: seq<Placed>, d: Placed, freshTruth: Key -> Truth)
    requires Accounts(e, ds, freshTruth) && e.key == KeyOf(d.s)
    ensures Accounts(WithPhase(e.(refs := e.refs + [d.r]), NextPhase(EntryPhase(e), d.s, freshTruth)),
                     ds + [d], freshTruth)
  {
    SlotsSnoc(ds, d, e.key, freshTruth);
  }

  lemma AccountsOther(e: Entry, ds: seq<Placed>, d: Placed, freshTruth: Key -> Truth)
    requires Accounts(e, ds, freshTruth) && e.key != KeyOf(d.s)
    ensures Accounts(e, ds + [d], freshTruth)
  {
    SlotsSnoc(ds, d, e.key, freshTruth);
  }

  lemma AccountsNew(ds: seq<Placed>, d: Placed, freshTruth: Key -> Truth)
    requires forall k :: 0 <= k < |ds| ==> KeyOf(ds[k].s) != KeyOf(d.s)
    ensures Accounts(WithPhase(NewEntry(KeyOf(d.s), d.r), NextPhase(Absent, d.s, freshTruth)), ds + [d], freshTruth)
  {
    UnusedKey(ds, KeyOf(d.s), freshTruth);
    SlotsSnoc(ds, d, KeyOf(d.s), freshTruth);
  }

  lemma KeysKept(es: seq<Entry>, es': seq<Entry>, key: Key, off: nat)
    requires |es| + off == |es'| && HasKey(es, key) && forall k :: 0 <= k < |es| ==> es'[k + off].key == es[k].key
    ensures HasKey(es', key)
  {
    var l :| 0 <= l < |es| && es[l].key == key;
    assert es'[l + off].key == key;
  }

  /** Processing a slot extends what the entries account for. */
  lemma ProcessedTracks(es: seq<Entry>, ds: seq<Placed>, d: Placed, freshTruth: Key -> Truth)
    requires Tracks(es, ds, freshTruth)
    ensures Tracks(Processed(es, d.r, d.s, freshTruth), ds + [d], freshTruth)
  {
    var i := IndexOf(es, KeyOf(d.s));
    if i < |es| {
      KnownKeyTracks(es, ds, d, freshTruth, i,
        WithPhase(es[i].(refs := es[i].refs + [d.r]), NextPhase(EntryPhase(es[i]), d.s, freshTruth)));
    } else {
      NewKeyTracks(es, ds, d, freshTruth, WithPhase(NewEntry(KeyOf(d.s), d.r), NextPhase(Absent, d.s, freshTruth)));
    }
  }

  lemma KnownKeyTracks(es: seq<Entry>, ds: seq<Placed>, d: Placed, freshTruth: Key -> Truth, i: nat, e: Entry)
    requires Tracks(es, ds, freshTruth) && i < |es| && es[i].key == KeyOf(d.s)
    requires e == WithPhase(es[i].(refs := es[i].refs + [d.r]), NextPhase(EntryPhase(es[i]), d.s, freshTruth))
    ensures Tracks(es[i := e], ds + [d], freshTruth)
  {
    hide Accounts, NextPhase, RefsOf, PhaseOf;
    AccountsOwn(es[i], ds, d, freshTruth);
    forall k | 0 <= k < |es| && k != i ensures Accounts(es[k], ds + [d], freshTruth) {
      AccountsOther(es[k], ds, d, freshTruth);
    }
    assert es[i := e][i].key == KeyOf(d.s);
    KeysCovered(es, es[i := e], ds, d, 0);
  }

  lemma NewKeyTracks(es: seq<Entry>, ds: seq<Placed>, d: Placed, freshTruth: Key -> Truth, e: Entry)
    requires Tracks(es, ds, freshTruth) && forall k :: 0 <= k < |es| ==> es[k].key != KeyOf(d.s)
    requires e == WithPhase(NewEntry(KeyOf(d.s), d.r), NextPhase(Absent, d.s, freshTruth))
    ensures Tracks([e] + es, ds + [d], freshTruth)
  {
    hide Accounts, RefsOf, PhaseOf;
    forall k | 0 <= k < |ds| ensures KeyOf(ds[k].s) != KeyOf(d.s) {
      assert HasKey(es, KeyOf(ds[k].s));
    }
    AccountsNew(ds, d, freshTruth);
    forall k | 0 <= k < |es| ensures Accounts(es[k], ds + [d], freshTruth) {
      AccountsOther(es[k], ds, d, freshTruth);
    }
    assert ([e] + es)[0].key == KeyOf(d.s);
    KeysCovered(es, [e] + es, ds, d, 1);
  }

  lemma KeysCovered(es: seq<Entry>, es': seq<Entry>, ds: seq<Placed>, d: Placed, off: nat)
    requires |es| + off == |es'| && forall k :: 0 <= k < |es| ==> es'[k + off].key == es[k].key
    requires forall k :: 0 <= k < |ds| ==> HasKey(es, KeyOf(ds[k].s))
    requires HasKey(es', KeyOf(d.s))
    ensures forall k :: 0 <= k < |ds + [d]| ==> HasKey(es', KeyOf((ds + [d])[k].s))
  {
    forall k | 0 <= k < |ds| ensures HasKey(es', KeyOf(ds[k].s)) {
      KeysKept(es, es', KeyOf(ds[k].s), off);
    }
  }

  /** The entries after the slots were processed in order. */
  ghost function Entries(ds: seq<Placed>, freshTruth: Key -> Truth): seq<Entry> {
    if ds == [] then []
    else Processed(Entries(ds[..|ds| - 1], freshTruth), ds[|ds| - 1].r, ds[|ds| - 1].s, freshTruth)
  }

  lemma {:induction false} EntriesTrack(ds: seq<Placed>, freshTruth: Key -> Truth)
    ensures Tracks(Entries(ds, freshTruth), ds, freshTruth)
  {
    if ds != [] {
      var front, d := ds[..|ds| - 1], ds[|ds| - 1];
      EntriesTrack(front, freshTruth);
      ProcessedTracks(Entries(front, freshTruth), front, d, freshTruth);
      assert ds == front + [d];
    }
  }

  lemma EntriesSnoc(ds: seq<Placed>, d: Placed, freshTruth: Key -> Truth)
    ensures Entries(ds + [d], freshTruth) == Processed(Entries(ds, freshTruth), d.r, d.s, freshTruth)
  {
    assert (ds + [d])[..|ds|] == ds;
  }
}
