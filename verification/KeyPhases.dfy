/** What the slots of one (provider, method) key do to its truth, in terms of the slots alone. */
module KeyPhases {
  import opened Wrappers
  import opened Backup
  import opened Upload

  ghost predicate Occurs(ss: seq<Slot>, key: Key) {
    exists k :: 0 <= k < |ss| && KeyOf(ss[k]) == key
  }

  /** The last serialized truth among the slots of the key. */
  function LastSaved(ss: seq<Slot>, key: Key): Option<SavedTruth> {
    if ss == [] then None
    else if KeyOf(ss[|ss| - 1]) == key && ss[|ss| - 1].truth.Some? then ss[|ss| - 1].truth
    else LastSaved(ss[..|ss| - 1], key)
  }

  /** A key is uploaded exactly if it occurs and its last serialized truth is none or not stored yet. */
  lemma {:induction false} UploadedIff(ss: seq<Slot>, key: Key, freshTruth: Key -> Truth)
    ensures PhaseOf(ss, key, freshTruth).InFlight? <==>
            Occurs(ss, key) && (LastSaved(ss, key).None? || LastSaved(ss, key).value.status != US_SUCCESS)
    ensures PhaseOf(ss, key, freshTruth).Absent? <==> !Occurs(ss, key)
    ensures !Occurs(ss, key) ==> LastSaved(ss, key).None?
  {
    if ss != [] {
      var front, s := ss[..|ss| - 1], ss[|ss| - 1];
      UploadedIff(front, key, freshTruth);
      OccursSnoc(front, s, key);
      assert ss == front + [s];
    }
  }

  lemma OccursSnoc(ss: seq<Slot>, s: Slot, key: Key)
    ensures Occurs(ss + [s], key) <==> Occurs(ss, key) || KeyOf(s) == key
  {
    if k :| 0 <= k < |ss| && KeyOf(ss[k]) == key {
      assert KeyOf((ss + [s])[k]) == key;
    }
    if KeyOf(s) == key {
      assert KeyOf((ss + [s])[|ss|]) == key;
    }
  }

  function FirstOf(ss: seq<Slot>, key: Key): Option<Slot> {
    if ss == [] then None else if KeyOf(ss[0]) == key then Some(ss[0]) else FirstOf(ss[1..], key)
  }

  ghost predicate SavedAs(ss: seq<Slot>, key: Key, t: Truth) {
    forall k :: 0 <= k < |ss| && KeyOf(ss[k]) == key && ss[k].truth.Some? ==> ss[k].truth.value.truth == t
  }

  ghost predicate SomeStored(ss: seq<Slot>, key: Key) {
    exists k :: 0 <= k < |ss| && KeyOf(ss[k]) == key && ss[k].truth.Some? && ss[k].truth.value.status == US_SUCCESS
  }

  /**
   * Serialized truths of the key all agree, and none of them is about to be replaced: the first slot of
   * the key carries the truth, or some slot carries it as stored.
   */
  ghost predicate Keeps(ss: seq<Slot>, key: Key, t: Truth) {
    Occurs(ss, key) && SavedAs(ss, key, t) && (SavedFirst(ss, key) || SomeStored(ss, key))
  }

  ghost predicate SavedFirst(ss: seq<Slot>, key: Key) {
    FirstOf(ss, key).Some? && FirstOf(ss, key).value.truth.Some?
  }

  /** The last serialized truth of the key is stored at the provider. */
  ghost predicate StoredLast(ss: seq<Slot>, key: Key) {
    LastSaved(ss, key).Some? && LastSaved(ss, key).value.status == US_SUCCESS
  }

  /**
   * If a key has serialized truths, all the same, that truth is the one used for uploads and bare
   * slots exactly if the first slot of the key carries it or some slot carries it as stored. Otherwise
   * a new random truth, with another UUID, is uploaded for the key.
   */
  lemma {:induction false} KeepsTruthIff(ss: seq<Slot>, key: Key, t: Truth, freshTruth: Key -> Truth)
    requires SavedAs(ss, key, t) && Occurs(ss, key)
    ensures FirstOf(ss, key).Some? && !PhaseOf(ss, key, freshTruth).Absent?
    ensures Keeps(ss, key, t) ==> PhaseOf(ss, key, freshTruth).t == t
    ensures !Keeps(ss, key, t) ==> PhaseOf(ss, key, freshTruth) == InFlight(freshTruth(key))
  {
    var front, s := ss[..|ss| - 1], ss[|ss| - 1];
    assert ss == front + [s];
    OccursSnoc(front, s, key);
    FirstOfSnoc(front, s, key);
    SomeStoredSnoc(front, s, key);
    UploadedIff(front, key, freshTruth);
    if Occurs(front, key) {
      assert SavedAs(front, key, t);
      KeepsTruthIff(front, key, t, freshTruth);
    } else {
      assert !SomeStored(front, key);
    }
  }

  lemma {:induction false} FirstOfSnoc(ss: seq<Slot>, s: Slot, key: Key)
    ensures FirstOf(ss + [s], key) ==
            if Occurs(ss, key) then FirstOf(ss, key) else if KeyOf(s) == key then Some(s) else None
  {
    if ss == [] {
      assert (ss + [s])[1..] == [];
    } else {
      assert (ss + [s])[1..] == ss[1..] + [s];
      FirstOfSnoc(ss[1..], s, key);
      assert ss == [ss[0]] + ss[1..];
      if KeyOf(ss[0]) != key {
        if k :| 0 <= k < |ss| && KeyOf(ss[k]) == key {
          assert KeyOf(ss[1..][k - 1]) == key;
        }
        if k :| 0 <= k < |ss[1..]| && KeyOf(ss[1..][k]) == key {
          assert KeyOf(ss[k + 1]) == key;
        }
      } else {
        assert Occurs(ss, key);
      }
    }
  }

  lemma SomeStoredSnoc(ss: seq<Slot>, s: Slot, key: Key)
    ensures SomeStored(ss + [s], key) <==>
            SomeStored(ss, key) || (KeyOf(s) == key && s.truth.Some? && s.truth.value.status == US_SUCCESS)
  {
    var all := ss + [s];
    assert all[|ss|] == s && forall k :: 0 <= k < |ss| ==> all[k] == ss[k];
    if k :| 0 <= k < |ss| && KeyOf(ss[k]) == key && ss[k].truth.Some? && ss[k].truth.value.status == US_SUCCESS {
      assert KeyOf(all[k]) == key;
    }
  }

  // ----- where the truth of a key comes from

  /** The truth is serialized as stored in a slot of the key. */
  ghost predicate StoredIn(ss: seq<Slot>, key: Key, t: Truth) {
    exists k :: 0 <= k < |ss| && KeyOf(ss[k]) == key && ss[k].truth == Some(SavedTruth(t, US_SUCCESS))
  }

  /** Some slot of the key has no truth, or this one. */
  ghost predicate Wanted(ss: seq<Slot>, key: Key, t: Truth) {
    exists k :: 0 <= k < |ss| && KeyOf(ss[k]) == key && (ss[k].truth.None? || ss[k].truth.value.truth == t)
  }

  lemma OriginSnoc(ss: seq<Slot>, s: Slot, key: Key, t: Truth)
    ensures StoredIn(ss + [s], key, t) <==>
      StoredIn(ss, key, t) || (KeyOf(s) == key && s.truth == Some(SavedTruth(t, US_SUCCESS)))
    ensures Wanted(ss + [s], key, t) <==>
      Wanted(ss, key, t) || (KeyOf(s) == key && (s.truth.None? || s.truth.value.truth == t))
  {
    var all := ss + [s];
    assert all[|ss|] == s && forall k :: 0 <= k < |ss| ==> all[k] == ss[k];
    if k :| 0 <= k < |ss| && KeyOf(ss[k]) == key && ss[k].truth == Some(SavedTruth(t, US_SUCCESS)) {
      assert KeyOf(all[k]) == key;
    }
    if k :| 0 <= k < |ss| && KeyOf(ss[k]) == key && (ss[k].truth.None? || ss[k].truth.value.truth == t) {
      assert KeyOf(all[k]) == key;
    }
  }

  /** A truth at hand is stored; one in flight is handed on for some slot, or was stored as well. */
  lemma {:induction false} PhaseOrigin(ss: seq<Slot>, key: Key, t: Truth, freshTruth: Key -> Truth)
    ensures PhaseOf(ss, key, freshTruth) == AtHand(t) ==> StoredIn(ss, key, t)
    ensures PhaseOf(ss, key, freshTruth) == InFlight(t) ==> Wanted(ss, key, t) || StoredIn(ss, key, t)
  {
    if ss != [] {
      var front, s := ss[..|ss| - 1], ss[|ss| - 1];
      assert ss == front + [s];
      PhaseOrigin(front, key, t, freshTruth);
      OriginSnoc(front, s, key, t);
    }
  }

  /** All slots of the key carry the same: then so do the first and the last. */
  lemma {:induction false} AllAlike(ss: seq<Slot>, key: Key, sv: SavedTruth)
    requires Occurs(ss, key) && forall k :: 0 <= k < |ss| && KeyOf(ss[k]) == key ==> ss[k].truth == Some(sv)
    ensures Keeps(ss, key, sv.truth) && LastSaved(ss, key) == Some(sv)
  {
    var front, s := ss[..|ss| - 1], ss[|ss| - 1];
    assert ss == front + [s];
    OccursSnoc(front, s, key);
    FirstOfSnoc(front, s, key);
    if Occurs(front, key) {
      AllAlike(front, key, sv);
    }
  }

  /** The truth in use for a key is the new one or one serialized in a slot of the key. */
  lemma {:induction false} PhaseSource(ss: seq<Slot>, key: Key, freshTruth: Key -> Truth)
    ensures var ph := PhaseOf(ss, key, freshTruth);
            ph.Absent? || ph.t == freshTruth(key) || SavedFor(ss, key, ph.t)
  {
    if ss != [] {
      var front, s := ss[..|ss| - 1], ss[|ss| - 1];
      assert ss == front + [s];
      PhaseSource(front, key, freshTruth);
      var t := PhaseOf(ss, key, freshTruth);
      if !t.Absent? {
        SavedForSnoc(front, s, key, t.t);
      }
    }
  }

  ghost predicate SavedFor(ss: seq<Slot>, key: Key, t: Truth) {
    exists k :: 0 <= k < |ss| && KeyOf(ss[k]) == key && ss[k].truth.Some? && ss[k].truth.value.truth == t
  }

  lemma SavedForSnoc(ss: seq<Slot>, s: Slot, key: Key, t: Truth)
    ensures SavedFor(ss, key, t) ==> SavedFor(ss + [s], key, t)
    ensures KeyOf(s) == key && s.truth.Some? && s.truth.value.truth == t ==> SavedFor(ss + [s], key, t)
  {
    var all := ss + [s];
    assert all[|ss|] == s && forall k :: 0 <= k < |ss| ==> all[k] == ss[k];
  }

  /** Without serialized truths a key in use uploads its new truth. */
  lemma {:induction false} BarePhase(ss: seq<Slot>, key: Key, freshTruth: Key -> Truth)
    requires forall k :: 0 <= k < |ss| ==> ss[k].truth.None?
    ensures PhaseOf(ss, key, freshTruth) == if Occurs(ss, key) then InFlight(freshTruth(key)) else Absent
  {
    if ss != [] {
      var front, s := ss[..|ss| - 1], ss[|ss| - 1];
      assert ss == front + [s];
      BarePhase(front, key, freshTruth);
      OccursSnoc(front, s, key);
    }
  }
}
