/**
 * The ordering engine of the filmstrip: which remote participants get a
 * thumbnail, in which order, and which of those thumbnails are hidden.
 * In the application this runs inside the filmstrip's render; here it is
 * a pure function of the participants, tracks, recency list, `lastN`,
 * the layout and the dominant-speaker switch.
 */
module Filmstrip {
  import opened Wrappers
  import opened Registry
  import Text
  import StableSort

  /** A participant with the order key the engine gave it. */
  datatype Ranked = Ranked(p: Participant, order: int)

  /** One remote thumbnail as rendered: participant id, order key, hidden flag. */
  datatype Tile = Tile(id: Id, order: int, hidden: bool)

  const ACTIVE := "active"
  const DESKTOP := "desktop"
  /** The visible cap meaning "no limit". */
  const UNLIMITED := -1
  /** The key a promoted dominant speaker gets. */
  const DOMINANT_ORDER := 3

  function OrderOf(r: Ranked): int {
    r.order
  }

  // ---------------------------------------------------------------- filtering

  /** Whether `p` is kept for the remote strip: never local; trainers only in tile view. */
  predicate KeptAsRemote(p: Participant, tileView: bool) {
    !Truthy(p.local) && (tileView || !IsTrainerNamed(p))
  }

  /**
   * The participants ordered in the remote strip: each kept participant as
   * often as the store lists it (`RemoteParticipantsCount`), in store order
   * (`RemoteParticipantsAppend`).
   */
  function RemoteParticipants(ps: seq<Participant>, tileView: bool): (r: seq<Participant>)
    ensures forall p :: p in r <==> p in ps && KeptAsRemote(p, tileView)
    ensures |r| <= |ps|
  {
    if |ps| == 0 then []
    else
      (if KeptAsRemote(ps[0], tileView) then [ps[0]] else []) + RemoteParticipants(ps[1..], tileView)
  }

  /** The strip of two runs of participants is the strip of the first followed by that of the second. */
  lemma {:induction false} RemoteParticipantsAppend(a: seq<Participant>, b: seq<Participant>, tileView: bool)
    ensures RemoteParticipants(a + b, tileView) == RemoteParticipants(a, tileView) + RemoteParticipants(b, tileView)
  {
    if |a| == 0 {
      assert a + b == b;
    } else {
      RemoteParticipantsAppend(a[1..], b, tileView);
      var h := if KeptAsRemote(a[0], tileView) then [a[0]] else [];
      var x, y := RemoteParticipants(a[1..], tileView), RemoteParticipants(b, tileView);
      assert (a + b)[0] == a[0] && (a + b)[1..] == a[1..] + b;
      assert RemoteParticipants(a + b, tileView) == h + (x + y);
      assert h + (x + y) == (h + x) + y;
    }
  }

  /** A kept participant is in the strip as often as in the store, any other not at all. */
  lemma {:induction false} RemoteParticipantsCount(ps: seq<Participant>, tileView: bool, p: Participant)
    ensures multiset(RemoteParticipants(ps, tileView))[p] == if KeptAsRemote(p, tileView) then multiset(ps)[p] else 0
  {
    if |ps| > 0 {
      RemoteParticipantsCount(ps[1..], tileView, p);
      assert ps == [ps[0]] + ps[1..];
    }
  }

  /** Whether `p` goes to the trainer slot. */
  predicate InTrainerSlot(p: Participant, tileView: bool) {
    !tileView && IsTrainerNamed(p)
  }

  /**
   * The separate trainer slot: participants named like a trainer, shown
   * outside tile view only, each as often as the store lists it
   * (`TrainerSlotCount`), in store order (`TrainerSlotAppend`).
   */
  function TrainerSlot(ps: seq<Participant>, tileView: bool): (r: seq<Participant>)
    ensures forall p :: p in r <==> p in ps && InTrainerSlot(p, tileView)
  {
    if tileView || |ps| == 0 then []
    else (if IsTrainerNamed(ps[0]) then [ps[0]] else []) + TrainerSlot(ps[1..], tileView)
  }

  /** A trainer is in the slot as often as in the store, anyone else not at all. */
  lemma {:induction false} TrainerSlotCount(ps: seq<Participant>, tileView: bool, p: Participant)
    ensures multiset(TrainerSlot(ps, tileView))[p] == if InTrainerSlot(p, tileView) then multiset(ps)[p] else 0
  {
    if |ps| > 0 {
      TrainerSlotCount(ps[1..], tileView, p);
      assert ps == [ps[0]] + ps[1..];
    }
  }

  /** The trainer slot of two runs of participants is the slot of the first followed by that of the second. */
  lemma {:induction false} TrainerSlotAppend(a: seq<Participant>, b: seq<Participant>, tileView: bool)
    ensures TrainerSlot(a + b, tileView) == TrainerSlot(a, tileView) + TrainerSlot(b, tileView)
  {
    if |a| == 0 {
      assert a + b == b;
    } else {
      TrainerSlotAppend(a[1..], b, tileView);
      var h := if InTrainerSlot(a[0], tileView) then [a[0]] else [];
      var x, y := TrainerSlot(a[1..], tileView), TrainerSlot(b, tileView);
      assert (a + b)[0] == a[0] && (a + b)[1..] == a[1..] + b;
      assert TrainerSlot(a + b, tileView) == h + (x + y);
      assert h + (x + y) == (h + x) + y;
    }
  }

  /**
   * Outside tile view every non-local participant is in exactly one of the
   * remote strip and the trainer slot; in tile view all of them are in the
   * remote strip and the trainer slot is empty.
   */
  lemma {:induction false} TrainerSlotComplementsRemote(ps: seq<Participant>, tileView: bool, p: Participant)
    requires p in ps && !Truthy(p.local)
    ensures tileView ==> p in RemoteParticipants(ps, tileView) && TrainerSlot(ps, tileView) == []
    ensures !tileView ==> (p in RemoteParticipants(ps, tileView) <==> p !in TrainerSlot(ps, tileView))
  {
    if tileView {
      assert forall q :: q !in TrainerSlot(ps, tileView);
    }
  }

  // ------------------------------------------------------------ visible cap

  /** How many remote thumbnails may be visible; `UNLIMITED` when `lastN` is below one. */
  function MaxVisible(lastN: int, tileView: bool): (cap: int)
    ensures cap == UNLIMITED <==> lastN < 1
    ensures cap != UNLIMITED ==> 0 <= cap <= lastN
    ensures lastN >= 1 && tileView ==> cap == lastN
  {
    if lastN < 1 then UNLIMITED
    else if tileView then lastN
    else lastN - 1
  }

  /** Outside tile view one slot of `lastN` is kept for the trainer. */
  lemma {:induction false} TileViewShowsOneMore(lastN: int)
    requires lastN >= 1
    ensures MaxVisible(lastN, true) == MaxVisible(lastN, false) + 1
  {
  }

  // ------------------------------------------------------------ order keys

  /** `findIndex` of `id` in the recency list; -1 when absent. */
  function IndexOf(recency: seq<Id>, id: Id): (i: int)
    ensures -1 <= i < |recency|
    ensures i == -1 <==> id !in recency
    ensures i >= 0 ==> recency[i] == id && id !in recency[..i]
  {
    if |recency| == 0 then -1
    else if recency[0] == id then 0
    else
      var j := IndexOf(recency[1..], id);
      assert j >= 0 ==> recency[..j + 1] == [recency[0]] + recency[1..][..j];
      if j == -1 then -1 else j + 1
  }

  /** The participant's first video track is a screen share. */
  predicate IsScreenSharing(tracks: seq<Track>, id: Id) {
    var t := VideoTrackOf(tracks, id);
    t.Some? && t.value.videoType == DESKTOP
  }

  /**
   * `!videoStreamMuted`, where a missing track reads as the truthy
   * placeholder "no stream": only a present, unmuted video track counts.
   */
  predicate VideoUnmuted(tracks: seq<Track>, id: Id) {
    var t := VideoTrackOf(tracks, id);
    t.Some? && !t.value.muted
  }

  /**
   * The order key of a participant: the first matching rule of trainer (1),
   * local flag absent (200), connection not active (100 + recency index),
   * remote screen share (2), recently active (10 + recency index), remote
   * with unmuted video (20), anyone else (30).
   */
  function OrderKey(p: Participant, tracks: seq<Track>, recency: seq<Id>): (r: int)
    requires p.name.Some?
    ensures r == 1 <==> IsTrainerNamed(p)
    ensures !IsTrainerNamed(p) ==> r >= 2
    ensures r == 2 <==> !IsTrainerNamed(p) && p.local == Some(false) && p.connectionStatus == Some(ACTIVE)
                        && !p.isFakeParticipant && IsScreenSharing(tracks, p.id)
    ensures r != DOMINANT_ORDER
    ensures VideoTrackOf(tracks, p.id).None? && p.id !in recency ==> r != 20
  {
    if Text.StartsWith(p.name.value, TRAINER_PREFIX) then 1
    else if p.local.GetOr(true) then 200
    else
      var recent := IndexOf(recency, p.id);
      if p.connectionStatus != Some(ACTIVE) then 100 + recent
      else
        var isRemote := !p.isFakeParticipant && !Truthy(p.local);
        if isRemote && IsScreenSharing(tracks, p.id) then 2
        else if recent > -1 then 10 + recent
        else if isRemote && VideoUnmuted(tracks, p.id) then 20
        else 30
  }

  /**
   * The bands of the order key, each an if-and-only-if: with at most ten
   * recently active participants the bands do not overlap, so the key
   * tells which rule of the chain matched first.
   */
  lemma {:induction false} OrderKeyBands(p: Participant, tracks: seq<Track>, recency: seq<Id>)
    requires p.name.Some? && !IsTrainerNamed(p) && |recency| <= 10
    ensures var r := OrderKey(p, tracks, recency);
            && (r == 200 <==> p.local != Some(false))
            && (99 <= r < 110 <==> p.local == Some(false) && p.connectionStatus != Some(ACTIVE))
            && (99 <= r < 110 ==> r == 100 + IndexOf(recency, p.id))
            && (10 <= r < 20 <==> && p.local == Some(false) && p.connectionStatus == Some(ACTIVE)
                                  && !(!p.isFakeParticipant && IsScreenSharing(tracks, p.id))
                                  && p.id in recency)
            && (10 <= r < 20 ==> r == 10 + IndexOf(recency, p.id))
            && (r == 20 <==> && p.local == Some(false) && p.connectionStatus == Some(ACTIVE)
                             && !p.isFakeParticipant && !IsScreenSharing(tracks, p.id)
                             && p.id !in recency && VideoUnmuted(tracks, p.id))
            && (r == 30 <==> && p.local == Some(false) && p.connectionStatus == Some(ACTIVE)
                             && !(!p.isFakeParticipant && IsScreenSharing(tracks, p.id))
                             && p.id !in recency
                             && !(!p.isFakeParticipant && VideoUnmuted(tracks, p.id)))
  {
  }

  /** Every non-local participant has a name (the key computation reads it unguarded). */
  predicate RemotesNamed(ps: seq<Participant>) {
    forall i :: 0 <= i < |ps| && !Truthy(ps[i].local) ==> ps[i].name.Some?
  }

  /** Pairs each participant with its order key, keeping the order of `ps`. */
  function Rank(ps: seq<Participant>, tracks: seq<Track>, recency: seq<Id>): (r: seq<Ranked>)
    requires forall i :: 0 <= i < |ps| ==> ps[i].name.Some?
    ensures |r| == |ps|
    ensures forall i :: 0 <= i < |ps| ==> r[i].p == ps[i] && r[i].order == OrderKey(ps[i], tracks, recency)
  {
    seq(|ps|, i requires 0 <= i < |ps| => Ranked(ps[i], OrderKey(ps[i], tracks, recency)))
  }

  // ------------------------------------------------------ dominant speaker

  /** `findIndex(p => p?.dominantSpeaker)`. */
  function FirstDominant(s: seq<Ranked>): (i: int)
    ensures -1 <= i < |s|
    ensures i == -1 <==> forall j :: 0 <= j < |s| ==> !s[j].p.dominantSpeaker
    ensures i >= 0 ==> s[i].p.dominantSpeaker && forall j :: 0 <= j < i ==> !s[j].p.dominantSpeaker
  {
    if |s| == 0 then -1
    else if s[0].p.dominantSpeaker then 0
    else
      var j := FirstDominant(s[1..]);
      if j == -1 then -1 else j + 1
  }

  /**
   * The position whose key the override sets to `DOMINANT_ORDER`, if any:
   * the first participant flagged as dominant speaker, and only when the
   * indicator is enabled, the strip is longer than `lastN` and that
   * position is at least `lastN`.
   */
  function DominantIndex(s: seq<Ranked>, lastN: int, dsDisabled: bool): (r: Option<nat>)
    ensures r.Some? ==> && !dsDisabled && |s| > lastN
                        && r.value < |s| && r.value >= lastN && s[r.value].p.dominantSpeaker
                        && forall j :: 0 <= j < r.value ==> !s[j].p.dominantSpeaker
    ensures r.None? ==> || dsDisabled || |s| <= lastN
                        || (forall j :: 0 <= j < |s| ==> !s[j].p.dominantSpeaker)
                        || (exists j :: 0 <= j < |s| && j < lastN && s[j].p.dominantSpeaker)
  {
    if !dsDisabled && |s| > lastN then
      var i := FirstDominant(s);
      if i != -1 && i >= lastN then Some(i) else None
    else None
  }

  /** `s` with the key at `i` set to `DOMINANT_ORDER`. */
  function Promote(s: seq<Ranked>, i: nat): (t: seq<Ranked>)
    requires i < |s|
    ensures |t| == |s| && t[i].p == s[i].p && t[i].order == DOMINANT_ORDER
    ensures forall j :: 0 <= j < |s| && j != i ==> t[j] == s[j]
  {
    s[i := s[i].(order := DOMINANT_ORDER)]
  }

  /**
   * The dominant-speaker override on a sorted strip: at most one key
   * changes (to `DOMINANT_ORDER`) and the strip is sorted again; when the
   * override does not apply the strip is returned as it was.
   */
  function DominantOverride(s: seq<Ranked>, lastN: int, dsDisabled: bool): (r: seq<Ranked>)
    requires StableSort.Sorted(s, OrderOf)
    ensures StableSort.Sorted(r, OrderOf)
    ensures |r| == |s|
    ensures DominantIndex(s, lastN, dsDisabled).None? ==> r == s
    ensures DominantIndex(s, lastN, dsDisabled).Some? ==>
              var i := DominantIndex(s, lastN, dsDisabled).value;
              multiset(r) == multiset(s) - multiset{s[i]} + multiset{s[i].(order := DOMINANT_ORDER)}
    ensures DominantIndex(s, lastN, dsDisabled).Some? ==>
              var i := DominantIndex(s, lastN, dsDisabled).value;
              forall k :: StableSort.WithKey(r, OrderOf, k) == StableSort.WithKey(Promote(s, i), OrderOf, k)
  {
    if !dsDisabled && |s| > lastN then
      var i := FirstDominant(s);
      var t := if i != -1 && i >= lastN then Promote(s, i) else s;
      StableSort.SortSortedIsIdentity(s, OrderOf);
      StableSort.SortIsStableForAllKeys(t, OrderOf);
      assert i != -1 && i >= lastN ==> t == s[i := s[i].(order := DOMINANT_ORDER)];
      StableSort.Sort(t, OrderOf)
    else s
  }

  /**
   * Promoting position `i` moves that entry alone out of its band: every
   * other band keeps its entries in their order, and the entry's old band
   * keeps the others in theirs.
   */
  lemma {:induction false} PromoteBands(s: seq<Ranked>, i: nat, k: int)
    requires i < |s| && s[i].order != DOMINANT_ORDER
    ensures k != DOMINANT_ORDER && k != s[i].order ==>
              StableSort.WithKey(Promote(s, i), OrderOf, k) == StableSort.WithKey(s, OrderOf, k)
    ensures k == s[i].order ==>
              && StableSort.WithKey(s, OrderOf, k)
                 == StableSort.WithKey(s[..i], OrderOf, k) + [s[i]] + StableSort.WithKey(s[i + 1..], OrderOf, k)
              && StableSort.WithKey(Promote(s, i), OrderOf, k)
                 == StableSort.WithKey(s[..i], OrderOf, k) + StableSort.WithKey(s[i + 1..], OrderOf, k)
  {
    var t := Promote(s, i);
    var before, after := s[..i], s[i + 1..];
    assert s == before + ([s[i]] + after);
    assert t == before + ([t[i]] + after);
    StableSort.WithKeyAppend(before, [s[i]] + after, OrderOf, k);
    StableSort.WithKeyAppend(before, [t[i]] + after, OrderOf, k);
    StableSort.WithKeyCons(s[i], after, OrderOf, k);
    StableSort.WithKeyCons(t[i], after, OrderOf, k);
  }

  // ------------------------------------------------------------- visibility

  /** Marks position `i` hidden iff the cap is set and `cap - 1 < i`. */
  function Tiles(s: seq<Ranked>, cap: int): (r: seq<Tile>)
    ensures |r| == |s|
    ensures forall i :: 0 <= i < |s| ==> r[i].id == s[i].p.id && r[i].order == s[i].order
    ensures forall i :: 0 <= i < |s| ==> (r[i].hidden <==> cap != UNLIMITED && i >= cap)
  {
    seq(|s|, i requires 0 <= i < |s| => Tile(s[i].p.id, s[i].order, cap != UNLIMITED && cap - 1 < i))
  }

  function CountVisible(r: seq<Tile>): (n: nat)
    ensures n <= |r|
  {
    if |r| == 0 then 0 else (if r[|r| - 1].hidden then 0 else 1) + CountVisible(r[..|r| - 1])
  }

  /** With a cap, exactly `min(cap, |s|)` thumbnails are visible; without one, all are. */
  lemma {:induction false} VisibleCount(s: seq<Ranked>, cap: int)
    requires cap >= UNLIMITED
    ensures CountVisible(Tiles(s, cap)) == if cap == UNLIMITED || |s| <= cap then |s| else cap
  {
    if |s| > 0 {
      var s' := s[..|s| - 1];
      VisibleCount(s', cap);
      assert Tiles(s, cap)[..|s| - 1] == Tiles(s', cap);
    }
  }

  // --------------------------------------------------------------- pipeline

  function Ids(s: seq<Ranked>): (r: seq<Id>)
    ensures |r| == |s| && forall i :: 0 <= i < |s| ==> r[i] == s[i].p.id
  {
    seq(|s|, i requires 0 <= i < |s| => s[i].p.id)
  }

  function TileIds(r: seq<Tile>): (ids: seq<Id>)
    ensures |ids| == |r| && forall i :: 0 <= i < |r| ==> ids[i] == r[i].id
  {
    seq(|r|, i requires 0 <= i < |r| => r[i].id)
  }

  function ParticipantIds(ps: seq<Participant>): seq<Id> {
    seq(|ps|, i requires 0 <= i < |ps| => ps[i].id)
  }

  /** The participants of a ranked strip, in its order. */
  function Parts(s: seq<Ranked>): (r: seq<Participant>)
    ensures |r| == |s| && forall i :: 0 <= i < |s| ==> r[i] == s[i].p
  {
    seq(|s|, i requires 0 <= i < |s| => s[i].p)
  }

  /**
   * The band of key `k` read straight off the store: the participants the
   * remote strip keeps whose order key is `k`, in store order.
   */
  function StoreBand(ps: seq<Participant>, tracks: seq<Track>, recency: seq<Id>, tileView: bool, k: int)
    : seq<Participant>
  {
    if |ps| == 0 then []
    else
      var p := ps[0];
      (if KeptAsRemote(p, tileView) && p.name.Some? && OrderKey(p, tracks, recency) == k then [p] else [])
      + StoreBand(ps[1..], tracks, recency, tileView, k)
  }

  lemma {:induction false} RankAppend(a: seq<Participant>, b: seq<Participant>, tracks: seq<Track>, recency: seq<Id>)
    requires forall i :: 0 <= i < |a| ==> a[i].name.Some?
    requires forall i :: 0 <= i < |b| ==> b[i].name.Some?
    ensures forall i :: 0 <= i < |a + b| ==> (a + b)[i].name.Some?
    ensures Rank(a + b, tracks, recency) == Rank(a, tracks, recency) + Rank(b, tracks, recency)
  {
    assert forall i :: 0 <= i < |a + b| ==> (a + b)[i].name.Some? by {
      forall i | 0 <= i < |a + b| ensures (a + b)[i].name.Some? {
        if i >= |a| { assert (a + b)[i] == b[i - |a|]; }
      }
    }
  }

  lemma {:induction false} PartsAppend(a: seq<Ranked>, b: seq<Ranked>)
    ensures Parts(a + b) == Parts(a) + Parts(b)
  {
  }

  /**
   * Ranking the remote strip and taking the entries of key `k` gives the
   * store's band of key `k`: the filter and the ranking keep store order.
   */
  lemma {:induction false} RankedBand(ps: seq<Participant>, tracks: seq<Track>, recency: seq<Id>, tileView: bool, k: int)
    requires RemotesNamed(ps)
    ensures var remote := RemoteParticipants(ps, tileView);
            && (forall i :: 0 <= i < |remote| ==> remote[i].name.Some?)
            && Parts(StableSort.WithKey(Rank(remote, tracks, recency), OrderOf, k))
               == StoreBand(ps, tracks, recency, tileView, k)
  {
    var remote := RemoteParticipants(ps, tileView);
    assert forall i :: 0 <= i < |remote| ==> remote[i] in ps;
    if |ps| > 0 {
      var rest := ps[1..];
      assert RemotesNamed(rest) by {
        forall i | 0 <= i < |rest| && !Truthy(rest[i].local) ensures rest[i].name.Some? {
          assert rest[i] == ps[i + 1];
        }
      }
      RankedBand(rest, tracks, recency, tileView, k);
      var p := ps[0];
      var head := if KeptAsRemote(p, tileView) then [p] else [];
      var tail := RemoteParticipants(rest, tileView);
      assert remote == head + tail;
      assert forall i :: 0 <= i < |head| ==> head[i].name.Some?;
      RankAppend(head, tail, tracks, recency);
      var rh, rt := Rank(head, tracks, recency), Rank(tail, tracks, recency);
      StableSort.WithKeyAppend(rh, rt, OrderOf, k);
      PartsAppend(StableSort.WithKey(rh, OrderOf, k), StableSort.WithKey(rt, OrderOf, k));
      HeadBand(p, tracks, recency, tileView, k);
    }
  }

  /** The band of key `k` of the ranked one-participant strip. */
  lemma {:induction false} HeadBand(p: Participant, tracks: seq<Track>, recency: seq<Id>, tileView: bool, k: int)
    requires KeptAsRemote(p, tileView) ==> p.name.Some?
    ensures var head := if KeptAsRemote(p, tileView) then [p] else [];
            && (forall i :: 0 <= i < |head| ==> head[i].name.Some?)
            && Parts(StableSort.WithKey(Rank(head, tracks, recency), OrderOf, k))
               == if KeptAsRemote(p, tileView) && p.name.Some? && OrderKey(p, tracks, recency) == k then [p] else []
  {
    var head := if KeptAsRemote(p, tileView) then [p] else [];
    var rh := Rank(head, tracks, recency);
    if KeptAsRemote(p, tileView) {
      assert rh == [Ranked(p, OrderKey(p, tracks, recency))];
      StableSort.WithKeyCons(rh[0], [], OrderOf, k);
      assert rh == [rh[0]] + [];
    } else {
      assert rh == [];
    }
  }

  /** The remote strip after key assignment and the stable sort, before the override. */
  function SortedStrip(ps: seq<Participant>, tracks: seq<Track>, recency: seq<Id>, tileView: bool): (s: seq<Ranked>)
    requires RemotesNamed(ps)
    ensures StableSort.Sorted(s, OrderOf)
  {
    var remote := RemoteParticipants(ps, tileView);
    assert forall i :: 0 <= i < |remote| ==> remote[i] in ps;
    StableSort.Sort(Rank(remote, tracks, recency), OrderOf)
  }

  /** The remote strip in its final order, override included. */
  function Ordered(ps: seq<Participant>, tracks: seq<Track>, recency: seq<Id>,
                   lastN: int, tileView: bool, dsDisabled: bool): seq<Ranked>
    requires RemotesNamed(ps)
  {
    DominantOverride(SortedStrip(ps, tracks, recency, tileView), lastN, dsDisabled)
  }

  /** The rendered remote strip: ordered, with hidden flags against the visible cap. */
  function Layout(ps: seq<Participant>, tracks: seq<Track>, recency: seq<Id>,
                  lastN: int, tileView: bool, dsDisabled: bool): seq<Tile>
    requires RemotesNamed(ps)
  {
    Tiles(Ordered(ps, tracks, recency, lastN, tileView, dsDisabled), MaxVisible(lastN, tileView))
  }

  // ------------------------------------------------------ pipeline properties

  lemma {:induction false} InsertIds(x: Ranked, s: seq<Ranked>)
    requires StableSort.Sorted(s, OrderOf)
    ensures multiset(Ids(StableSort.Insert(x, s, OrderOf))) == multiset{x.p.id} + multiset(Ids(s))
  {
    var r := StableSort.Insert(x, s, OrderOf);
    if |s| == 0 || x.order <= s[0].order {
      assert Ids(r) == [x.p.id] + Ids(s);
    } else {
      var rest := StableSort.Insert(x, s[1..], OrderOf);
      InsertIds(x, s[1..]);
      assert r == [s[0]] + rest;
      assert Ids(r) == [s[0].p.id] + Ids(rest);
      assert Ids(s) == [s[0].p.id] + Ids(s[1..]);
    }
  }

  /** Sorting moves participants around but keeps the multiset of their ids. */
  lemma {:induction false} SortIds(s: seq<Ranked>)
    ensures multiset(Ids(StableSort.Sort(s, OrderOf))) == multiset(Ids(s))
  {
    if |s| > 0 {
      var rest := StableSort.Sort(s[1..], OrderOf);
      SortIds(s[1..]);
      InsertIds(s[0], rest);
      IdsCons(s);
    }
  }

  /** The ids of a non-empty strip: its head's id and the ids of its tail. */
  lemma {:induction false} IdsCons(s: seq<Ranked>)
    requires |s| > 0
    ensures multiset(Ids(s)) == multiset{s[0].p.id} + multiset(Ids(s[1..]))
  {
    assert Ids(s) == [s[0].p.id] + Ids(s[1..]);
  }

  /**
   * The rendered strip holds exactly the remote participants (each as often
   * as in the store), with keys that never decrease, and position `i` is
   * hidden iff a cap is set and `i` is at least the cap.
   */
  lemma {:induction false} LayoutShape(ps: seq<Participant>, tracks: seq<Track>, recency: seq<Id>,
                    lastN: int, tileView: bool, dsDisabled: bool)
    requires RemotesNamed(ps)
    ensures var r := Layout(ps, tracks, recency, lastN, tileView, dsDisabled);
            var cap := MaxVisible(lastN, tileView);
            && multiset(TileIds(r)) == multiset(ParticipantIds(RemoteParticipants(ps, tileView)))
            && (forall i, j :: 0 <= i < j < |r| ==> r[i].order <= r[j].order)
            && (forall i :: 0 <= i < |r| ==> (r[i].hidden <==> cap != UNLIMITED && i >= cap))
  {
    var o := Ordered(ps, tracks, recency, lastN, tileView, dsDisabled);
    var r := Tiles(o, MaxVisible(lastN, tileView));
    assert TileIds(r) == Ids(o);
    OrderedIds(ps, tracks, recency, lastN, tileView, dsDisabled);
  }

  lemma {:induction false} OrderedIds(ps: seq<Participant>, tracks: seq<Track>, recency: seq<Id>,
                   lastN: int, tileView: bool, dsDisabled: bool)
    requires RemotesNamed(ps)
    ensures multiset(Ids(Ordered(ps, tracks, recency, lastN, tileView, dsDisabled)))
            == multiset(ParticipantIds(RemoteParticipants(ps, tileView)))
  {
    var remote := RemoteParticipants(ps, tileView);
    assert forall i :: 0 <= i < |remote| ==> remote[i] in ps;
    var ranked := Rank(remote, tracks, recency);
    assert Ids(ranked) == ParticipantIds(remote);
    SortIds(ranked);
    DominantOverrideIds(SortedStrip(ps, tracks, recency, tileView), lastN, dsDisabled);
  }

  /** The override changes keys, never who is in the strip. */
  lemma {:induction false} DominantOverrideIds(s: seq<Ranked>, lastN: int, dsDisabled: bool)
    requires StableSort.Sorted(s, OrderOf)
    ensures multiset(Ids(DominantOverride(s, lastN, dsDisabled))) == multiset(Ids(s))
  {
    StableSort.SortSortedIsIdentity(s, OrderOf);
    if !dsDisabled && |s| > lastN {
      var i := FirstDominant(s);
      var t := if i != -1 && i >= lastN then Promote(s, i) else s;
      assert Ids(t) == Ids(s);
      SortIds(t);
    }
  }

  /**
   * Participants with equal keys keep their store order: when the override
   * does not apply, every band of the final strip is the store's band; when
   * it promotes a speaker, every band other than the speaker's old one and
   * the promoted key is.
   */
  lemma {:induction false} OrderedIsStable(ps: seq<Participant>, tracks: seq<Track>, recency: seq<Id>,
                        lastN: int, tileView: bool, dsDisabled: bool, k: int)
    requires RemotesNamed(ps)
    ensures var s := SortedStrip(ps, tracks, recency, tileView);
            var d := DominantIndex(s, lastN, dsDisabled);
            d.None? || (k != DOMINANT_ORDER && k != s[d.value].order) ==>
              Parts(StableSort.WithKey(Ordered(ps, tracks, recency, lastN, tileView, dsDisabled), OrderOf, k))
              == StoreBand(ps, tracks, recency, tileView, k)
  {
    var s := SortedStrip(ps, tracks, recency, tileView);
    var remote := RemoteParticipants(ps, tileView);
    assert forall i :: 0 <= i < |remote| ==> remote[i] in ps;
    StableSort.SortIsStable(Rank(remote, tracks, recency), OrderOf, k);
    RankedBand(ps, tracks, recency, tileView, k);
    var d := DominantIndex(s, lastN, dsDisabled);
    if d.Some? && k != DOMINANT_ORDER && k != s[d.value].order {
      SortedStripHasNoDominantKey(ps, tracks, recency, tileView);
      PromoteBands(s, d.value, k);
    }
  }

  /**
   * When the override promotes a speaker, the promoted key holds the
   * speaker alone, and the speaker's old band is the store's band without
   * the speaker, the others in store order.
   */
  lemma {:induction false} OrderedPromotedBands(ps: seq<Participant>, tracks: seq<Track>, recency: seq<Id>,
                             lastN: int, tileView: bool, dsDisabled: bool)
    requires RemotesNamed(ps)
    requires DominantIndex(SortedStrip(ps, tracks, recency, tileView), lastN, dsDisabled).Some?
    ensures var s := SortedStrip(ps, tracks, recency, tileView);
            var i := DominantIndex(s, lastN, dsDisabled).value;
            var o := Ordered(ps, tracks, recency, lastN, tileView, dsDisabled);
            && Parts(StableSort.WithKey(o, OrderOf, DOMINANT_ORDER)) == [s[i].p]
            && exists before, after ::
                 && StoreBand(ps, tracks, recency, tileView, s[i].order) == before + [s[i].p] + after
                 && Parts(StableSort.WithKey(o, OrderOf, s[i].order)) == before + after
  {
    var s := SortedStrip(ps, tracks, recency, tileView);
    var i := DominantIndex(s, lastN, dsDisabled).value;
    var o := Ordered(ps, tracks, recency, lastN, tileView, dsDisabled);
    var k0 := s[i].order;
    var remote := RemoteParticipants(ps, tileView);
    SortedStripHasNoDominantKey(ps, tracks, recency, tileView);
    SpeakerBands(s, i, o);
    RankedBand(ps, tracks, recency, tileView, k0);
    StableSort.SortIsStable(Rank(remote, tracks, recency), OrderOf, k0);
    var before := Parts(StableSort.WithKey(s[..i], OrderOf, k0));
    var after := Parts(StableSort.WithKey(s[i + 1..], OrderOf, k0));
    assert StoreBand(ps, tracks, recency, tileView, k0) == before + [s[i].p] + after;
  }

  /**
   * The bands of a strip `o` that has the bands of `s` with entry `i`
   * promoted: the promoted key holds that entry alone, and its old band
   * loses exactly that entry.
   */
  lemma {:induction false} SpeakerBands(s: seq<Ranked>, i: nat, o: seq<Ranked>)
    requires i < |s| && NoDominantKey(s)
    requires forall k :: StableSort.WithKey(o, OrderOf, k) == StableSort.WithKey(Promote(s, i), OrderOf, k)
    ensures Parts(StableSort.WithKey(o, OrderOf, DOMINANT_ORDER)) == [s[i].p]
    ensures var k0 := s[i].order;
            var before := Parts(StableSort.WithKey(s[..i], OrderOf, k0));
            var after := Parts(StableSort.WithKey(s[i + 1..], OrderOf, k0));
            && Parts(StableSort.WithKey(s, OrderOf, k0)) == before + [s[i].p] + after
            && Parts(StableSort.WithKey(o, OrderOf, k0)) == before + after
  {
    var k0 := s[i].order;
    PromotedKeyAlone(s, i);
    assert StableSort.WithKey(o, OrderOf, DOMINANT_ORDER) == StableSort.WithKey(Promote(s, i), OrderOf, DOMINANT_ORDER);
    assert Parts([Promote(s, i)[i]]) == [s[i].p];
    PromoteBands(s, i, k0);
    assert StableSort.WithKey(o, OrderOf, k0) == StableSort.WithKey(Promote(s, i), OrderOf, k0);
    var wb, wa := StableSort.WithKey(s[..i], OrderOf, k0), StableSort.WithKey(s[i + 1..], OrderOf, k0);
    PartsAppend(wb, [s[i]]);
    PartsAppend(wb + [s[i]], wa);
    PartsAppend(wb, wa);
    assert Parts([s[i]]) == [s[i].p];
  }

  // ------------------------------------------- dominant speaker, corrected

  /**
   * The override as evidently intended: promote the first dominant speaker
   * iff a cap is set and the speaker's position is hidden under it.
   */
  function DominantIndexCorrected(s: seq<Ranked>, cap: int, dsDisabled: bool): (r: Option<nat>)
    ensures r.Some? ==> && !dsDisabled && cap != UNLIMITED && cap <= r.value < |s|
                        && r.value == FirstDominant(s)
    ensures r.None? ==> dsDisabled || cap == UNLIMITED || FirstDominant(s) == -1 || FirstDominant(s) < cap
  {
    if !dsDisabled && cap != UNLIMITED then
      var i := FirstDominant(s);
      if i != -1 && i >= cap then Some(i) else None
    else None
  }

  function DominantOverrideCorrected(s: seq<Ranked>, cap: int, dsDisabled: bool): (r: seq<Ranked>)
    requires StableSort.Sorted(s, OrderOf)
    ensures StableSort.Sorted(r, OrderOf)
    ensures |r| == |s|
    ensures DominantIndexCorrected(s, cap, dsDisabled).None? ==> r == s
    ensures DominantIndexCorrected(s, cap, dsDisabled).Some? ==>
              r == StableSort.Sort(Promote(s, DominantIndexCorrected(s, cap, dsDisabled).value), OrderOf)
  {
    match DominantIndexCorrected(s, cap, dsDisabled)
    case None => s
    case Some(i) => StableSort.Sort(Promote(s, i), OrderOf)
  }

  /** The rendered strip with the corrected override. */
  function LayoutCorrected(ps: seq<Participant>, tracks: seq<Track>, recency: seq<Id>,
                           lastN: int, tileView: bool, dsDisabled: bool): seq<Tile>
    requires RemotesNamed(ps)
  {
    var cap := MaxVisible(lastN, tileView);
    Tiles(DominantOverrideCorrected(SortedStrip(ps, tracks, recency, tileView), cap, dsDisabled), cap)
  }

  predicate NoDominantKey(s: seq<Ranked>) {
    forall j :: 0 <= j < |s| ==> s[j].order != DOMINANT_ORDER
  }

  lemma {:induction false} PromotedKeyAlone(s: seq<Ranked>, i: nat)
    requires i < |s| && NoDominantKey(s)
    ensures StableSort.WithKey(Promote(s, i), OrderOf, DOMINANT_ORDER) == [Promote(s, i)[i]]
  {
    var t := Promote(s, i);
    if i == 0 {
      assert t[1..] == s[1..];
      NoKeyNoneWith(s[1..], DOMINANT_ORDER);
    } else {
      PromotedKeyAlone(s[1..], i - 1);
      assert t[1..] == Promote(s[1..], i - 1);
    }
  }

  lemma {:induction false} NoKeyNoneWith(s: seq<Ranked>, k: int)
    requires forall j :: 0 <= j < |s| ==> s[j].order != k
    ensures StableSort.WithKey(s, OrderOf, k) == []
  {
    if |s| > 0 {
      NoKeyNoneWith(s[1..], k);
    }
  }

  /** Two positions with key `k` give at least two elements with key `k`. */
  lemma {:induction false} TwoWithKey(s: seq<Ranked>, k: int, a: int, b: int)
    requires 0 <= a < b < |s| && s[a].order == k && s[b].order == k
    ensures |StableSort.WithKey(s, OrderOf, k)| >= 2
  {
    if a == 0 {
      StableSort.InWithKey(s[1..], OrderOf, s[b]);
    } else {
      TwoWithKey(s[1..], k, a - 1, b - 1);
    }
  }

  /**
   * The intended property of the override: with the speaker indicator on
   * and a cap set, when fewer than `cap` thumbnails carry a key below the
   * promoted one, the first dominant speaker ends up visible.
   */
  lemma {:induction false} PromotedSpeakerVisible(s: seq<Ranked>, cap: int, dsDisabled: bool)
    requires StableSort.Sorted(s, OrderOf) && NoDominantKey(s)
    requires !dsDisabled && cap != UNLIMITED && FirstDominant(s) != -1
    requires StableSort.CountBelow(s, OrderOf, DOMINANT_ORDER) < cap
    ensures var r := Tiles(DominantOverrideCorrected(s, cap, dsDisabled), cap);
            exists j :: 0 <= j < |r| && r[j].id == s[FirstDominant(s)].p.id && !r[j].hidden
  {
    var i := FirstDominant(s);
    var r := Tiles(DominantOverrideCorrected(s, cap, dsDisabled), cap);
    if i < cap {
      assert r[i].id == s[i].p.id && !r[i].hidden;
    } else {
      var o := StableSort.Sort(Promote(s, i), OrderOf);
      PromotedLandsEarly(s, i);
      var j :| 0 <= j < |o| && o[j] == Promote(s, i)[i] && j <= StableSort.CountBelow(s, OrderOf, DOMINANT_ORDER);
      assert r[j].id == s[i].p.id && !r[j].hidden;
    }
  }

  /**
   * Promoting one entry of a strip without key 3 and sorting again puts it
   * no later than the number of keys below 3 the strip had.
   */
  lemma {:induction false} PromotedLandsEarly(s: seq<Ranked>, i: nat)
    requires StableSort.Sorted(s, OrderOf) && NoDominantKey(s) && i < |s|
    ensures var o := StableSort.Sort(Promote(s, i), OrderOf);
            exists j :: 0 <= j < |o| && o[j] == Promote(s, i)[i]
                        && j <= StableSort.CountBelow(s, OrderOf, DOMINANT_ORDER)
  {
    var t := Promote(s, i);
    var o := StableSort.Sort(t, OrderOf);
    var y := t[i];
    PromotedKeyAlone(s, i);
    StableSort.SortIsStable(t, OrderOf, DOMINANT_ORDER);
    assert StableSort.WithKey(o, OrderOf, DOMINANT_ORDER) == [y];
    StableSort.WithKeyIn(o, OrderOf, DOMINANT_ORDER, y);
    var j :| 0 <= j < |o| && o[j] == y;
    forall m | 0 <= m < |o| && m != j
      ensures o[m].order != o[j].order
    {
      if o[m].order == o[j].order {
        if m < j { TwoWithKey(o, DOMINANT_ORDER, m, j); } else { TwoWithKey(o, DOMINANT_ORDER, j, m); }
      }
    }
    StableSort.UniqueKeyPosition(o, OrderOf, j);
    StableSort.SortCountBelow(t, OrderOf, DOMINANT_ORDER);
    assert t == s[i := y];
    StableSort.CountBelowUpdate(s, OrderOf, DOMINANT_ORDER, i, y);
  }

  /** Keys from `OrderKey` never equal the promoted key. */
  lemma {:induction false} SortedStripHasNoDominantKey(ps: seq<Participant>, tracks: seq<Track>, recency: seq<Id>, tileView: bool)
    requires RemotesNamed(ps)
    ensures NoDominantKey(SortedStrip(ps, tracks, recency, tileView))
  {
    var remote := RemoteParticipants(ps, tileView);
    assert forall i :: 0 <= i < |remote| ==> remote[i] in ps;
    var ranked := Rank(remote, tracks, recency);
    var s := SortedStrip(ps, tracks, recency, tileView);
    forall j | 0 <= j < |s|
      ensures s[j].order != DOMINANT_ORDER
    {
      assert s[j] in multiset(ranked);
      var m :| 0 <= m < |ranked| && ranked[m] == s[j];
    }
  }

  /**
   * With the corrected override, a dominant speaker in the remote strip is
   * shown whenever fewer trainer and screen-share thumbnails precede it
   * than there are visible slots.
   */
  lemma {:induction false} LayoutCorrectedShowsDominantSpeaker(ps: seq<Participant>, tracks: seq<Track>, recency: seq<Id>,
                                            lastN: int, tileView: bool)
    requires RemotesNamed(ps) && lastN >= 1
    requires FirstDominant(SortedStrip(ps, tracks, recency, tileView)) != -1
    requires StableSort.CountBelow(SortedStrip(ps, tracks, recency, tileView), OrderOf, DOMINANT_ORDER)
             < MaxVisible(lastN, tileView)
    ensures var s := SortedStrip(ps, tracks, recency, tileView);
            var r := LayoutCorrected(ps, tracks, recency, lastN, tileView, false);
            exists j :: 0 <= j < |r| && r[j].id == s[FirstDominant(s)].p.id && !r[j].hidden
  {
    SortedStripHasNoDominantKey(ps, tracks, recency, tileView);
    var cap := MaxVisible(lastN, tileView);
    var s := SortedStrip(ps, tracks, recency, tileView);
    assert LayoutCorrected(ps, tracks, recency, lastN, tileView, false)
           == Tiles(DominantOverrideCorrected(s, cap, false), cap);
    PromotedSpeakerVisible(SortedStrip(ps, tracks, recency, tileView), MaxVisible(lastN, tileView), false);
  }

  // ------------------------------------------- dominant speaker, as written

  function Attendee(id: Id, dominant: bool): Participant {
    Participant(id, Some(false), Some(id), Some(ACTIVE), false, dominant)
  }

  const Attendees := [Attendee("a", false), Attendee("b", true), Attendee("c", false)]
  const RecentlyActive: seq<Id> := ["a", "b"]

  lemma {:induction false} AllKeptAreRemote(ps: seq<Participant>, tileView: bool)
    requires forall i :: 0 <= i < |ps| ==> KeptAsRemote(ps[i], tileView)
    ensures RemoteParticipants(ps, tileView) == ps
  {
    if |ps| > 0 {
      AllKeptAreRemote(ps[1..], tileView);
      assert [ps[0]] + ps[1..] == ps;
    }
  }

  lemma {:induction false} AttendeesAreRemote()
    ensures RemotesNamed(Attendees)
    ensures RemoteParticipants(Attendees, false) == Attendees
  {
    assert !IsTrainerNamed(Attendees[0]) && !IsTrainerNamed(Attendees[1]) && !IsTrainerNamed(Attendees[2]);
    AllKeptAreRemote(Attendees, false);
  }

  lemma {:induction false} AttendeeKeys()
    ensures Rank(Attendees, [], RecentlyActive) == AttendeeRanks
  {
    var rec := RecentlyActive;
    assert IndexOf(rec, "a") == 0;
    assert IndexOf(rec[1..], "b") == 0;
    assert IndexOf(rec, "b") == 1;
    assert "c" !in rec;
    assert IndexOf(rec, "c") == -1;
  }

  /** The strip the attendees sort into. */
  const AttendeeRanks := [Ranked(Attendees[0], 10), Ranked(Attendees[1], 11), Ranked(Attendees[2], 30)]

  lemma {:induction false} AttendeeStrip()
    ensures RemotesNamed(Attendees)
    ensures SortedStrip(Attendees, [], RecentlyActive, false) == AttendeeRanks
  {
    AttendeesAreRemote();
    AttendeeKeys();
    AttendeeRanksSorted();
    StableSort.SortSortedIsIdentity(AttendeeRanks, OrderOf);
  }

  lemma {:induction false} AttendeeRanksSorted()
    ensures StableSort.Sorted(AttendeeRanks, OrderOf)
  {
    var s := AttendeeRanks;
    assert |s| == 3 && OrderOf(s[0]) == 10 && OrderOf(s[1]) == 11 && OrderOf(s[2]) == 30;
  }

  /** The speaker is first in the strip among dominant entries and nothing outranks it. */
  lemma {:induction false} AttendeeSpeaker()
    ensures RemotesNamed(Attendees)
    ensures var s := SortedStrip(Attendees, [], RecentlyActive, false);
            && FirstDominant(s) == 1 && s[1].p.id == "b"
            && StableSort.CountBelow(s, OrderOf, DOMINANT_ORDER) == 0
            && DominantIndex(s, 2, false).None?
  {
    AttendeeStrip();
    AttendeeRanksSpeaker();
  }

  /** In the attendees' strip, "b" is the first speaker and no key is below 3. */
  lemma {:induction false} AttendeeRanksSpeaker()
    ensures var s := AttendeeRanks;
            && FirstDominant(s) == 1 && s[1].p.id == "b"
            && StableSort.CountBelow(s, OrderOf, DOMINANT_ORDER) == 0
            && DominantIndex(s, 2, false).None?
  {
    var s := AttendeeRanks;
    assert FirstDominant(s[1..]) == 0;
    assert StableSort.CountBelow(s[2..], OrderOf, DOMINANT_ORDER) == 0;
    assert StableSort.CountBelow(s[1..], OrderOf, DOMINANT_ORDER) == 0;
  }

  /**
   * The override as written leaves a dominant speaker hidden: outside tile
   * view with `lastN` 2 the cap is 1, but a speaker sorted to position 1 is
   * not promoted because 1 is not at least `lastN`. Three active attendees,
   * the first two recently active in that order, the second speaking.
   */
  lemma {:induction false} DominantSpeakerLeftHidden()
    ensures RemotesNamed(Attendees)
    ensures var s := SortedStrip(Attendees, [], RecentlyActive, false);
            var r := Layout(Attendees, [], RecentlyActive, 2, false, false);
            && FirstDominant(s) == 1 && s[1].p.id == "b"
            && StableSort.CountBelow(s, OrderOf, DOMINANT_ORDER) < MaxVisible(2, false)
            && |r| == 3 && r[1].id == "b" && r[1].hidden
  {
    AttendeeStrip();
    AttendeeRanksSpeaker();
    AttendeeLayout();
    AttendeeTiles();
  }

  /** With `lastN` 2 outside tile view, the attendees' strip is rendered unchanged under a cap of one. */
  lemma {:induction false} AttendeeLayout()
    ensures RemotesNamed(Attendees)
    ensures Layout(Attendees, [], RecentlyActive, 2, false, false) == Tiles(AttendeeRanks, 1)
  {
    AttendeeStrip();
    AttendeeRanksSpeaker();
    assert DominantOverride(AttendeeRanks, 2, false) == AttendeeRanks;
    assert Ordered(Attendees, [], RecentlyActive, 2, false, false) == AttendeeRanks;
    assert MaxVisible(2, false) == 1;
  }

  /**
   * With `lastN` 0 there is no cap and every thumbnail is shown, yet the
   * override as written still promotes the speaker, because the strip is
   * longer than 0 and position 1 is at least 0: the speaker jumps ahead of
   * the recently active attendee "a".
   */
  lemma {:induction false} DominantSpeakerReorderedWithoutCap()
    ensures RemotesNamed(Attendees)
    ensures MaxVisible(0, false) == UNLIMITED
    ensures Layout(Attendees, [], RecentlyActive, 0, false, false)
            == [Tile("b", DOMINANT_ORDER, false), Tile("a", 10, false), Tile("c", 30, false)]
  {
    AttendeeStrip();
    AttendeeOverrideWithoutCap();
    assert Ordered(Attendees, [], RecentlyActive, 0, false, false) == PromotedAttendees;
    PromotedAttendeesTiles();
  }

  /** With `lastN` 0 the override promotes "b" in the attendees' strip. */
  lemma {:induction false} AttendeeOverrideWithoutCap()
    ensures DominantOverride(AttendeeRanks, 0, false) == PromotedAttendees
  {
    AttendeeRanksSpeaker();
    AttendeeRanksSorted();
    PromotedAttendeesSorted();
  }

  lemma {:induction false} PromotedAttendeesTiles()
    ensures Tiles(PromotedAttendees, UNLIMITED)
            == [Tile("b", DOMINANT_ORDER, false), Tile("a", 10, false), Tile("c", 30, false)]
  {
  }

  /** The attendees' strip with "b" promoted, sorted again. */
  const PromotedAttendees := [Ranked(Attendees[1], DOMINANT_ORDER), Ranked(Attendees[0], 10), Ranked(Attendees[2], 30)]

  lemma {:induction false} PromotedAttendeesSorted()
    ensures StableSort.Sort(Promote(AttendeeRanks, 1), OrderOf) == PromotedAttendees
  {
    var t := Promote(AttendeeRanks, 1);
    assert t == [AttendeeRanks[0], Ranked(Attendees[1], DOMINANT_ORDER), AttendeeRanks[2]];
    SortThree(t[0], t[1], t[2]);
  }

  /** Sorting three entries whose middle key is the lowest brings it to the front. */
  lemma {:induction false} SortThree(a: Ranked, b: Ranked, c: Ranked)
    requires b.order < a.order < c.order
    ensures StableSort.Sort([a, b, c], OrderOf) == [b, a, c]
  {
    var s := [a, b, c];
    assert s[1..] == [b, c];
    SortTwo(b, c);
    InsertBehind(a, b, c);
  }

  lemma {:induction false} SortTwo(b: Ranked, c: Ranked)
    requires b.order < c.order
    ensures StableSort.Sort([b, c], OrderOf) == [b, c]
  {
    assert [b, c][1..] == [c];
    assert [c][1..] == [];
    assert StableSort.Sort([c], OrderOf) == StableSort.Insert(c, [], OrderOf);
  }

  lemma {:induction false} InsertBehind(a: Ranked, b: Ranked, c: Ranked)
    requires b.order < a.order < c.order
    ensures StableSort.Insert(a, [b, c], OrderOf) == [b, a, c]
  {
    assert [b, c][1..] == [c];
    assert StableSort.Insert(a, [c], OrderOf) == [a, c];
  }

  /** With a cap of one, the second of the attendees' tiles is hidden. */
  lemma {:induction false} AttendeeTiles()
    ensures var r := Tiles(AttendeeRanks, 1);
            |r| == 3 && r[1].id == "b" && r[1].hidden
  {
  }
}
