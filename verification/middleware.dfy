/**
 * The router between store actions and the legacy video layout: each
 * action first goes through the reducers, then a fixed reaction runs on
 * the video layout. Thumbnails are added only for participants named
 * "trainer" (on join) or "trainer"/"active" (on update), and removed for
 * any other name.
 */
module Middleware {
  import opened Wrappers
  import opened Registry
  import VideoLayout

  const TRAINER := "trainer"
  const ACTIVE := "active"

  /** The actions the router reacts to; `Other` stands for every remaining action. */
  datatype Event =
    | ConferenceJoined
    | ConferenceWillLeave
    | ParticipantJoined(participant: Participant)
    | ParticipantLeft(leaving: Id)
    | ParticipantUpdated(updated: Id, name: Option<string>, connectionStatus: Option<string>)
    | DominantSpeakerChanged(speaker: Id)
    | PinParticipant(pin: Option<Id>)
    | SetFilmstripVisible
    | TrackAdded(added: Track)
    | TrackRemoved(removed: Track)
    | Other

  /** The store together with the video layout; the pin is kept in the layout. */
  datatype Conf = Conf(store: Store, layout: VideoLayout.State)

  /** A name that earns a thumbnail on update. */
  predicate Eligible(name: Option<string>) {
    name == Some(ACTIVE) || name == Some(TRAINER)
  }

  /** A participant update: only the fields the action carries are overwritten. */
  function Updated(p: Participant, name: Option<string>, connectionStatus: Option<string>): (r: Participant)
    ensures r.id == p.id && r.local == p.local && r.isFakeParticipant == p.isFakeParticipant
    ensures r.name == (if name.Some? then name else p.name)
    ensures r.connectionStatus == (if connectionStatus.Some? then connectionStatus else p.connectionStatus)
  {
    p.(name := if name.Some? then name else p.name,
       connectionStatus := if connectionStatus.Some? then connectionStatus else p.connectionStatus)
  }

  /** Every copy of `t` dropped from the track list. */
  function WithoutTrack(tracks: seq<Track>, t: Track): (r: seq<Track>)
    ensures forall u :: u in r <==> u in tracks && u != t
    ensures |r| <= |tracks|
  {
    if |tracks| == 0 then []
    else (if tracks[0] == t then [] else [tracks[0]]) + WithoutTrack(tracks[1..], t)
  }

  /**
   * The reducers, as far as the router's reactions read them: joins insert,
   * departures delete (taking a pin on the leaving participant with them),
   * updates overwrite the fields they carry, a dominant-speaker change
   * flags exactly the named participant, pins name a present participant
   * or nobody, tracks are appended or dropped.
   */
  function Next(c: Conf, e: Event): (r: Conf)
    ensures r.layout.(pinned := c.layout.pinned) == c.layout
    ensures e.ParticipantJoined? ==> r.store.participants == c.store.participants[e.participant.id := e.participant]
    ensures e.ParticipantLeft? ==> r.store.participants.Keys == c.store.participants.Keys - {e.leaving}
    ensures e.ParticipantUpdated? ==> r.store.participants.Keys == c.store.participants.Keys
    ensures !e.ParticipantJoined? && !e.ParticipantLeft? && !e.ParticipantUpdated? && !e.DominantSpeakerChanged?
            ==> r.store.participants == c.store.participants
    ensures forall id :: id in r.store.participants && id in c.store.participants
                         && !(e.ParticipantJoined? && id == e.participant.id)
                         && !(e.ParticipantUpdated? && id == e.updated)
                         && !e.DominantSpeakerChanged?
                         ==> r.store.participants[id] == c.store.participants[id]
    ensures e.DominantSpeakerChanged? ==>
              && r.store.participants.Keys == c.store.participants.Keys
              && forall id :: id in c.store.participants ==>
                   var p := c.store.participants[id];
                   r.store.participants[id] == p.(dominantSpeaker := p.id == e.speaker)
    ensures e.ParticipantUpdated? && e.updated in c.store.participants ==>
              r.store.participants[e.updated]
              == Updated(c.store.participants[e.updated], e.name, e.connectionStatus)
    ensures e.PinParticipant? ==>
              r.layout.pinned == (if e.pin.Some? && e.pin.value in c.store.participants then e.pin else None)
    ensures e.ParticipantLeft? && c.layout.pinned == Some(e.leaving) ==> r.layout.pinned.None?
    ensures !e.PinParticipant? && !(e.ParticipantLeft? && c.layout.pinned == Some(e.leaving))
            ==> r.layout.pinned == c.layout.pinned
    ensures !e.TrackAdded? && !e.TrackRemoved? ==> r.store.tracks == c.store.tracks
  {
    var ps := c.store.participants;
    match e
    case ParticipantJoined(p) => c.(store := c.store.(participants := ps[p.id := p]))
    case ParticipantLeft(id) =>
      var pinned := if c.layout.pinned == Some(id) then None else c.layout.pinned;
      Conf(c.store.(participants := ps - {id}), c.layout.(pinned := pinned))
    case ParticipantUpdated(id, name, status) =>
      if id in ps then c.(store := c.store.(participants := ps[id := Updated(ps[id], name, status)])) else c
    case DominantSpeakerChanged(speaker) =>
      c.(store := c.store.(participants := map id | id in ps :: ps[id].(dominantSpeaker := ps[id].id == speaker)))
    case PinParticipant(pin) =>
      c.(layout := c.layout.(pinned := if pin.Some? && pin.value in ps then pin else None))
    case TrackAdded(t) => c.(store := c.store.(tracks := c.store.tracks + [t]))
    case TrackRemoved(t) => c.(store := c.store.(tracks := WithoutTrack(c.store.tracks, t)))
    case _ => c
  }

  /** Every participant record sits under its own id, as `getParticipantById` finds it. */
  predicate KeyedById(store: Store) {
    forall k :: k in store.participants ==> store.participants[k].id == k
  }

  /**
   * What the router needs to run an action without failing: an updated
   * participant must be in the store (the router reads its record), and the
   * stream buffer files each stream under its owner and type.
   */
  predicate CanStep(c: Conf, e: Event) {
    && KeyedById(c.store)
    && VideoLayout.BufferWellFormed(c.layout)
    && (e.ParticipantUpdated? ==> e.updated in c.store.participants)
  }

  /**
   * The reaction to an update of participant `id`, read back from the store
   * after the reducers ran: the local participant's own thumbnail is shown
   * iff its name is eligible; a remote participant gets a thumbnail iff its
   * name is eligible and loses it otherwise; a new connection status
   * refreshes the large video.
   */
  function OnUpdated(st: VideoLayout.State, store: Store, id: Id, status: Option<string>): (r: VideoLayout.State)
    requires KeyedById(store) && id in store.participants
    requires VideoLayout.BufferWellFormed(st)
    ensures VideoLayout.BufferWellFormed(r)
    ensures var p := store.participants[id];
            && (!Truthy(p.local) && Eligible(p.name) ==> r.remoteVideos.Keys == st.remoteVideos.Keys + {id})
            && (!Truthy(p.local) && !Eligible(p.name) ==> r.remoteVideos.Keys == st.remoteVideos.Keys - {id})
    ensures Truthy(store.participants[id].local) ==>
              && r.remoteVideos == st.remoteVideos
              && (r.localThumb.Some? <==> st.localThumb.Some?)
              && (r.localThumb.Some? ==> (r.localThumb.value.visible <==> Eligible(store.participants[id].name)))
    ensures status.None? && (Truthy(store.participants[id].local) || !Eligible(store.participants[id].name))
            ==> r.largeVideo == st.largeVideo
    ensures forall k :: k in r.remoteVideos ==> k in st.remoteVideos || k == id
    ensures forall k :: k in r.remoteVideos && k in st.remoteVideos ==> r.remoteVideos[k].id == st.remoteVideos[k].id
    ensures id in r.remoteVideos && id !in st.remoteVideos ==> r.remoteVideos[id].id == id
  {
    var p := store.participants[id];
    var st1 :=
      if Truthy(p.local) then VideoLayout.SetLocalVideoVisible(st, Eligible(p.name))
      else if Eligible(p.name) then VideoLayout.AddRemoteParticipantContainer(st, store, p)
      else VideoLayout.RemoveParticipantContainer(st, id);
    if status.Some? then VideoLayout.OnParticipantConnectionStatusChanged(st1, store, id) else st1
  }

  /**
   * One action: the reducers run first, then the reaction on the video
   * layout; the store the reaction leaves is the reducers' store. What the
   * reaction does to the layout is stated action by action in the lemmas
   * below.
   */
  function Step(c: Conf, e: Event): (r: Conf)
    requires CanStep(c, e)
    ensures r.store == Next(c, e).store
    ensures KeyedById(r.store)
    ensures VideoLayout.BufferWellFormed(r.layout)
  {
    var c1 := Next(c, e);
    var st := c1.layout;
    var store := c1.store;
    match e
    case ConferenceWillLeave => c1.(layout := VideoLayout.Reset(st))
    case ParticipantJoined(p) =>
      if !Truthy(p.local) && p.name == Some(TRAINER) then
        c1.(layout := VideoLayout.AddRemoteParticipantContainer(st, store, store.participants[p.id]))
      else c1
    case ParticipantLeft(id) => c1.(layout := VideoLayout.RemoveParticipantContainer(st, id))
    case ParticipantUpdated(id, _, status) => c1.(layout := OnUpdated(st, store, id, status))
    case PinParticipant(pin) => c1.(layout := VideoLayout.OnPinChange(st, pin))
    case TrackAdded(t) =>
      if !t.local then c1.(layout := VideoLayout.OnRemoteStreamAdded(st, store, t.stream)) else c1
    case TrackRemoved(t) =>
      if !t.local then c1.(layout := VideoLayout.OnRemoteStreamRemoved(st, t.stream)) else c1
    case _ => c1
  }

  /** Leaving the conference empties the filmstrip and drops the large video. */
  lemma {:induction false} StepWillLeave(c: Conf)
    requires CanStep(c, ConferenceWillLeave)
    ensures var r := Step(c, ConferenceWillLeave);
            r.layout.remoteVideos == map[] && r.layout.localThumb.None? && r.layout.largeVideo.None?
  {
  }

  /**
   * A join adds a thumbnail exactly for a non-local participant named
   * "trainer" that has none yet; existing thumbnails stay as they were.
   */
  lemma {:induction false} StepJoin(c: Conf, p: Participant)
    requires CanStep(c, ParticipantJoined(p))
    ensures var r := Step(c, ParticipantJoined(p));
            var adds := !Truthy(p.local) && p.name == Some(TRAINER) && p.id !in c.layout.remoteVideos;
            && r.layout.remoteVideos.Keys == c.layout.remoteVideos.Keys + (if adds then {p.id} else {})
            && (forall k :: k in c.layout.remoteVideos ==> r.layout.remoteVideos[k] == c.layout.remoteVideos[k])
            && (adds ==> r.layout.remoteVideos[p.id].id == p.id)
  {
    assert Next(c, ParticipantJoined(p)).store.participants[p.id] == p;
  }

  /** A leave removes exactly that participant's thumbnail. */
  lemma {:induction false} StepLeave(c: Conf, id: Id)
    requires CanStep(c, ParticipantLeft(id))
    ensures var r := Step(c, ParticipantLeft(id));
            && r.layout.remoteVideos.Keys == c.layout.remoteVideos.Keys - {id}
            && forall k :: k in r.layout.remoteVideos ==> r.layout.remoteVideos[k].id == c.layout.remoteVideos[k].id
  {
  }

  /**
   * An update of a remote participant adds its thumbnail iff the new name
   * is "trainer" or "active" and removes it otherwise; for the local
   * participant it only sets the local thumbnail's visibility; without a
   * new connection status the large video changes only through a removal.
   */
  lemma {:induction false} StepUpdate(c: Conf, id: Id, name: Option<string>, status: Option<string>)
    requires CanStep(c, ParticipantUpdated(id, name, status))
    ensures var e := ParticipantUpdated(id, name, status);
            var r := Step(c, e);
            var p := Next(c, e).store.participants[id];
            && (!Truthy(p.local) && Eligible(p.name) ==> r.layout.remoteVideos.Keys == c.layout.remoteVideos.Keys + {id})
            && (!Truthy(p.local) && !Eligible(p.name) ==> r.layout.remoteVideos.Keys == c.layout.remoteVideos.Keys - {id})
            && (Truthy(p.local) ==>
                  && r.layout.remoteVideos == c.layout.remoteVideos
                  && (r.layout.localThumb.Some? <==> c.layout.localThumb.Some?)
                  && (r.layout.localThumb.Some? ==> (r.layout.localThumb.value.visible <==> Eligible(p.name))))
            && (status.None? && (Truthy(p.local) || !Eligible(p.name)) ==> r.layout.largeVideo == c.layout.largeVideo)
            && (forall k :: k in r.layout.remoteVideos ==> k in c.layout.remoteVideos || k == id)
            && (forall k :: k in r.layout.remoteVideos && k in c.layout.remoteVideos
                           ==> r.layout.remoteVideos[k].id == c.layout.remoteVideos[k].id)
            && (id in r.layout.remoteVideos && id !in c.layout.remoteVideos ==> r.layout.remoteVideos[id].id == id)
  {
  }

  /**
   * A pin focuses exactly the thumbnail whose id the action names, and no
   * thumbnail when it names nobody.
   */
  lemma {:induction false} StepPin(c: Conf, pin: Option<Id>)
    requires CanStep(c, PinParticipant(pin))
    ensures var r := Step(c, PinParticipant(pin));
            && r.layout.remoteVideos.Keys == c.layout.remoteVideos.Keys
            && forall k :: k in r.layout.remoteVideos ==>
                 && r.layout.remoteVideos[k].id == c.layout.remoteVideos[k].id
                 && (r.layout.remoteVideos[k].focused <==> pin == Some(c.layout.remoteVideos[k].id))
  {
  }

  /**
   * Tracks never add or remove thumbnails; local tracks leave the layout
   * exactly as it was.
   */
  lemma {:induction false} StepTrack(c: Conf, e: Event)
    requires CanStep(c, e) && (e.TrackAdded? || e.TrackRemoved?)
    ensures var r := Step(c, e);
            && r.layout.remoteVideos.Keys == c.layout.remoteVideos.Keys
            && (forall k :: k in r.layout.remoteVideos ==> r.layout.remoteVideos[k].id == c.layout.remoteVideos[k].id)
            && ((e.TrackAdded? && e.added.local) || (e.TrackRemoved? && e.removed.local) ==> r.layout == c.layout)
  {
  }

  /** Joining the conference and filmstrip visibility change nothing. */
  lemma {:induction false} StepIgnores(c: Conf, e: Event)
    requires CanStep(c, e)
    requires e.ConferenceJoined? || e.SetFilmstripVisible? || e.Other?
    ensures Step(c, e) == c
  {
  }

  /**
   * A dominant-speaker change flags exactly the new speaker in the store
   * and touches no other field of any participant; the layout ignores it.
   */
  lemma {:induction false} StepDominant(c: Conf, speaker: Id)
    requires CanStep(c, DominantSpeakerChanged(speaker))
    ensures var r := Step(c, DominantSpeakerChanged(speaker));
            && r.layout == c.layout && r.store.tracks == c.store.tracks
            && r.store.participants.Keys == c.store.participants.Keys
            && forall k :: k in r.store.participants ==>
                 && (r.store.participants[k].dominantSpeaker <==> k == speaker)
                 && r.store.participants[k].(dominantSpeaker := c.store.participants[k].dominantSpeaker)
                    == c.store.participants[k]
  {
  }

  /**
   * The composite invariant: every thumbnail sits under its own id and
   * belongs to a present, non-local participant whose name is "trainer" or
   * "active"; the stream buffer is well formed and the store is keyed by id.
   */
  predicate Inv(c: Conf) {
    && KeyedById(c.store)
    && VideoLayout.BufferWellFormed(c.layout)
    && forall k :: k in c.layout.remoteVideos ==>
         && c.layout.remoteVideos[k].id == k
         && k in c.store.participants
         && !Truthy(c.store.participants[k].local)
         && Eligible(c.store.participants[k].name)
  }

  /** Actions the invariant is kept across: participants join once, updates name a present participant. */
  predicate Enabled(c: Conf, e: Event) {
    && (e.ParticipantJoined? ==> e.participant.id !in c.store.participants)
    && (e.ParticipantUpdated? ==> e.updated in c.store.participants)
  }

  lemma {:induction false} StepKeepsInv(c: Conf, e: Event)
    requires Inv(c) && Enabled(c, e)
    ensures Inv(Step(c, e))
  {
    match e
    case ParticipantJoined(p) => JoinKeepsInv(c, p);
    case ParticipantLeft(id) => LeaveKeepsInv(c, id);
    case ParticipantUpdated(id, name, status) => UpdateKeepsInv(c, id, name, status);
    case TrackAdded(_) => TrackKeepsInv(c, e);
    case TrackRemoved(_) => TrackKeepsInv(c, e);
    case ConferenceWillLeave => StepWillLeave(c);
    case PinParticipant(pin) => StepPin(c, pin);
    case DominantSpeakerChanged(speaker) => DominantKeepsInv(c, speaker);
    case _ => StepIgnores(c, e);
  }

  /** A fresh join can only add a thumbnail for a non-local "trainer". */
  lemma {:induction false} JoinKeepsInv(c: Conf, p: Participant)
    requires Inv(c) && p.id !in c.store.participants
    ensures Inv(Step(c, ParticipantJoined(p)))
  {
    var r := Step(c, ParticipantJoined(p));
    StepJoin(c, p);
    forall k | k in r.layout.remoteVideos
      ensures && r.layout.remoteVideos[k].id == k && k in r.store.participants
              && !Truthy(r.store.participants[k].local) && Eligible(r.store.participants[k].name)
    {
      if k != p.id {
        assert k in c.layout.remoteVideos;
      }
    }
  }

  /** A leave removes the participant and its thumbnail together. */
  lemma {:induction false} LeaveKeepsInv(c: Conf, id: Id)
    requires Inv(c)
    ensures Inv(Step(c, ParticipantLeft(id)))
  {
    var r := Step(c, ParticipantLeft(id));
    StepLeave(c, id);
    forall k | k in r.layout.remoteVideos
      ensures && r.layout.remoteVideos[k].id == k && k in r.store.participants
              && !Truthy(r.store.participants[k].local) && Eligible(r.store.participants[k].name)
    {
      assert k in c.layout.remoteVideos && k != id;
    }
  }

  /** An update adds the thumbnail exactly when the new name is eligible, and removes it otherwise. */
  lemma {:induction false} UpdateKeepsInv(c: Conf, id: Id, name: Option<string>, status: Option<string>)
    requires Inv(c) && id in c.store.participants
    ensures Inv(Step(c, ParticipantUpdated(id, name, status)))
  {
    var e := ParticipantUpdated(id, name, status);
    var r := Step(c, e);
    var c1 := Next(c, e);
    var p := c1.store.participants[id];
    StepUpdate(c, id, name, status);
    forall k | k in r.layout.remoteVideos
      ensures && r.layout.remoteVideos[k].id == k && k in r.store.participants
              && !Truthy(r.store.participants[k].local) && Eligible(r.store.participants[k].name)
    {
      if k == id {
        assert !Truthy(p.local) && Eligible(p.name);
      } else {
        assert k in c.layout.remoteVideos;
      }
    }
  }

  /** A dominant-speaker change touches neither names, local flags nor thumbnails. */
  lemma {:induction false} DominantKeepsInv(c: Conf, speaker: Id)
    requires Inv(c)
    ensures Inv(Step(c, DominantSpeakerChanged(speaker)))
  {
    var r := Step(c, DominantSpeakerChanged(speaker));
    StepDominant(c, speaker);
    forall k | k in r.layout.remoteVideos
      ensures && r.layout.remoteVideos[k].id == k && k in r.store.participants
              && !Truthy(r.store.participants[k].local) && Eligible(r.store.participants[k].name)
    {
      assert r.store.participants[k].local == c.store.participants[k].local;
    }
  }

  /** Tracks never add or remove thumbnails, nor change who they belong to. */
  lemma {:induction false} TrackKeepsInv(c: Conf, e: Event)
    requires Inv(c) && (e.TrackAdded? || e.TrackRemoved?)
    ensures Inv(Step(c, e))
  {
    var r := Step(c, e);
    StepTrack(c, e);
    forall k | k in r.layout.remoteVideos
      ensures && r.layout.remoteVideos[k].id == k && k in r.store.participants
              && !Truthy(r.store.participants[k].local) && Eligible(r.store.participants[k].name)
    {
      assert k in c.layout.remoteVideos;
    }
  }

  /**
   * A run of actions from `c`; `None` when some action is not enabled in
   * the state it meets. The invariant holds after every enabled run.
   */
  function Run(c: Conf, es: seq<Event>): (r: Option<Conf>)
    requires Inv(c)
    ensures r.Some? ==> Inv(r.value)
    ensures r.Some? && |es| > 0 && es[|es| - 1].ConferenceWillLeave? ==> r.value.layout.remoteVideos == map[]
    decreases |es|
  {
    if |es| == 0 then Some(c)
    else
      match Run(c, es[..|es| - 1])
      case None => None
      case Some(c0) =>
        var e := es[|es| - 1];
        if Enabled(c0, e) then
          StepKeepsInv(c0, e);
          if e.ConferenceWillLeave? then StepWillLeave(c0); Some(Step(c0, e))
          else Some(Step(c0, e))
        else None
  }
}
