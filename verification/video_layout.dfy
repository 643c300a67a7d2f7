/**
 * The legacy video layout: the set of remote thumbnails, the buffer of
 * remote streams kept for participants without a thumbnail, the pinned
 * participant and the large-video display. Thumbnails and the large-video
 * manager are opaque records carrying just the fields the layout code
 * reads or writes; the asynchronous large-video calls are applied
 * synchronously as if their promises resolved.
 */
module VideoLayout {
  import opened Wrappers
  import opened Registry

  /** Container type of the shared-video player. */
  const SHARED_VIDEO_CONTAINER_TYPE := "sharedvideo"
  /** Container type of the camera/desktop video player. */
  const VIDEO_CONTAINER_TYPE := "camera"
  /** The default video type handed to the large video. */
  const CAMERA := "camera"
  const TRAINER := "trainer"

  datatype ThumbKind = RemoteVideo | SharedVideoThumb | LocalVideo

  /**
   * A thumbnail: whose it is, what kind, whether it is shown and focused,
   * its flex order once set, and the streams attached to it by type.
   */
  datatype Thumb = Thumb(
    id: Id,
    kind: ThumbKind,
    visible: bool,
    focused: bool,
    orderCss: Option<int>,
    attached: map<string, Stream>)

  /**
   * The large-video manager: the participant on large, the type of the
   * container currently shown, the id of the stream in the video container
   * and the video type it was last given.
   */
  datatype LargeVideo = LargeVideo(
    id: Option<Id>,
    containerType: string,
    streamId: Option<string>,
    videoType: string)

  datatype State = State(
    remoteVideos: map<Id, Thumb>,
    remoteStreams: map<Id, map<string, Stream>>,
    localThumb: Option<Thumb>,
    largeVideo: Option<LargeVideo>,
    pinned: Option<Id>)

  /** A freshly created thumbnail: shown, not focused, no order, nothing attached. */
  function NewThumb(id: Id, kind: ThumbKind): Thumb {
    Thumb(id, kind, true, false, None, map[])
  }

  /** Every remote thumbnail sits under its own id, and the local one is not among them. */
  predicate WellKeyed(st: State) {
    && (forall k :: k in st.remoteVideos ==> st.remoteVideos[k].id == k)
    && (st.localThumb.Some? ==> st.localThumb.value.id !in st.remoteVideos)
  }

  /** Streams filed under participant `id`, each under its own type. */
  predicate FiledUnder(id: Id, m: map<string, Stream>) {
    forall k :: k in m ==> m[k].participantId == id && m[k].kind == k
  }

  /** The stream buffer files every stream under its owner and its type. */
  predicate BufferWellFormed(st: State) {
    forall id :: id in st.remoteStreams ==> FiledUnder(id, st.remoteStreams[id])
  }

  /** `remoteStreams[id] || {}`. */
  function Saved(st: State, id: Id): map<string, Stream> {
    if id in st.remoteStreams then st.remoteStreams[id] else map[]
  }

  /** `getPinnedId()`: the pinned id, an empty id counting as none. */
  function PinnedId(st: State): (r: Option<Id>)
    ensures r.Some? <==> st.pinned.Some? && st.pinned.value != ""
    ensures r.Some? ==> r == st.pinned
  {
    if st.pinned.Some? && st.pinned.value != "" then st.pinned else None
  }

  // ------------------------------------------------------ video type

  /**
   * `getRemoteVideoType(id)`: the shared-video container type for a fake
   * participant, otherwise the video type of the participant's video track,
   * if there is one.
   */
  function GetRemoteVideoType(store: Store, id: Id): (r: Option<string>)
    ensures id in store.participants && store.participants[id].isFakeParticipant
            ==> r == Some(SHARED_VIDEO_CONTAINER_TYPE)
    ensures !(id in store.participants && store.participants[id].isFakeParticipant)
            ==> (r.Some? <==> exists t :: t in store.tracks && t.stream.participantId == id && t.stream.kind == VIDEO)
    ensures !(id in store.participants && store.participants[id].isFakeParticipant) && r.Some?
            ==> exists t :: FirstVideoAt(store.tracks, id, t) && t.videoType == r.value
  {
    if id in store.participants && store.participants[id].isFakeParticipant then
      Some(SHARED_VIDEO_CONTAINER_TYPE)
    else
      match VideoTrackOf(store.tracks, id)
      case Some(t) => Some(t.videoType)
      case None => None
  }

  // ------------------------------------------------------ large video

  /** `LargeVideoManager.isVideoContainer(type)`. */
  predicate IsVideoContainer(containerType: string) {
    containerType == VIDEO_CONTAINER_TYPE
  }

  /** `videoStream?.getId() || null`: an empty stream id counts as none. */
  function StreamIdOf(stream: Option<Stream>): (r: Option<string>)
    ensures r.Some? <==> stream.Some? && stream.value.streamId != ""
    ensures r.Some? ==> r.value == stream.value.streamId
  {
    if stream.Some? && stream.value.streamId != "" then Some(stream.value.streamId) else None
  }

  /** The participant's video stream: the stream of its first video track. */
  function VideoStreamOf(store: Store, id: Id): (r: Option<Stream>)
    ensures r.Some? <==> VideoTrackOf(store.tracks, id).Some?
    ensures r.Some? ==> r.value == VideoTrackOf(store.tracks, id).value.stream
  {
    match VideoTrackOf(store.tracks, id)
    case Some(t) => Some(t.stream)
    case None => None
  }

  /**
   * The video type `updateLargeVideo` hands on: the participant's remote
   * video type, or camera when it has none or an empty one.
   */
  function VideoTypeOrCamera(store: Store, id: Id): (v: string)
    ensures v != ""
    ensures match GetRemoteVideoType(store, id)
            case Some(t) => v == (if t == "" then CAMERA else t)
            case None => v == CAMERA
  {
    var vt := GetRemoteVideoType(store, id);
    if vt.Some? && vt.value != "" then vt.value else CAMERA
  }

  /** What `updateLargeVideo` hands to the manager. */
  datatype Request = Request(id: Id, stream: Option<Stream>, videoType: string)

  /**
   * The decision inside `updateLargeVideo`: an unforced call for the
   * participant already on large becomes forced when the video container is
   * showing a stream other than the participant's current one; an update is
   * requested when the participant is not on large or the call is forced.
   * The video type falls back to camera when the participant has none.
   */
  function LargeVideoRequest(lv: LargeVideo, store: Store, id: Id, force: bool): (r: Option<Request>)
    ensures r.Some? <==>
              || lv.id != Some(id) || force
              || (&& IsVideoContainer(lv.containerType)
                  && VideoTrackOf(store.tracks, id).Some?
                  && lv.streamId != StreamIdOf(VideoStreamOf(store, id)))
    ensures r.Some? ==> && r.value.id == id
                        && r.value.stream == VideoStreamOf(store, id)
                        && r.value.videoType == VideoTypeOrCamera(store, id)
  {
    var isOnLarge := lv.id == Some(id);
    var videoStream := VideoStreamOf(store, id);
    var forced := force || (isOnLarge && IsVideoContainer(lv.containerType) && videoStream.Some?
                            && lv.streamId != StreamIdOf(videoStream));
    if !isOnLarge || forced then
      Some(Request(id, videoStream, VideoTypeOrCamera(store, id)))
    else None
  }

  /** The manager once it has displayed `req`. */
  function Display(lv: LargeVideo, req: Request): (r: LargeVideo)
    ensures r.id == Some(req.id) && r.containerType == lv.containerType
    ensures r.streamId == StreamIdOf(req.stream) && r.videoType == req.videoType
  {
    lv.(id := Some(req.id), streamId := StreamIdOf(req.stream), videoType := req.videoType)
  }

  /** `updateLargeVideo(id, force)`: nothing without a manager. */
  function UpdateLargeVideo(large: Option<LargeVideo>, store: Store, id: Id, force: bool): (r: Option<LargeVideo>)
    ensures large.None? ==> r.None?
    ensures large.Some? ==> r.Some? && r.value.containerType == large.value.containerType
    ensures large.Some? && LargeVideoRequest(large.value, store, id, force).None? ==> r == large
    ensures large.Some? && LargeVideoRequest(large.value, store, id, force).Some? ==>
              && r.value.id == Some(id)
              && r.value.streamId == StreamIdOf(VideoStreamOf(store, id))
              && r.value.videoType == LargeVideoRequest(large.value, store, id, force).value.videoType
  {
    match large
    case None => None
    case Some(lv) =>
      match LargeVideoRequest(lv, store, id, force)
      case None => large
      case Some(req) => Some(Display(lv, req))
  }

  /** `isCurrentlyOnLarge(id)`. */
  predicate IsOnLarge(large: Option<LargeVideo>, id: Id) {
    large.Some? && large.value.id == Some(id)
  }

  /** `_updateLargeVideoIfDisplayed(id, force)`: only the participant on large is updated. */
  function UpdateLargeVideoIfDisplayed(large: Option<LargeVideo>, store: Store, id: Id, force: bool)
    : (r: Option<LargeVideo>)
    ensures !IsOnLarge(large, id) ==> r == large
    ensures r.Some? == large.Some?
    ensures large.Some? ==> r.value.id == large.value.id && r.value.containerType == large.value.containerType
    ensures IsOnLarge(large, id) ==> r == UpdateLargeVideo(large, store, id, force)
  {
    if IsOnLarge(large, id) then UpdateLargeVideo(large, store, id, force) else large
  }

  /**
   * Once the large video has been updated for `id`, an unforced update for
   * `id` against the same store changes nothing.
   */
  lemma {:induction false} UpdateLargeVideoSettles(large: Option<LargeVideo>, store: Store, id: Id, force: bool)
    ensures var once := UpdateLargeVideo(large, store, id, force);
            UpdateLargeVideo(once, store, id, false) == once
  {
  }

  /** A forced update repeated against the same store gives the same display. */
  lemma {:induction false} ForcedUpdateIdempotent(large: Option<LargeVideo>, store: Store, id: Id)
    ensures var once := UpdateLargeVideo(large, store, id, true);
            UpdateLargeVideo(once, store, id, true) == once
  {
  }

  /**
   * `after` is the manager `before` once it has displayed a forced update
   * for `id`: the same container, now showing `id` with its current video
   * stream and video type.
   */
  predicate ForcedRefresh(before: Option<LargeVideo>, after: Option<LargeVideo>, store: Store, id: Id) {
    && before.Some? && after.Some?
    && after.value.id == Some(id)
    && after.value.containerType == before.value.containerType
    && after.value.streamId == StreamIdOf(VideoStreamOf(store, id))
    && after.value.videoType == VideoTypeOrCamera(store, id)
  }

  /**
   * `onVideoMute(id)`: only the large video reacts, and only when `id` is
   * on large, where it is refreshed by force.
   */
  function OnVideoMute(st: State, store: Store, id: Id): (r: State)
    ensures r.(largeVideo := st.largeVideo) == st
    ensures !IsOnLarge(st.largeVideo, id) ==> r == st
    ensures IsOnLarge(st.largeVideo, id) ==> ForcedRefresh(st.largeVideo, r.largeVideo, store, id)
  {
    st.(largeVideo := UpdateLargeVideoIfDisplayed(st.largeVideo, store, id, true))
  }

  lemma {:induction false} OnVideoMuteIdempotent(st: State, store: Store, id: Id)
    ensures OnVideoMute(OnVideoMute(st, store, id), store, id) == OnVideoMute(st, store, id)
  {
    ForcedUpdateIdempotent(st.largeVideo, store, id);
  }

  // ------------------------------------------------------ streams

  /**
   * The buffer with `s` filed under its owner and type, replacing only that
   * slot; nothing outside the buffer changes.
   */
  function Buffered(st: State, s: Stream): (r: State)
    ensures r.(remoteStreams := st.remoteStreams) == st
    ensures s.participantId in r.remoteStreams && s.kind in r.remoteStreams[s.participantId]
    ensures r.remoteStreams[s.participantId][s.kind] == s
    ensures r.remoteStreams[s.participantId].Keys == Saved(st, s.participantId).Keys + {s.kind}
    ensures forall k :: k in Saved(st, s.participantId) && k != s.kind
                        ==> r.remoteStreams[s.participantId][k] == Saved(st, s.participantId)[k]
    ensures forall id :: id in st.remoteStreams && id != s.participantId
                         ==> id in r.remoteStreams && r.remoteStreams[id] == st.remoteStreams[id]
    ensures r.remoteStreams.Keys == st.remoteStreams.Keys + {s.participantId}
    ensures BufferWellFormed(st) ==> BufferWellFormed(r)
  {
    st.(remoteStreams := st.remoteStreams[s.participantId := Saved(st, s.participantId)[s.kind := s]])
  }

  /**
   * `onRemoteStreamAdded(stream)`: the stream is always filed in the buffer
   * under its owner and type, replacing an earlier stream of that type; if
   * the owner has a thumbnail the stream is attached to it, and a non-audio
   * stream refreshes the large video when the owner is on large.
   */
  function OnRemoteStreamAdded(st: State, store: Store, s: Stream): (r: State)
    ensures s.participantId in r.remoteStreams && s.kind in r.remoteStreams[s.participantId]
    ensures r.remoteStreams[s.participantId][s.kind] == s
    ensures r.remoteStreams[s.participantId].Keys == Saved(st, s.participantId).Keys + {s.kind}
    ensures forall k :: k in Saved(st, s.participantId) && k != s.kind
                        ==> r.remoteStreams[s.participantId][k] == Saved(st, s.participantId)[k]
    ensures forall id :: id in st.remoteStreams && id != s.participantId
                         ==> id in r.remoteStreams && r.remoteStreams[id] == st.remoteStreams[id]
    ensures r.remoteStreams.Keys == st.remoteStreams.Keys + {s.participantId}
    ensures r.remoteVideos.Keys == st.remoteVideos.Keys
    ensures forall id :: id in st.remoteVideos && id != s.participantId ==> r.remoteVideos[id] == st.remoteVideos[id]
    ensures s.participantId !in st.remoteVideos ==> r.remoteVideos == st.remoteVideos && r.largeVideo == st.largeVideo
    ensures s.participantId in st.remoteVideos ==>
              var t := st.remoteVideos[s.participantId];
              r.remoteVideos[s.participantId] == t.(attached := t.attached[s.kind := s])
    ensures s.kind == AUDIO || !IsOnLarge(st.largeVideo, s.participantId) ==> r.largeVideo == st.largeVideo
    ensures s.kind != AUDIO && s.participantId in st.remoteVideos && IsOnLarge(st.largeVideo, s.participantId)
            ==> ForcedRefresh(st.largeVideo, r.largeVideo, store, s.participantId)
    ensures r.localThumb == st.localThumb && r.pinned == st.pinned
    ensures BufferWellFormed(st) ==> BufferWellFormed(r)
  {
    var id := s.participantId;
    var st1 := Buffered(st, s);
    if id !in st.remoteVideos then st1
    else
      var t := st.remoteVideos[id];
      var st2 := st1.(remoteVideos := st1.remoteVideos[id := t.(attached := t.attached[s.kind := s])]);
      if s.kind != AUDIO then OnVideoMute(st2, store, id) else st2
  }

  /**
   * `onRemoteStreamRemoved(stream)`: detaches the stream from its owner's
   * thumbnail if it is the one attached for its type; the buffer keeps it.
   */
  function OnRemoteStreamRemoved(st: State, s: Stream): (r: State)
    ensures r.remoteStreams == st.remoteStreams
    ensures r.remoteVideos.Keys == st.remoteVideos.Keys
    ensures forall id :: id in st.remoteVideos && id != s.participantId ==> r.remoteVideos[id] == st.remoteVideos[id]
    ensures s.participantId in st.remoteVideos ==>
              var before := st.remoteVideos[s.participantId].attached;
              var after := r.remoteVideos[s.participantId].attached;
              && s.kind in before && before[s.kind] == s ==> s.kind !in after
    ensures s.participantId in st.remoteVideos ==>
              var before := st.remoteVideos[s.participantId].attached;
              var after := r.remoteVideos[s.participantId].attached;
              forall k :: k in before && (k != s.kind || before[k] != s) ==> k in after && after[k] == before[k]
    ensures r.localThumb == st.localThumb && r.largeVideo == st.largeVideo && r.pinned == st.pinned
  {
    var id := s.participantId;
    if id in st.remoteVideos then
      var t := st.remoteVideos[id];
      var attached := if s.kind in t.attached && t.attached[s.kind] == s then t.attached - {s.kind} else t.attached;
      st.(remoteVideos := st.remoteVideos[id := t.(attached := attached)])
    else st
  }

  /** A stream that was added and then removed is still buffered for a later thumbnail. */
  lemma {:induction false} RemovedStreamStaysBuffered(st: State, store: Store, s: Stream)
    ensures var r := OnRemoteStreamRemoved(OnRemoteStreamAdded(st, store, s), s);
            s.participantId in r.remoteStreams && r.remoteStreams[s.participantId][s.kind] == s
  {
  }

  // ------------------------------------------------------ replay of buffered streams

  /** Whether any of the streams in `m` is not audio. */
  predicate HasNonAudio(m: map<string, Stream>) {
    exists k :: k in m && k != AUDIO
  }

  /** The buffered streams of `id` whose types are in `kinds`. */
  function SavedAmong(st: State, id: Id, kinds: set<string>): map<string, Stream> {
    map k | k in Saved(st, id) && k in kinds :: Saved(st, id)[k]
  }

  /** The replay state before its large-video refresh. */
  function Attached(st: State, id: Id, kinds: set<string>): State
    requires id in st.remoteVideos
  {
    var t := st.remoteVideos[id];
    st.(remoteVideos := st.remoteVideos[id := t.(attached := t.attached + SavedAmong(st, id, kinds))])
  }

  /**
   * The state after the buffered streams of `id` of the types in `kinds`
   * have been replayed: they are attached to the thumbnail of `id`, and the
   * large video is refreshed if one of them is not audio.
   */
  function ReplayedAmong(st: State, store: Store, id: Id, kinds: set<string>): State {
    if id !in st.remoteVideos then st
    else if HasNonAudio(SavedAmong(st, id, kinds)) then OnVideoMute(Attached(st, id, kinds), store, id)
    else Attached(st, id, kinds)
  }

  /** `addSavedRemoteStreams(id)` in closed form: every buffered stream of `id` replayed. */
  function Replayed(st: State, store: Store, id: Id): (r: State)
    ensures r.remoteStreams == st.remoteStreams
    ensures r.remoteVideos.Keys == st.remoteVideos.Keys
    ensures forall k :: k in st.remoteVideos && k != id ==> r.remoteVideos[k] == st.remoteVideos[k]
    ensures id in st.remoteVideos ==>
              r.remoteVideos[id] == st.remoteVideos[id].(attached := st.remoteVideos[id].attached + Saved(st, id))
    ensures id !in st.remoteVideos ==> r == st
    ensures r.localThumb == st.localThumb && r.pinned == st.pinned
    ensures id in st.remoteVideos && IsOnLarge(st.largeVideo, id) && HasNonAudio(Saved(st, id))
            ==> ForcedRefresh(st.largeVideo, r.largeVideo, store, id)
    ensures !(id in st.remoteVideos && IsOnLarge(st.largeVideo, id) && HasNonAudio(Saved(st, id)))
            ==> r.largeVideo == st.largeVideo
  {
    assert SavedAmong(st, id, Saved(st, id).Keys) == Saved(st, id);
    ReplayedAmong(st, store, id, Saved(st, id).Keys)
  }

  /**
   * Re-adding a stream the buffer already holds, for a participant with a
   * thumbnail, only attaches it (and refreshes the large video for video).
   */
  lemma {:induction false} ReaddBuffered(x: State, store: Store, s: Stream)
    requires s.participantId in x.remoteStreams && s.kind in x.remoteStreams[s.participantId]
    requires x.remoteStreams[s.participantId][s.kind] == s
    requires s.participantId in x.remoteVideos
    ensures var t := x.remoteVideos[s.participantId];
            var x1 := x.(remoteVideos := x.remoteVideos[s.participantId := t.(attached := t.attached[s.kind := s])]);
            OnRemoteStreamAdded(x, store, s) == if s.kind != AUDIO then OnVideoMute(x1, store, s.participantId) else x1
  {
    assert x.remoteStreams[s.participantId][s.kind := s] == x.remoteStreams[s.participantId];
    assert x.remoteStreams[s.participantId := x.remoteStreams[s.participantId]] == x.remoteStreams;
  }

  /** One more buffered type among the replayed ones. */
  lemma {:induction false} SavedAmongOneMore(st: State, id: Id, kinds: set<string>, k: string)
    requires k in Saved(st, id)
    ensures SavedAmong(st, id, kinds + {k}) == SavedAmong(st, id, kinds)[k := Saved(st, id)[k]]
    ensures HasNonAudio(SavedAmong(st, id, kinds + {k})) <==> HasNonAudio(SavedAmong(st, id, kinds)) || k != AUDIO
  {
    var rs := SavedAmong(st, id, kinds);
    var rs' := SavedAmong(st, id, kinds + {k});
    assert rs' == rs[k := Saved(st, id)[k]];
    if k != AUDIO { assert k in rs'; }
    if HasNonAudio(rs') {
      var j :| j in rs' && j != AUDIO;
      if j != k { assert j in rs; }
    }
    if HasNonAudio(rs) {
      var j :| j in rs && j != AUDIO;
      assert j in rs';
    }
  }

  /** Attaching one more buffered stream to the replay state. */
  lemma {:induction false} AttachOneMore(st: State, id: Id, kinds: set<string>, k: string)
    requires id in st.remoteVideos && k in Saved(st, id)
    ensures var x := Attached(st, id, kinds);
            var t := x.remoteVideos[id];
            x.(remoteVideos := x.remoteVideos[id := t.(attached := t.attached[k := Saved(st, id)[k]])])
            == Attached(st, id, kinds + {k})
  {
    SavedAmongOneMore(st, id, kinds, k);
    var t := st.remoteVideos[id];
    assert (t.attached + SavedAmong(st, id, kinds))[k := Saved(st, id)[k]]
           == t.attached + SavedAmong(st, id, kinds + {k});
  }

  lemma {:induction false} ReplayOneMoreWithThumb(st: State, store: Store, id: Id, kinds: set<string>, k: string)
    requires BufferWellFormed(st)
    requires id in st.remoteVideos
    requires k in Saved(st, id) && k !in kinds
    ensures OnRemoteStreamAdded(ReplayedAmong(st, store, id, kinds), store, Saved(st, id)[k])
            == ReplayedAmong(st, store, id, kinds + {k})
  {
    var s := Saved(st, id)[k];
    assert FiledUnder(id, st.remoteStreams[id]);
    var before := ReplayedAmong(st, store, id, kinds);
    var rs := SavedAmong(st, id, kinds);
    SavedAmongOneMore(st, id, kinds, k);
    AttachOneMore(st, id, kinds, k);
    ReaddBuffered(before, store, s);
    if HasNonAudio(rs) {
      assert before == OnVideoMute(Attached(st, id, kinds), store, id);
      if k != AUDIO {
        OnVideoMuteIdempotent(Attached(st, id, kinds + {k}), store, id);
      }
    } else {
      assert before == Attached(st, id, kinds);
    }
  }

  /** Replaying one more buffered type extends the replay by that type. */
  lemma {:induction false} ReplayOneMore(st: State, store: Store, id: Id, kinds: set<string>, k: string)
    requires BufferWellFormed(st)
    requires k in Saved(st, id) && k !in kinds
    ensures OnRemoteStreamAdded(ReplayedAmong(st, store, id, kinds), store, Saved(st, id)[k])
            == ReplayedAmong(st, store, id, kinds + {k})
  {
    if id in st.remoteVideos {
      ReplayOneMoreWithThumb(st, store, id, kinds, k);
    } else {
      var s := Saved(st, id)[k];
      assert FiledUnder(id, st.remoteStreams[id]);
      assert st.remoteStreams[id][k := s] == st.remoteStreams[id];
      assert st.remoteStreams[id := st.remoteStreams[id]] == st.remoteStreams;
    }
  }

  /**
   * `addSavedRemoteStreams(id)`: replays each buffered stream of `id`
   * through `onRemoteStreamAdded`, in whatever order the buffer yields them.
   * The replay leaves the buffer as it was.
   */
  method AddSavedRemoteStreams(st: State, store: Store, id: Id) returns (r: State)
    requires BufferWellFormed(st)
    ensures r == Replayed(st, store, id)
    ensures r.remoteStreams == st.remoteStreams
  {
    var rs := Saved(st, id);
    var todo := rs.Keys;
    var done: set<string> := {};
    NothingReplayed(st, store, id);
    r := st;
    while todo != {}
      invariant todo + done == rs.Keys && todo !! done
      invariant r == ReplayedAmong(st, store, id, done)
      decreases |todo|
    {
      var k :| k in todo;
      r := ReplayNext(st, store, id, done, k, r);
      todo := todo - {k};
      done := done + {k};
    }
  }

  /** One turn of the replay loop: hand one more buffered stream to `onRemoteStreamAdded`. */
  method ReplayNext(st: State, store: Store, id: Id, done: set<string>, k: string, r: State)
    returns (next: State)
    requires BufferWellFormed(st)
    requires k in Saved(st, id) && k !in done
    requires r == ReplayedAmong(st, store, id, done)
    ensures next == ReplayedAmong(st, store, id, done + {k})
  {
    ReplayOneMore(st, store, id, done, k);
    next := OnRemoteStreamAdded(r, store, Saved(st, id)[k]);
  }

  /** Replaying no type leaves the state as it is. */
  lemma {:induction false} NothingReplayed(st: State, store: Store, id: Id)
    ensures ReplayedAmong(st, store, id, {}) == st
  {
    assert SavedAmong(st, id, {}) == map[];
    assert !HasNonAudio(SavedAmong(st, id, {}));
    if id in st.remoteVideos {
      assert st.remoteVideos[id].attached + map[] == st.remoteVideos[id].attached;
      assert st.remoteVideos[id := st.remoteVideos[id]] == st.remoteVideos;
    }
  }

  // ------------------------------------------------------ thumbnails

  /**
   * The flex order a thumbnail ends with, given its participant's name and
   * the order it had: -1 for exactly "trainer", 2 for any other non-empty
   * name, and unchanged when the name is missing or empty.
   */
  function OrderFor(name: Option<string>, prior: Option<int>): (o: Option<int>)
    ensures name.None? || name == Some("") ==> o == prior
    ensures name.Some? && name.value != "" ==> (o == Some(-1) <==> name.value == TRAINER)
    ensures name.Some? && name.value != "" ==> (o == Some(2) <==> name.value != TRAINER)
  {
    if name.None? || name.value == "" then prior
    else if name.value == TRAINER then Some(-1)
    else Some(2)
  }

  /**
   * `setRemoteVideoOrder(id)`: a thumbnail gets flex order -1 when its
   * participant is named exactly "trainer" and 2 otherwise; nothing changes
   * when there is no thumbnail or the name is missing or empty. The
   * participant must be in the store when a thumbnail exists.
   */
  function SetRemoteVideoOrder(st: State, store: Store, id: Id): (r: State)
    requires id in st.remoteVideos ==> id in store.participants
    ensures r.remoteVideos.Keys == st.remoteVideos.Keys
    ensures forall k :: k in st.remoteVideos && k != id ==> r.remoteVideos[k] == st.remoteVideos[k]
    ensures id in st.remoteVideos ==>
              var name := store.participants[id].name;
              && r.remoteVideos[id].(orderCss := st.remoteVideos[id].orderCss) == st.remoteVideos[id]
              && (name.None? || name == Some("") ==> r.remoteVideos[id] == st.remoteVideos[id])
              && (name.Some? && name.value != "" ==>
                    && (r.remoteVideos[id].orderCss == Some(-1) <==> name.value == TRAINER)
                    && (r.remoteVideos[id].orderCss == Some(2) <==> name.value != TRAINER))
    ensures r.(remoteVideos := st.remoteVideos) == st
    ensures id in st.remoteVideos ==>
              r.remoteVideos[id].orderCss == OrderFor(store.participants[id].name, st.remoteVideos[id].orderCss)
  {
    if id !in st.remoteVideos then st
    else
      var p := store.participants[id];
      if p.name.None? || p.name.value == "" then st
      else
        var t := st.remoteVideos[id];
        var order := if p.name.value == TRAINER then -1 else 2;
        st.(remoteVideos := st.remoteVideos[id := t.(orderCss := Some(order))])
  }

  /** Setting the order a second time changes nothing. */
  lemma {:induction false} SetRemoteVideoOrderIdempotent(st: State, store: Store, id: Id)
    requires id in st.remoteVideos ==> id in store.participants
    ensures SetRemoteVideoOrder(SetRemoteVideoOrder(st, store, id), store, id) == SetRemoteVideoOrder(st, store, id)
  {
  }

  /** The order depends on the participant's name only, not on the rest of the store. */
  lemma {:induction false} OrderDependsOnNameOnly(st: State, store1: Store, store2: Store, id: Id)
    requires id in st.remoteVideos ==> id in store1.participants && id in store2.participants
    requires id in st.remoteVideos ==> store1.participants[id].name == store2.participants[id].name
    ensures SetRemoteVideoOrder(st, store1, id) == SetRemoteVideoOrder(st, store2, id)
  {
  }

  /**
   * `addRemoteVideoContainer(id, thumb)`: installs the thumbnail, replays the
   * buffered streams of `id` onto it and sets its order.
   */
  function AddRemoteVideoContainer(st: State, store: Store, id: Id, thumb: Thumb): (r: State)
    requires id in store.participants
    requires BufferWellFormed(st)
    ensures r.remoteVideos.Keys == st.remoteVideos.Keys + {id}
    ensures forall k :: k in st.remoteVideos && k != id ==> r.remoteVideos[k] == st.remoteVideos[k]
    ensures r.remoteVideos[id].attached == thumb.attached + Saved(st, id)
    ensures r.remoteVideos[id].id == thumb.id && r.remoteVideos[id].kind == thumb.kind
    ensures r.remoteVideos[id].visible == thumb.visible && r.remoteVideos[id].focused == thumb.focused
    ensures r.remoteVideos[id].orderCss == OrderFor(store.participants[id].name, thumb.orderCss)
    ensures r.remoteStreams == st.remoteStreams
    ensures r.localThumb == st.localThumb && r.pinned == st.pinned
    ensures IsOnLarge(st.largeVideo, id) && HasNonAudio(Saved(st, id))
            ==> ForcedRefresh(st.largeVideo, r.largeVideo, store, id)
    ensures !(IsOnLarge(st.largeVideo, id) && HasNonAudio(Saved(st, id))) ==> r.largeVideo == st.largeVideo
  {
    var st1 := st.(remoteVideos := st.remoteVideos[id := thumb]);
    assert Saved(st1, id) == Saved(st, id);
    SetRemoteVideoOrder(Replayed(st1, store, id), store, id)
  }

  /**
   * `addRemoteParticipantContainer(participant)`: nothing when the id
   * already has a thumbnail or the participant is local; otherwise a
   * shared-video thumbnail for a fake participant and a remote-video
   * thumbnail for anyone else, under the participant's id only.
   */
  function AddRemoteParticipantContainer(st: State, store: Store, p: Participant): (r: State)
    requires p.id in store.participants
    requires BufferWellFormed(st)
    ensures p.id in st.remoteVideos || Truthy(p.local) ==> r == st
    ensures !(p.id in st.remoteVideos || Truthy(p.local)) ==>
              && r.remoteVideos.Keys == st.remoteVideos.Keys + {p.id}
              && r.remoteVideos[p.id].id == p.id
              && r.remoteVideos[p.id].kind == (if p.isFakeParticipant then SharedVideoThumb else RemoteVideo)
              && r.remoteVideos[p.id].visible && !r.remoteVideos[p.id].focused
              && r.remoteVideos[p.id].attached == Saved(st, p.id)
              && r.remoteVideos[p.id].orderCss == OrderFor(store.participants[p.id].name, None)
              && (IsOnLarge(st.largeVideo, p.id) && HasNonAudio(Saved(st, p.id))
                  ==> ForcedRefresh(st.largeVideo, r.largeVideo, store, p.id))
              && (!(IsOnLarge(st.largeVideo, p.id) && HasNonAudio(Saved(st, p.id))) ==> r.largeVideo == st.largeVideo)
    ensures forall k :: k in st.remoteVideos && k != p.id ==> r.remoteVideos[k] == st.remoteVideos[k]
    ensures r.remoteStreams == st.remoteStreams
    ensures r.localThumb == st.localThumb && r.pinned == st.pinned
  {
    if p.id in st.remoteVideos then st
    else if Truthy(p.local) then st
    else
      var kind := if p.isFakeParticipant then SharedVideoThumb else RemoteVideo;
      assert NewThumb(p.id, kind).attached + Saved(st, p.id) == Saved(st, p.id);
      AddRemoteVideoContainer(st, store, p.id, NewThumb(p.id, kind))
  }

  /**
   * `onPinChange(p)`: every thumbnail, local or remote, is focused exactly
   * when its id is the pinned id; nothing else changes.
   */
  function OnPinChange(st: State, pinnedId: Option<Id>): (r: State)
    ensures r.remoteVideos.Keys == st.remoteVideos.Keys
    ensures forall k :: k in r.remoteVideos ==>
              && r.remoteVideos[k].(focused := st.remoteVideos[k].focused) == st.remoteVideos[k]
              && (r.remoteVideos[k].focused <==> pinnedId == Some(st.remoteVideos[k].id))
    ensures r.localThumb.Some? == st.localThumb.Some?
    ensures r.localThumb.Some? ==>
              && r.localThumb.value.(focused := st.localThumb.value.focused) == st.localThumb.value
              && (r.localThumb.value.focused <==> pinnedId == Some(st.localThumb.value.id))
    ensures r.remoteStreams == st.remoteStreams && r.largeVideo == st.largeVideo && r.pinned == st.pinned
  {
    var focus := (t: Thumb) => t.(focused := pinnedId == Some(t.id));
    st.(remoteVideos := map k | k in st.remoteVideos :: focus(st.remoteVideos[k]),
        localThumb := if st.localThumb.Some? then Some(focus(st.localThumb.value)) else None)
  }

  /** The thumbnails that show focus. */
  function Focused(st: State): set<Id> {
    (set k | k in st.remoteVideos && st.remoteVideos[k].focused)
    + (if st.localThumb.Some? && st.localThumb.value.focused then {st.localThumb.value.id} else {})
  }

  /**
   * After a pin change at most one thumbnail is focused: the pinned one,
   * if it has a thumbnail.
   */
  lemma {:induction false} AtMostOneFocused(st: State, pinnedId: Option<Id>)
    requires WellKeyed(st)
    ensures var r := OnPinChange(st, pinnedId);
            && (pinnedId.None? ==> Focused(r) == {})
            && (pinnedId.Some? ==> Focused(r) <= {pinnedId.value})
            && (r.localThumb.Some? && r.localThumb.value.focused ==>
                  forall k :: k in r.remoteVideos ==> !r.remoteVideos[k].focused)
  {
  }

  /**
   * `removeParticipantContainer(id)`: when `id` is pinned the pin is
   * dispatched away, which clears the store's pin and, through the router,
   * unfocuses every thumbnail; then the thumbnail of `id`, if any, is
   * deleted and nothing else.
   */
  function RemoveParticipantContainer(st: State, id: Id): (r: State)
    ensures r.remoteVideos.Keys == st.remoteVideos.Keys - {id}
    ensures PinnedId(st) == Some(id) ==> r.pinned.None?
    ensures PinnedId(st) != Some(id) ==> r.pinned == st.pinned
    ensures PinnedId(st) != Some(id) ==> forall k :: k in r.remoteVideos ==> r.remoteVideos[k] == st.remoteVideos[k]
    ensures PinnedId(st) != Some(id) ==> r.localThumb == st.localThumb
    ensures PinnedId(st) == Some(id) ==>
              forall k :: k in r.remoteVideos ==> r.remoteVideos[k] == st.remoteVideos[k].(focused := false)
    ensures PinnedId(st) == Some(id) && st.localThumb.Some? ==>
              r.localThumb == Some(st.localThumb.value.(focused := false))
    ensures forall k :: k in r.remoteVideos ==> r.remoteVideos[k].id == st.remoteVideos[k].id
    ensures r.localThumb.Some? == st.localThumb.Some?
    ensures r.localThumb.Some? ==> r.localThumb.value.id == st.localThumb.value.id
    ensures r.remoteStreams == st.remoteStreams && r.largeVideo == st.largeVideo
    ensures id !in st.remoteVideos && PinnedId(st) != Some(id) ==> r == st
  {
    var st1 := if PinnedId(st) == Some(id) then OnPinChange(st.(pinned := None), None) else st;
    st1.(remoteVideos := st1.remoteVideos - {id})
  }

  /**
   * Adding a participant's container and removing it again gives back the
   * original thumbnails when no thumbnail existed and nobody was pinned to it.
   */
  lemma {:induction false} AddThenRemove(st: State, store: Store, p: Participant)
    requires p.id in store.participants
    requires BufferWellFormed(st)
    requires p.id !in st.remoteVideos
    requires PinnedId(st) != Some(p.id)
    ensures var r := RemoveParticipantContainer(AddRemoteParticipantContainer(st, store, p), p.id);
            r.remoteVideos == st.remoteVideos && r.remoteStreams == st.remoteStreams
            && r.pinned == st.pinned && r.localThumb == st.localThumb
  {
    var added := AddRemoteParticipantContainer(st, store, p);
    var r := RemoveParticipantContainer(added, p.id);
    assert added.pinned == st.pinned && PinnedId(added) == PinnedId(st);
    assert r.remoteVideos.Keys == st.remoteVideos.Keys;
    assert forall k :: k in st.remoteVideos ==> r.remoteVideos[k] == added.remoteVideos[k] == st.remoteVideos[k];
  }

  /** `setLocalVideoVisible(v)`. */
  function SetLocalVideoVisible(st: State, visible: bool): (r: State)
    ensures r.localThumb.Some? == st.localThumb.Some?
    ensures r.localThumb.Some? ==> r.localThumb.value == st.localThumb.value.(visible := visible)
    ensures r.(localThumb := st.localThumb) == st
  {
    if st.localThumb.Some? then st.(localThumb := Some(st.localThumb.value.(visible := visible))) else st
  }

  /**
   * `onParticipantConnectionStatusChanged(id)`: nothing for the local
   * participant; otherwise a forced large-video refresh when `id` is on large.
   */
  function OnParticipantConnectionStatusChanged(st: State, store: Store, id: Id): (r: State)
    ensures IsLocalId(store, id) || !IsOnLarge(st.largeVideo, id) ==> r == st
    ensures r.(largeVideo := st.largeVideo) == st
    ensures r.largeVideo.Some? == st.largeVideo.Some?
    ensures r.largeVideo.Some? ==> r.largeVideo.value.id == st.largeVideo.value.id
    ensures !IsLocalId(store, id) && IsOnLarge(st.largeVideo, id) ==> ForcedRefresh(st.largeVideo, r.largeVideo, store, id)
  {
    if IsLocalId(store, id) then st else OnVideoMute(st, store, id)
  }

  /**
   * After a connection-status change the large video shows the
   * participant's current stream, so an unforced update has nothing to do.
   */
  lemma {:induction false} ConnectionStatusSettles(st: State, store: Store, id: Id)
    ensures var r := OnParticipantConnectionStatusChanged(st, store, id);
            !IsLocalId(store, id) ==> UpdateLargeVideoIfDisplayed(r.largeVideo, store, id, false) == r.largeVideo
  {
  }

  // ------------------------------------------------------ large-video containers

  datatype ShowOutcome =
    | Rejected
    | AlreadyShown
    | Showing(target: Option<string>)

  /**
   * `showLargeVideoContainer(type, show)`: rejected without a manager;
   * resolved without change when the visibility of `type` already equals
   * `show`; otherwise the manager switches to `type` when showing, and when
   * hiding to the pinned participant's video type, or to the video
   * container when nobody is pinned.
   */
  function ShowLargeVideoContainer(st: State, store: Store, containerType: string, show: bool)
    : (r: (ShowOutcome, State))
    ensures st.largeVideo.None? <==> r.0 == Rejected
    ensures st.largeVideo.Some? && (st.largeVideo.value.containerType == containerType) == show
            <==> r.0 == AlreadyShown
    ensures r.0.Showing? && show ==> r.0.target == Some(containerType)
    ensures r.0.Showing? && !show && PinnedId(st).Some? ==> r.0.target == GetRemoteVideoType(store, PinnedId(st).value)
    ensures r.0.Showing? && !show && PinnedId(st).None? ==> r.0.target == Some(VIDEO_CONTAINER_TYPE)
    ensures r.0.Showing? && r.0.target.Some? ==> r.1.largeVideo == Some(st.largeVideo.value.(containerType := r.0.target.value))
    ensures !(r.0.Showing? && r.0.target.Some?) ==> r.1 == st
    ensures r.1.(largeVideo := st.largeVideo) == st
  {
    if st.largeVideo.None? then (Rejected, st)
    else
      var lv := st.largeVideo.value;
      var isVisible := lv.containerType == containerType;
      if isVisible == show then (AlreadyShown, st)
      else
        var target :=
          if show then Some(containerType)
          else if PinnedId(st).Some? then GetRemoteVideoType(store, PinnedId(st).value)
          else Some(VIDEO_CONTAINER_TYPE);
        match target
        case Some(t) => (Showing(target), st.(largeVideo := Some(lv.(containerType := t))))
        case None => (Showing(target), st)
  }

  /** Hiding a container that was just shown, with nobody pinned, returns to the video container. */
  lemma {:induction false} HideFallsBackToVideo(st: State, store: Store, containerType: string)
    requires st.largeVideo.Some? && PinnedId(st).None?
    requires containerType != VIDEO_CONTAINER_TYPE
    ensures var shown := ShowLargeVideoContainer(st, store, containerType, true).1;
            var hidden := ShowLargeVideoContainer(shown, store, containerType, false);
            hidden.0 == Showing(Some(VIDEO_CONTAINER_TYPE))
            && hidden.1.largeVideo.value.containerType == VIDEO_CONTAINER_TYPE
  {
  }

  // ------------------------------------------------------ reset

  /** `_resetFilmstrip()` in closed form. */
  function ResetFilmstripResult(st: State): (r: State)
    ensures r.remoteVideos == map[] && r.localThumb.None?
    ensures r.remoteStreams == st.remoteStreams && r.largeVideo == st.largeVideo
  {
    var pinned := if PinnedId(st).Some? && PinnedId(st).value in st.remoteVideos then None else st.pinned;
    st.(remoteVideos := map[], localThumb := None, pinned := pinned)
  }

  /**
   * `_resetFilmstrip()`: removes every remote thumbnail through
   * `removeParticipantContainer`, then drops the local thumbnail. The pin is
   * cleared exactly when the pinned participant had a thumbnail; the stream
   * buffer survives.
   */
  method ResetFilmstrip(st: State) returns (r: State)
    ensures r == ResetFilmstripResult(st)
    ensures r.pinned.None? <==> st.pinned.None? || (PinnedId(st).Some? && PinnedId(st).value in st.remoteVideos)
  {
    var todo := st.remoteVideos.Keys;
    r := st;
    while todo != {}
      invariant r.remoteVideos.Keys == todo
      invariant todo <= st.remoteVideos.Keys
      invariant r.remoteStreams == st.remoteStreams && r.largeVideo == st.largeVideo
      invariant PinnedId(st).Some? && PinnedId(st).value in st.remoteVideos && PinnedId(st).value !in todo
                ==> r.pinned.None?
      invariant !(PinnedId(st).Some? && PinnedId(st).value in st.remoteVideos && PinnedId(st).value !in todo)
                ==> r.pinned == st.pinned
      decreases |todo|
    {
      var k :| k in todo;
      r := RemoveParticipantContainer(r, k);
      todo := todo - {k};
    }
    r := r.(remoteVideos := map[], localThumb := None);
  }

  /** `reset()`: the large video is dropped and the filmstrip reset. */
  function Reset(st: State): (r: State)
    ensures r.remoteVideos == map[] && r.localThumb.None? && r.largeVideo.None?
    ensures r.remoteStreams == st.remoteStreams
    ensures r.pinned.None? <==> st.pinned.None? || (PinnedId(st).Some? && PinnedId(st).value in st.remoteVideos)
  {
    ResetFilmstripResult(st.(largeVideo := None))
  }

  // ------------------------------------------------------ queries

  /** The ids whose remote thumbnails are shown. */
  function VisibleIds(st: State): set<Id> {
    set k | k in st.remoteVideos && st.remoteVideos[k].visible
  }

  /**
   * `getAllVisibleThumbnails()`: the local thumbnail first when it is
   * visible, then every visible remote thumbnail, each once.
   */
  method GetAllVisibleThumbnails(st: State) returns (r: seq<Thumb>)
    ensures |r| == |VisibleIds(st)| + (if st.localThumb.Some? && st.localThumb.value.visible then 1 else 0)
    ensures forall i :: 0 <= i < |r| ==> r[i].visible
    ensures st.localThumb.Some? && st.localThumb.value.visible <==> |r| > 0 && Some(r[0]) == st.localThumb
    ensures forall k :: k in st.remoteVideos && st.remoteVideos[k].visible ==> st.remoteVideos[k] in r
    ensures forall i :: 0 <= i < |r| ==> r[i] in st.remoteVideos.Values || Some(r[i]) == st.localThumb
  {
    var remote := VisibleRemoteThumbnails(st);
    if st.localThumb.Some? && st.localThumb.value.visible {
      r := [st.localThumb.value] + remote;
      assert forall i :: 1 <= i < |r| ==> r[i] == remote[i - 1];
    } else {
      r := remote;
      if |r| > 0 {
        assert r[0].visible;
      }
    }
  }

  /** The visible remote thumbnails, each one taken once, in whatever order the map yields them. */
  method VisibleRemoteThumbnails(st: State) returns (r: seq<Thumb>)
    ensures forall i :: 0 <= i < |r| ==> r[i].visible && r[i] in st.remoteVideos.Values
    ensures forall k :: k in st.remoteVideos && st.remoteVideos[k].visible ==> st.remoteVideos[k] in r
    ensures |r| == |VisibleIds(st)|
  {
    r := [];
    var todo := st.remoteVideos.Keys;
    ghost var taken: set<Id> := {};
    while todo != {}
      invariant todo <= st.remoteVideos.Keys
      invariant forall i :: 0 <= i < |r| ==> r[i].visible && r[i] in st.remoteVideos.Values
      invariant forall k :: k in st.remoteVideos && k !in todo && st.remoteVideos[k].visible ==> st.remoteVideos[k] in r
      invariant taken !! todo && taken <= VisibleIds(st)
      invariant forall k :: k in VisibleIds(st) && k !in todo ==> k in taken
      invariant |r| == |taken|
      decreases |todo|
    {
      var k :| k in todo;
      if st.remoteVideos[k].visible {
        r := r + [st.remoteVideos[k]];
        taken := taken + {k};
      }
      todo := todo - {k};
    }
    assert taken == VisibleIds(st);
  }
}
