/**
 * The participant and track records the layout code reads from the store.
 * The store itself belongs to other parts of the application; the layout
 * code only reads snapshots of it.
 */
module Registry {
  import opened Wrappers
  import Text

  type Id = string

  /**
   * A participant as the store holds it. `local` and `name` may be missing
   * (JavaScript `undefined`), which the layout code treats specially;
   * `connectionStatus` is the raw status string when present.
   */
  datatype Participant = Participant(
    id: Id,
    local: Option<bool>,
    name: Option<string>,
    connectionStatus: Option<string>,
    isFakeParticipant: bool,
    dominantSpeaker: bool)

  /** A media stream handle: its owner, its type (`"audio"`, `"video"`) and its id. */
  datatype Stream = Stream(participantId: Id, kind: string, streamId: string)

  /** A track entry of the store: the stream it wraps plus mute state and video type. */
  datatype Track = Track(stream: Stream, local: bool, muted: bool, videoType: string)

  /** Snapshot of the participants and tracks parts of the store. */
  datatype Store = Store(participants: map<Id, Participant>, tracks: seq<Track>)

  const AUDIO := "audio"
  const VIDEO := "video"
  const TRAINER_PREFIX := "Trainer"

  /** JavaScript truthiness of an optional flag: only a present `true` counts. */
  predicate Truthy(flag: Option<bool>) {
    flag == Some(true)
  }

  /** `p.name?.startsWith("Trainer")`: a missing name is not a trainer. */
  predicate IsTrainerNamed(p: Participant) {
    p.name.Some? && Text.StartsWith(p.name.value, TRAINER_PREFIX)
  }

  /**
   * `getTrackByMediaTypeAndParticipant(tracks, VIDEO, id)`: the first video
   * track of participant `id` in store order, if any.
   */
  function VideoTrackOf(tracks: seq<Track>, id: Id): (r: Option<Track>)
    ensures r.None? <==> forall t :: t in tracks ==> !IsVideoOf(t, id)
    ensures r.Some? ==> FirstVideoAt(tracks, id, r.value)
  {
    if |tracks| == 0 then None
    else if IsVideoOf(tracks[0], id) then Some(tracks[0])
    else
      var r := VideoTrackOf(tracks[1..], id);
      if r.Some? then FirstVideoShifts(tracks, id, r.value); r else r
  }

  /** Track `x` is the first video track of participant `id` in `tracks`. */
  predicate FirstVideoAt(tracks: seq<Track>, id: Id, x: Track) {
    exists i :: 0 <= i < |tracks| && tracks[i] == x && IsVideoOf(tracks[i], id)
                && forall j :: 0 <= j < i ==> !IsVideoOf(tracks[j], id)
  }

  /** The first match behind a non-matching head is the first match of the whole list. */
  lemma {:induction false} FirstVideoShifts(tracks: seq<Track>, id: Id, x: Track)
    requires |tracks| > 0 && !IsVideoOf(tracks[0], id)
    requires FirstVideoAt(tracks[1..], id, x)
    ensures FirstVideoAt(tracks, id, x)
  {
    var i :| 0 <= i < |tracks[1..]| && tracks[1..][i] == x && IsVideoOf(tracks[1..][i], id)
             && forall j :: 0 <= j < i ==> !IsVideoOf(tracks[1..][j], id);
    assert tracks[i + 1] == x;
    assert forall j :: 0 <= j < i + 1 ==> !IsVideoOf(tracks[j], id) by {
      forall j | 0 <= j < i + 1 ensures !IsVideoOf(tracks[j], id) {
        if j > 0 { assert tracks[j] == tracks[1..][j - 1]; }
      }
    }
  }

  /** Track `t` is a video track of participant `id`. */
  predicate IsVideoOf(t: Track, id: Id) {
    t.stream.participantId == id && t.stream.kind == VIDEO
  }

  /** `APP.conference.isLocalId(id)`, read from the store's local flag. */
  predicate IsLocalId(store: Store, id: Id) {
    id in store.participants && Truthy(store.participants[id].local)
  }
}
