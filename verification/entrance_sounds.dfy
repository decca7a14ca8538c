/** Entrance sounds: the first Twitch message a viewer sends in a session
    plays the sound configured for them, once. */
module EntranceSounds {
  import opened Wrappers

  /** The platform metadata of a chat message; only Twitch messages carry
      the sender's user id. */
  datatype Metadata = TwitchMetadata(userId: string) | OtherMetadata

  /** The configured sounds: Twitch user id to sound file name. */
  type Sounds = map<string, string>

  /** The handler's session: the users whose sound has played. */
  datatype Handler = Handler(played: set<string>)

  const Fresh: Handler := Handler({})

  /** `RELATIVE_SOUNDBOARD_FILES_DIRECTORY` in POSIX form. */
  const SoundboardDirectory: string := "static/soundboard"

  /** The URL under which a sound file is served. */
  function ClipUrl(filename: string): (r: string)
    ensures |r| == |SoundboardDirectory| + 2 + |filename|
    ensures r[..|SoundboardDirectory| + 2] == "/" + SoundboardDirectory + "/"
    ensures r[|SoundboardDirectory| + 2..] == filename
  {
    "/" + SoundboardDirectory + "/" + filename
  }

  /** Distinct files are served under distinct URLs. */
  lemma ClipUrlInjective(a: string, b: string)
    requires ClipUrl(a) == ClipUrl(b)
    ensures a == b
  {
    assert a == ClipUrl(a)[|SoundboardDirectory| + 2..];
  }

  /** `EntranceSoundCommand`: whose sound it is and the clip to enqueue. */
  datatype SoundCommand = SoundCommand(sender: string, clipUrl: string)

  /** `get_entrance_sound`: a command for a Twitch sender who has not had
      their sound this session and has one configured; nothing otherwise.
      Asking does not mark the sender. */
  function GetEntranceSound(h: Handler, meta: Metadata, sounds: Sounds): (r: Option<SoundCommand>)
    ensures r.Some? <==> meta.TwitchMetadata? && meta.userId !in h.played && meta.userId in sounds
    ensures r.Some? ==> r.value.sender == meta.userId
    ensures r.Some? ==> r.value.clipUrl == ClipUrl(sounds[meta.userId])
  {
    match meta
    case OtherMetadata => None
    case TwitchMetadata(id) =>
      if id in h.played then None
      else if id !in sounds then None
      else Some(SoundCommand(id, ClipUrl(sounds[id])))
  }

  /** A clip put on the soundboard queue, with its volume. */
  datatype QueuedClip = QueuedClip(url: string, volume: real)

  /** `EntranceSoundCommand.trigger`: the sender is marked as played and
      their clip is queued at full volume. */
  function Trigger(h: Handler, c: SoundCommand): (r: (Handler, QueuedClip))
    ensures r.0.played == h.played + {c.sender}
    ensures r.1.url == c.clipUrl && r.1.volume == 1.0
  {
    (Handler(h.played + {c.sender}), QueuedClip(c.clipUrl, 1.0))
  }

  /** `reset_entrance_sounds_session`. */
  function Reset(h: Handler): (r: Handler)
    ensures forall u :: u !in r.played
  {
    Fresh
  }

  /** A stream of messages, each sound triggered as soon as it is offered:
      the final session and the clips queued. */
  function Session(h: Handler, messages: seq<Metadata>, sounds: Sounds): (Handler, seq<SoundCommand>)
    decreases |messages|
  {
    if |messages| == 0 then (h, [])
    else
      match GetEntranceSound(h, messages[0], sounds)
      case None => Session(h, messages[1..], sounds)
      case Some(c) =>
        var rest := Session(Trigger(h, c).0, messages[1..], sounds);
        (rest.0, [c] + rest.1)
  }

  /** Within a session every viewer's sound plays at most once and only for
      a viewer who had not had it yet; every one that played is marked. */
  lemma {:induction false} OncePerSession(h: Handler, messages: seq<Metadata>, sounds: Sounds)
    ensures var (h', played) := Session(h, messages, sounds);
            (forall i, j :: 0 <= i < j < |played| ==> played[i].sender != played[j].sender)
            && (forall i :: 0 <= i < |played| ==> played[i].sender !in h.played && played[i].sender in h'.played)
            && h.played <= h'.played
    decreases |messages|
  {
    if |messages| > 0 {
      match GetEntranceSound(h, messages[0], sounds)
      case None =>
        OncePerSession(h, messages[1..], sounds);
      case Some(c) =>
        var h1 := Trigger(h, c).0;
        OncePerSession(h1, messages[1..], sounds);
    }
  }

  /** Triggering marks the sender, so the next message of theirs plays
      nothing until the session is reset, after which it plays again. */
  lemma TriggerSilencesUntilReset(h: Handler, meta: Metadata, sounds: Sounds)
    requires GetEntranceSound(h, meta, sounds).Some?
    ensures var h' := Trigger(h, GetEntranceSound(h, meta, sounds).value).0;
            GetEntranceSound(h', meta, sounds).None?
            && GetEntranceSound(Reset(h'), meta, sounds) == GetEntranceSound(Fresh, meta, sounds)
            && GetEntranceSound(Reset(h'), meta, sounds).Some?
  {
  }
}
