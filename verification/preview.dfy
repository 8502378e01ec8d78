/**
  The voice preview player: which voice is playing, the active audio
  element, and the cache of preview audio keyed by voice model.

  A preview's object URL is an abstract handle; handles are minted in order
  (0, 1, 2, ...), so a new one is always fresh. Three counters that the
  dashboard does not keep are recorded so that properties about them can be
  stated: how many handles were minted, how many preview requests were sent,
  and which handles were revoked.
 */
module Preview {
  import opened Wrappers
  import opened Voices

  type Handle = nat

  datatype Player = Player(
    playing: Option<int>,
    loadingAudio: bool,
    audio: Option<Handle>,
    cache: map<string, Handle>,
    minted: nat,
    fetches: nat,
    released: set<Handle>)

  /** Nothing playing, nothing cached, nothing fetched. */
  function Mounted(): Player {
    Player(None, false, None, map[], 0, 0, {})
  }

  /**
    Bookkeeping that every reachable state satisfies: each cached handle was
    minted and is still live, different models hold different handles, every
    minted handle is either cached or revoked, nothing is minted without a
    request, and the active audio element plays a cached handle.
   */
  ghost predicate Valid(p: Player) {
    && (forall m :: m in p.cache ==> p.cache[m] < p.minted && p.cache[m] !in p.released)
    && (forall m1, m2 :: m1 in p.cache && m2 in p.cache && m1 != m2 ==> p.cache[m1] != p.cache[m2])
    && (forall h :: h in p.released ==> h < p.minted)
    && (forall h: nat :: h < p.minted ==> h in p.released || h in p.cache.Values)
    && p.minted <= p.fetches
    && (p.audio.Some? ==> p.audio.value in p.cache.Values)
  }

  lemma MountedIsValid()
    ensures Valid(Mounted())
  {
  }

  /** Pausing and dropping the active audio element. */
  function StopAudio(p: Player): (r: Player)
    ensures r.audio == None
  {
    p.(audio := None)
  }

  /**
    The synchronous part of pressing play on a voice that is not playing:
    the previous audio is stopped first and the voice is marked as playing
    before any resource is resolved.
   */
  function BeginPreview(p: Player, voice: Voice): (r: Player)
    ensures r.playing == Some(voice.id) && r.audio == None
    ensures r.cache == p.cache && r.fetches == p.fetches && r.minted == p.minted && r.released == p.released
  {
    StopAudio(p).(playing := Some(voice.id))
  }

  /**
    Resolving the preview for `model` and starting playback: a cache hit
    reuses the handle without a request; a miss sends one request and, when
    it succeeds, caches a fresh handle under the model. A failed request or
    a refused `play()` clears the playing id and the loading flag; a failed
    request caches nothing. `audioRef` keeps the element whose `play()` was
    refused.
   */
  function Resolve(p: Player, model: string, fetchOk: bool, playOk: bool): (r: Player)
    // a hit plays the cached handle, with no request and no new handle
    ensures model in p.cache ==>
      r.fetches == p.fetches && r.cache == p.cache && r.minted == p.minted && r.audio == Some(p.cache[model])
    // a miss sends one request; only a successful one mints a fresh handle, caches it and plays it
    ensures model !in p.cache ==> r.fetches == p.fetches + 1 && !r.loadingAudio
    ensures model !in p.cache && fetchOk ==>
      r.cache == p.cache[model := p.minted] && r.minted == p.minted + 1 && r.audio == Some(p.minted)
    ensures model !in p.cache && !fetchOk ==>
      r.cache == p.cache && r.minted == p.minted && r.audio == p.audio && r.playing == None
    // once a handle is at hand, a refused play() clears the playing id and the loading flag
    ensures (model in p.cache || fetchOk) ==> r.playing == (if playOk then p.playing else None)
    ensures !playOk ==> !r.loadingAudio
    ensures model in p.cache && playOk ==> r.loadingAudio == p.loadingAudio
    ensures r.released == p.released
  {
    if model in p.cache then
      var h := p.cache[model];
      if playOk then p.(audio := Some(h))
      else p.(audio := Some(h), playing := None, loadingAudio := false)
    else
      var sent := p.(loadingAudio := true, fetches := p.fetches + 1);
      if !fetchOk then sent.(playing := None, loadingAudio := false)
      else
        var h := p.minted;
        var cached := sent.(cache := p.cache[model := h], minted := h + 1, loadingAudio := false, audio := Some(h));
        if playOk then cached else cached.(playing := None, loadingAudio := false)
  }

  /**
    `handlePlayPreview(voice)`. `fetchOk` is the outcome of the preview
    request (used only on a cache miss) and `playOk` whether `audio.play()`
    resolved (used only once a handle is at hand).
   */
  function PlayPreview(p: Player, voice: Voice, fetchOk: bool, playOk: bool): (r: Player)
    // pressing the playing voice stops it, with no request and no cache change
    ensures p.playing == Some(voice.id) ==>
      r.playing == None && r.audio == None && r.cache == p.cache && r.fetches == p.fetches
      && r.loadingAudio == p.loadingAudio && r.minted == p.minted
    // at most one voice plays, and if one does it is this one, from its model's cached handle
    ensures r.playing.Some? ==> r.playing == Some(voice.id) && voice.model in r.cache && r.audio == Some(r.cache[voice.model])
    ensures p.playing != Some(voice.id) ==> (r.playing.Some? <==> (voice.model in p.cache || fetchOk) && playOk)
    // the previous element is dropped first; `audioRef` then holds this voice's element, even when its play() is refused
    ensures p.playing != Some(voice.id) ==>
      r.audio == (if voice.model in p.cache then Some(p.cache[voice.model]) else if fetchOk then Some(p.minted) else None)
    // a cache hit sends nothing and changes no cache entry
    ensures voice.model in p.cache ==> r.fetches == p.fetches && r.cache == p.cache
    // a miss sends exactly one request; only a successful one adds an entry, a fresh one, under the model
    ensures p.playing != Some(voice.id) && voice.model !in p.cache ==>
      && r.fetches == p.fetches + 1
      && (fetchOk ==> r.cache == p.cache[voice.model := p.minted] && r.minted == p.minted + 1)
      && (!fetchOk ==> r.cache == p.cache && r.minted == p.minted && r.playing == None)
      && !r.loadingAudio
    // a refused play() clears the playing id and the loading flag; a played hit leaves the flag as it was
    ensures p.playing != Some(voice.id) && !playOk ==> r.playing == None && !r.loadingAudio
    ensures p.playing != Some(voice.id) && voice.model in p.cache && playOk ==> r.loadingAudio == p.loadingAudio
    // entries are never evicted or replaced, and nothing is revoked
    ensures forall m :: m in p.cache ==> m in r.cache && r.cache[m] == p.cache[m]
    ensures r.released == p.released
  {
    if p.playing == Some(voice.id) then StopAudio(p).(playing := None)
    else Resolve(BeginPreview(p, voice), voice.model, fetchOk, playOk)
  }

  /** `audio.onended` and `audio.onerror`: playback stops; the cache is untouched. */
  function PlaybackFinished(p: Player): (r: Player)
    ensures r.playing == None && r.audio == None
    ensures r.cache == p.cache && r.fetches == p.fetches && r.minted == p.minted && r.released == p.released
    ensures r == p.(playing := None, audio := None)
  {
    StopAudio(p).(playing := None)
  }

  /** Unmount cleanup: stop the audio, revoke every cached handle and empty the cache. */
  function Teardown(p: Player): (r: Player)
    ensures r.audio == None && r.cache == map[]
    ensures r.released == p.released + p.cache.Values
  {
    StopAudio(p).(cache := map[], released := p.released + p.cache.Values)
  }

  /**
    Teardown revokes every handle ever minted, and each exactly once: the
    handles it revokes were all live, and afterwards none is left.
   */
  lemma TeardownReleasesEverything(p: Player)
    requires Valid(p)
    ensures p.released !! p.cache.Values
    ensures forall h: nat :: h < p.minted ==> h in Teardown(p).released
    ensures Valid(Teardown(p))
  {
  }

  /** Every transition keeps the bookkeeping valid. */
  lemma PlayPreviewKeepsValid(p: Player, voice: Voice, fetchOk: bool, playOk: bool)
    requires Valid(p)
    ensures Valid(PlayPreview(p, voice, fetchOk, playOk))
    ensures Valid(PlaybackFinished(p))
  {
    var r := PlayPreview(p, voice, fetchOk, playOk);
    if p.playing != Some(voice.id) && voice.model !in p.cache && fetchOk {
      var h := p.minted;
      assert h !in p.cache.Values;
      assert r.cache == p.cache[voice.model := h];
      forall h': nat | h' < r.minted
        ensures h' in r.released || h' in r.cache.Values
      {
        if h' == h {
          assert r.cache[voice.model] == h;
        } else {
          assert h' < p.minted;
          if h' in p.cache.Values {
            var m :| m in p.cache && p.cache[m] == h';
            assert r.cache[m] == h';
          }
        }
      }
      forall m | m in r.cache
        ensures r.cache[m] in r.cache.Values
      {
      }
    }
  }

  /**
    Two presses on voices sharing a model send at most one preview request,
    provided the first request (if any) succeeded.
   */
  lemma SharedModelFetchesOnce(p: Player, a: Voice, b: Voice, playOkA: bool, fetchOkB: bool, playOkB: bool)
    requires a.model == b.model
    ensures var q := PlayPreview(p, a, true, playOkA);
      PlayPreview(q, b, fetchOkB, playOkB).fetches <= p.fetches + 1
  {
    var q := PlayPreview(p, a, true, playOkA);
    if p.playing != Some(a.id) {
      assert a.model in q.cache;
    }
  }

  /**
    Pressing a voice that started playing a second time stops it without
    another request: zero voices play and the request count is unchanged.
   */
  lemma ToggleStops(p: Player, v: Voice, fetchOk: bool, playOk: bool, fetchOk2: bool, playOk2: bool)
    requires PlayPreview(p, v, fetchOk, playOk).playing == Some(v.id)
    ensures var q := PlayPreview(p, v, fetchOk, playOk);
      var r := PlayPreview(q, v, fetchOk2, playOk2);
      r.playing == None && r.fetches == q.fetches && r.cache == q.cache
  {
  }
}
