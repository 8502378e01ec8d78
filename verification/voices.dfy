/**
  The voices list controller's default-voice selection: the card-level
  guard, the POST, and the single-pass rewrite of every voice's default
  flag.
 */
module Voices {
  import opened Wrappers
  import opened Remote

  datatype Voice = Voice(id: int, name: string, model: string, description: Option<string>, isDefault: bool, createdAt: string)

  /** The collection with its load status, and the page-wide "setting default" flag. */
  datatype VoicesPage = VoicesPage(list: Listing<Voice>, settingDefault: bool)

  const LoadFailed := "Failed to fetch voices"

  function MountPage(): (page: VoicesPage)
    ensures page.list.loading && page.list.items == [] && page.list.error == None
    ensures !page.settingDefault
  {
    VoicesPage(Remote.Mounted(), false)
  }

  /** `fetchVoices`. */
  function LoadVoices(page: VoicesPage, resp: Fetched<seq<Voice>>): (r: VoicesPage)
    ensures !r.list.loading && r.settingDefault == page.settingDefault
    ensures resp.Ok? ==> r.list.items == resp.body && r.list.error == page.list.error
    ensures resp.NotOk? ==> r.list.items == page.list.items && r.list.error == Some(LoadFailed)
    ensures resp.Threw? ==> r.list.items == page.list.items && r.list.error == Some(CaughtMessage(resp.message))
  {
    page.(list := Load(page.list, resp, LoadFailed))
  }

  /**
    `prev.map((v) => ({ ...v, isDefault: v.id === id }))`: the voice(s) with
    the id become default, every other voice stops being default, and
    nothing else about any voice, nor their order, changes.
   */
  function MarkDefault(vs: seq<Voice>, id: int): (r: seq<Voice>)
    ensures |r| == |vs|
    ensures forall i :: 0 <= i < |vs| ==> (r[i].isDefault <==> vs[i].id == id)
    ensures forall i :: 0 <= i < |vs| ==> r[i].(isDefault := vs[i].isDefault) == vs[i]
    decreases |vs|
  {
    if |vs| == 0 then []
    else [vs[0].(isDefault := vs[0].id == id)] + MarkDefault(vs[1..], id)
  }

  /** Number of voices flagged default. */
  function DefaultCount(vs: seq<Voice>): nat
    decreases |vs|
  {
    if |vs| == 0 then 0 else (if vs[0].isDefault then 1 else 0) + DefaultCount(vs[1..])
  }

  /** Number of voices with the given id. */
  function IdCount(vs: seq<Voice>, id: int): nat
    decreases |vs|
  {
    if |vs| == 0 then 0 else (if vs[0].id == id then 1 else 0) + IdCount(vs[1..], id)
  }

  ghost predicate UniqueIds(vs: seq<Voice>) {
    forall i, j :: 0 <= i < j < |vs| ==> vs[i].id != vs[j].id
  }

  /** After the rewrite the defaults are exactly the voices carrying the id. */
  lemma {:induction false} MarkDefaultCount(vs: seq<Voice>, id: int)
    ensures DefaultCount(MarkDefault(vs, id)) == IdCount(vs, id)
    decreases |vs|
  {
    if |vs| > 0 {
      MarkDefaultCount(vs[1..], id);
      assert MarkDefault(vs, id)[1..] == MarkDefault(vs[1..], id);
    }
  }

  /** With unique ids an id occurs once if present and not at all otherwise. */
  lemma {:induction false} UniqueIdCount(vs: seq<Voice>, id: int)
    requires UniqueIds(vs)
    ensures IdCount(vs, id) == if exists i :: 0 <= i < |vs| && vs[i].id == id then 1 else 0
    decreases |vs|
  {
    if |vs| > 0 {
      UniqueIdCount(vs[1..], id);
      if vs[0].id == id {
        assert forall i :: 0 <= i < |vs[1..]| ==> vs[1..][i].id != id by {
          forall i | 0 <= i < |vs[1..]| ensures vs[1..][i].id != id {
            assert vs[i + 1].id != vs[0].id;
          }
        }
      } else {
        if exists i :: 0 <= i < |vs| && vs[i].id == id {
          var i :| 0 <= i < |vs| && vs[i].id == id;
          assert vs[1..][i - 1].id == id;
        }
      }
    }
  }

  /**
    With unique ids, a successful set-default leaves exactly one default
    voice, the selected one, when the id is present, and none otherwise,
    whatever the previous defaults were.
   */
  lemma MarkDefaultLeavesOneDefault(vs: seq<Voice>, id: int)
    requires UniqueIds(vs)
    ensures DefaultCount(MarkDefault(vs, id)) == if exists i :: 0 <= i < |vs| && vs[i].id == id then 1 else 0
  {
    MarkDefaultCount(vs, id);
    UniqueIdCount(vs, id);
  }

  /**
    `handleSetDefault`, given the outcome of the POST: on success every
    voice's flag is rewritten at once; a failure is logged and swallowed,
    leaving the voices unchanged. The in-progress flag is cleared either
    way, and the handler never rejects.
   */
  function SetDefault(page: VoicesPage, id: int, resp: Fetched<()>): (r: VoicesPage)
    ensures !r.settingDefault
    ensures r.list.loading == page.list.loading && r.list.error == page.list.error
    ensures resp.Ok? ==> r.list.items == MarkDefault(page.list.items, id)
    ensures !resp.Ok? ==> r.list.items == page.list.items
  {
    var items := if resp.Ok? then MarkDefault(page.list.items, id) else page.list.items;
    VoicesPage(page.list.(items := items), false)
  }

  /**
    The card's "Set as Default" handler: for a voice already default it
    sends nothing and changes nothing; otherwise it calls `SetDefault`.
    The first component tells whether a request was sent.
   */
  function CardSetDefault(page: VoicesPage, voice: Voice, resp: Fetched<()>): (r: (bool, VoicesPage))
    ensures voice.isDefault ==> r == (false, page)
    ensures !voice.isDefault ==> r == (true, SetDefault(page, voice.id, resp))
  {
    if voice.isDefault then (false, page) else (true, SetDefault(page, voice.id, resp))
  }

  /** Re-selecting the voice that the last successful set-default chose is idempotent. */
  lemma MarkDefaultIdempotent(vs: seq<Voice>, id: int)
    ensures MarkDefault(MarkDefault(vs, id), id) == MarkDefault(vs, id)
  {
    var once := MarkDefault(vs, id);
    var twice := MarkDefault(once, id);
    assert forall i :: 0 <= i < |vs| ==> twice[i] == once[i];
  }
}
