/** `StateReducer`: the incremental indexes kept beside the request cache. Every
    method leaves them equal to what a recomputation from the cache would give,
    and acts on the cache as the plain inbox does. */
module Reducer {
  import opened Common
  import opened Requests
  import opened VisibleList
  import opened PlainInbox

  const SYNC_KIND_CREATED := "created"

  /** The pending ids the index assigns to a channel. */
  ghost function InChannel(index: map<string, string>, channel: string): set<string> {
    set id | id in index && index[id] == channel
  }

  /** `counts` is the recount of `index` by channel, with no zero entries. */
  ghost predicate CountsAgree(counts: map<string, nat>, index: map<string, string>) {
    forall channel :: CountAgrees(counts, index, channel)
  }

  ghost predicate CountAgrees(counts: map<string, nat>, index: map<string, string>, channel: string) {
    var n := |InChannel(index, channel)|;
    if channel in counts then counts[channel] == n > 0 else n == 0
  }

  function IncrementPendingCount(counts: map<string, nat>, channel: string): map<string, nat> {
    counts[channel := (if channel in counts then counts[channel] else 0) + 1]
  }

  /** Saturating decrement, then drop every zero entry. */
  function DecrementPendingCount(counts: map<string, nat>, channel: string): map<string, nat> {
    var lowered :=
      if channel in counts
      then counts[channel := if counts[channel] == 0 then 0 else counts[channel] - 1]
      else counts;
    map c | c in lowered && lowered[c] > 0 :: lowered[c]
  }

  lemma EmptyCounts()
    ensures CountsAgree(map[], map[])
  {
    assert forall c :: InChannel(map[], c) == {};
  }

  lemma IncrementAgrees(counts: map<string, nat>, index: map<string, string>, id: string, channel: string)
    requires CountsAgree(counts, index) && id !in index
    ensures CountsAgree(IncrementPendingCount(counts, channel), index[id := channel])
  {
    var counts', index' := IncrementPendingCount(counts, channel), index[id := channel];
    forall c ensures CountAgrees(counts', index', c) {
      assert CountAgrees(counts, index, c);
      InChannelInsert(index, id, channel, c);
    }
  }

  lemma InChannelInsert(index: map<string, string>, id: string, channel: string, c: string)
    requires id !in index
    ensures |InChannel(index[id := channel], c)| == |InChannel(index, c)| + if c == channel then 1 else 0
  {
    assert InChannel(index[id := channel], c) == InChannel(index, c) + if c == channel then {id} else {};
  }

  lemma InChannelRemove(index: map<string, string>, id: string, c: string)
    requires id in index
    ensures |InChannel(index - {id}, c)| == |InChannel(index, c)| - if c == index[id] then 1 else 0
  {
    assert InChannel(index - {id}, c) == InChannel(index, c) - if c == index[id] then {id} else {};
  }

  lemma DecrementAgrees(counts: map<string, nat>, index: map<string, string>, id: string)
    requires CountsAgree(counts, index) && id in index
    ensures CountsAgree(DecrementPendingCount(counts, index[id]), index - {id})
  {
    var counts', index' := DecrementPendingCount(counts, index[id]), index - {id};
    forall c ensures CountAgrees(counts', index', c) {
      assert CountAgrees(counts, index, c);
      InChannelRemove(index, id, c);
    }
  }

  function IndexOf(rs: seq<Request>): map<string, string> {
    if rs == [] then map[]
    else var last := rs[|rs| - 1]; IndexOf(rs[..|rs| - 1])[last.id := last.channelId]
  }

  ghost predicate DistinctIds(rs: seq<Request>) {
    forall i, j :: 0 <= i < j < |rs| ==> rs[i].id != rs[j].id
  }

  lemma {:induction false} IndexOfMembers(rs: seq<Request>)
    requires DistinctIds(rs)
    ensures forall id :: id in IndexOf(rs) <==> exists r :: r in rs && r.id == id
    ensures forall r :: r in rs ==> r.id in IndexOf(rs) && IndexOf(rs)[r.id] == r.channelId
  {
    if rs != [] {
      IndexOfMembers(rs[..|rs| - 1]);
      assert rs == rs[..|rs| - 1] + [rs[|rs| - 1]];
    }
  }

  /** `count_pending_by_channel`. */
  method CountPendingByChannel(pending: seq<Request>) returns (counts: map<string, nat>)
    requires DistinctIds(pending)
    ensures CountsAgree(counts, IndexOf(pending))
  {
    counts := map[];
    EmptyCounts();
    for i := 0 to |pending|
      invariant CountsAgree(counts, IndexOf(pending[..i]))
    {
      IndexOfMembers(pending[..i]);
      assert pending[..i + 1][..i] == pending[..i];
      IncrementAgrees(counts, IndexOf(pending[..i]), pending[i].id, pending[i].channelId);
      counts := IncrementPendingCount(counts, pending[i].channelId);
    }
    assert pending[..|pending|] == pending;
  }

  /** The values of a map in some order. */
  method Values(m: map<string, Request>) returns (vs: seq<Request>)
    requires Keyed(m)
    ensures DistinctIds(vs)
    ensures forall r :: r in vs <==> r.id in m && m[r.id] == r
  {
    vs := [];
    var keys := m.Keys;
    while keys != {}
      invariant keys <= m.Keys
      invariant DistinctIds(vs)
      invariant forall r :: r in vs <==> r.id in m && r.id !in keys && m[r.id] == r
    {
      var id :| id in keys;
      vs := vs + [m[id]];
      keys := keys - {id};
    }
  }

  method PendingRequests(rs: seq<Request>) returns (pending: seq<Request>)
    requires DistinctIds(rs)
    ensures DistinctIds(pending)
    ensures forall r :: r in pending <==> r in rs && r.status.Pending?
  {
    pending := [];
    for i := 0 to |rs|
      invariant DistinctIds(pending)
      invariant forall r :: r in pending <==> r in rs[..i] && r.status.Pending?
    {
      assert rs[..i + 1] == rs[..i] + [rs[i]];
      if rs[i].status.Pending? {
        pending := pending + [rs[i]];
      }
    }
    assert rs[..|rs|] == rs;
  }

  /** The pending list of a cache indexes to the cache's pending index. */
  lemma PendingListIndex(pending: seq<Request>, cache: map<string, Request>)
    requires Keyed(cache) && DistinctIds(pending)
    requires forall r :: r in pending <==> r.id in cache && cache[r.id] == r && r.status.Pending?
    ensures IndexOf(pending) == PendingIndex(cache)
  {
    IndexOfMembers(pending);
    forall id | id in PendingIndex(cache)
      ensures id in IndexOf(pending) && IndexOf(pending)[id] == cache[id].channelId
    {
      assert cache[id] in pending;
    }
  }

  ghost predicate PendingMember(cache: map<string, Request>, r: Request) {
    r.id in cache && cache[r.id] == r && r.status.Pending?
  }

  /** `pending_requests` and `count_pending_by_channel` over a whole cache. */
  method Recount(cache: map<string, Request>) returns (pending: seq<Request>, counts: map<string, nat>)
    requires Keyed(cache)
    ensures DistinctIds(pending)
    ensures forall r :: r in pending <==> PendingMember(cache, r)
    ensures IndexOf(pending) == PendingIndex(cache) && CountsAgree(counts, PendingIndex(cache))
  {
    var all := Values(cache);
    pending := PendingRequests(all);
    PendingListIndex(pending, cache);
    counts := CountPendingByChannel(pending);
  }

  /** `notification_candidates_after_refresh`: nothing before the baseline. */
  method NewlyPending(pending: seq<Request>, known: map<string, string>, loaded: bool)
    returns (candidates: seq<Request>)
    requires DistinctIds(pending)
    ensures DistinctIds(candidates)
    ensures forall r :: r in candidates <==> loaded && r in pending && r.id !in known
  {
    candidates := [];
    if !loaded { return; }
    for i := 0 to |pending|
      invariant DistinctIds(candidates)
      invariant forall r :: r in candidates <==> r in pending[..i] && r.id !in known
    {
      assert pending[..i + 1] == pending[..i] + [pending[i]];
      if pending[i].id !in known {
        candidates := candidates + [pending[i]];
      }
    }
    assert pending[..|pending|] == pending;
  }

  datatype Tracking = Tracking(counts: map<string, nat>, index: map<string, string>)

  /** One tracking step on values: count, uncount or move a request. */
  function Track(t: Tracking, request: Request): Tracking {
    var id, channel := request.id, request.channelId;
    if id !in t.index then
      if request.status.Pending?
      then Tracking(IncrementPendingCount(t.counts, channel), t.index[id := channel])
      else t
    else if !request.status.Pending? then
      Tracking(DecrementPendingCount(t.counts, t.index[id]), t.index - {id})
    else if t.index[id] == channel then
      t.(index := t.index[id := channel])
    else
      Tracking(IncrementPendingCount(DecrementPendingCount(t.counts, t.index[id]), channel), t.index[id := channel])
  }

  lemma TrackAgrees(t: Tracking, request: Request)
    requires CountsAgree(t.counts, t.index)
    ensures CountsAgree(Track(t, request).counts, Track(t, request).index)
  {
    var id, channel := request.id, request.channelId;
    if id !in t.index {
      IncrementAgrees(t.counts, t.index, id, channel);
    } else {
      DecrementAgrees(t.counts, t.index, id);
      IncrementAgrees(DecrementPendingCount(t.counts, t.index[id]), t.index - {id}, id, channel);
      assert (t.index - {id})[id := channel] == t.index[id := channel];
      assert t.index[id] == channel ==> t.index[id := channel] == t.index;
    }
  }

  lemma TrackIndex(t: Tracking, cache: map<string, Request>, request: Request)
    requires t.index == PendingIndex(cache)
    ensures Track(t, request).index == PendingIndex(cache[request.id := request])
  {
  }

  /** The requests of a cache that the channel selection shows. */
  ghost function Selection(cache: map<string, Request>, channel: Option<string>): set<Request> {
    set r | r in cache.Values && (channel.None? || r.channelId == channel.value)
  }

  /** `ensure_selected_request`: keep a shown selection, else take the first. */
  function Reselect(selected: Option<string>, shown: seq<Request>): Option<string> {
    if selected.Some? && exists i :: 0 <= i < |shown| && shown[i].id == selected.value then selected
    else if shown == [] then None
    else Some(shown[0].id)
  }

  /** `ensure_selected_channel`: a selection survives only if subscribed. */
  function ReselectChannel(selected: Option<string>, channels: seq<Channel>): Option<string> {
    if selected.Some? && exists i :: 0 <= i < |channels| && channels[i].subscribed && channels[i].id == selected.value
    then selected
    else None
  }

  function UpsertChannel(channels: seq<Channel>, channel: Channel): seq<Channel> {
    if channels == [] then [channel]
    else if channels[0].id == channel.id then [channel] + channels[1..]
    else [channels[0]] + UpsertChannel(channels[1..], channel)
  }

  /** The list's own `i`-th channel is the first with the id. */
  ghost predicate FirstChannelAt(channels: seq<Channel>, id: string, i: int) {
    0 <= i < |channels| && channels[i].id == id && forall j :: 0 <= j < i ==> channels[j].id != id
  }

  /** An upsert replaces the first channel of the id where it stands, or else appends. */
  lemma {:induction false} UpsertReplacesFirst(channels: seq<Channel>, channel: Channel)
    ensures forall i :: FirstChannelAt(channels, channel.id, i) ==>
              UpsertChannel(channels, channel) == channels[i := channel]
    ensures (forall i :: 0 <= i < |channels| ==> channels[i].id != channel.id) ==>
              UpsertChannel(channels, channel) == channels + [channel]
  {
    if channels != [] {
      var rest := channels[1..];
      UpsertReplacesFirst(rest, channel);
      assert channels == [channels[0]] + rest;
      forall i | FirstChannelAt(channels, channel.id, i) && i > 0
        ensures UpsertChannel(channels, channel) == channels[i := channel]
      {
        assert FirstChannelAt(rest, channel.id, i - 1) by {
          assert forall j :: 0 <= j < i - 1 ==> rest[j] == channels[j + 1];
        }
      }
      if forall i :: 0 <= i < |channels| ==> channels[i].id != channel.id {
        assert forall i :: 0 <= i < |rest| ==> rest[i] == channels[i + 1];
      }
    }
  }

  /** A request stays selected exactly while it is shown; otherwise the first shown one
      is selected, and none if nothing is shown. */
  lemma SelectionIsShown(selected: Option<string>, shown: seq<Request>)
    ensures var now := Reselect(selected, shown);
            && (now.None? <==> shown == [])
            && (now.Some? ==> exists i :: 0 <= i < |shown| && shown[i].id == now.value)
            && (selected.Some? ==> (now == selected <==> exists i :: 0 <= i < |shown| && shown[i].id == selected.value))
            && (selected.None? && shown != [] ==> now == Some(shown[0].id))
            && (now != selected && shown != [] ==> now == Some(shown[0].id))
  {
  }

  /** A channel stays selected exactly while the new list has it subscribed; otherwise
      none is. */
  lemma ChannelSelectionIff(selected: Option<string>, channels: seq<Channel>)
    ensures var now := ReselectChannel(selected, channels);
            && (now.Some? ==> now == selected)
            && (now.Some? <==> selected.Some? && exists i ::
                  0 <= i < |channels| && channels[i].id == selected.value && channels[i].subscribed)
  {
  }

  /** The channel of the first shown pending request with this id. */
  function ShownPendingChannel(shown: seq<Request>, id: string): (channel: Option<string>)
    ensures channel.Some? <==> exists r :: r in shown && r.id == id && r.status.Pending?
  {
    if shown == [] then None
    else if shown[0].id == id && shown[0].status.Pending? then
      assert shown[0] in shown;
      Some(shown[0].channelId)
    else
      assert forall r :: r in shown <==> r == shown[0] || r in shown[1..];
      ShownPendingChannel(shown[1..], id)
  }

  class StateReducer {
    var channels: seq<Channel>
    var pendingCounts: map<string, nat>
    var requests: seq<Request>
    var selectedChannelId: Option<string>
    var selectedRequestId: Option<string>
    var knownPending: map<string, string>
    var hasLoaded: bool
    var requestsById: map<string, Request>
    var revision: nat
    var requestRevisions: map<string, nat>

    /** The plain inbox this reducer stands for. */
    ghost function Model(): Inbox
      reads this
    {
      Inbox(requestsById, revision, requestRevisions, hasLoaded)
    }

    /** The incremental data agrees with recomputation from the cache. */
    ghost predicate Valid()
      reads this
    {
      && StampsOk(Model())
      && knownPending == PendingIndex(requestsById)
      && CountsAgree(pendingCounts, knownPending)
      && IsVisibleList(requests, Selection(requestsById, selectedChannelId), HANDLED_REQUEST_DISPLAY_LIMIT)
    }

    constructor ()
      ensures Valid() && Model() == Inbox(map[], 0, map[], false)
      ensures selectedChannelId == None && selectedRequestId == None && channels == []
    {
      channels, pendingCounts, requests := [], map[], [];
      selectedChannelId, selectedRequestId := None, None;
      knownPending, hasLoaded, requestsById := map[], false, map[];
      revision, requestRevisions := 0, map[];
      new;
      EmptyCounts();
    }

    /** `previous_pending_channel`. The scan of the shown list can only repeat
        what the index already said. */
    function PreviousPendingChannel(id: string): (channel: Option<string>)
      requires Valid()
      reads this
      ensures channel == if id in knownPending then Some(knownPending[id]) else None
    {
      if id in knownPending then Some(knownPending[id])
      else
        assert ShownPendingChannel(requests, id).None? by {
          assert forall r :: r in requests ==> r in Elements(requests);
        }
        ShownPendingChannel(requests, id)
    }

    /** `update_pending_tracking`: one step of the index and the counts, before
        the cache itself takes the request. */
    method UpdatePendingTracking(request: Request) returns (isNewPending: bool)
      requires Valid()
      modifies this`pendingCounts, this`knownPending
      ensures Tracking(pendingCounts, knownPending) == Track(old(Tracking(pendingCounts, knownPending)), request)
      ensures isNewPending <==> request.status.Pending? && request.id !in old(knownPending)
    {
      var previous := PreviousPendingChannel(request.id);
      var id, channel := request.id, request.channelId;
      isNewPending := false;
      if previous.None? && request.status.Pending? {
        pendingCounts := IncrementPendingCount(pendingCounts, channel);
        knownPending := knownPending[id := channel];
        isNewPending := true;
      } else if previous.Some? && !request.status.Pending? {
        pendingCounts := DecrementPendingCount(pendingCounts, previous.value);
        knownPending := knownPending - {id};
      } else if previous.Some? {
        if previous.value != channel {
          pendingCounts := DecrementPendingCount(pendingCounts, previous.value);
          pendingCounts := IncrementPendingCount(pendingCounts, channel);
        }
        knownPending := knownPending[id := channel];
      }
    }

    /** `update_visible_requests`. */
    method UpdateVisibleRequests()
      requires Keyed(requestsById)
      modifies this`requests, this`selectedRequestId
      ensures IsVisibleList(requests, Selection(requestsById, selectedChannelId), HANDLED_REQUEST_DISPLAY_LIMIT)
      ensures selectedRequestId == Reselect(old(selectedRequestId), requests)
    {
      var all := Values(requestsById);
      var chosen := [];
      for i := 0 to |all|
        invariant DistinctIds(chosen)
        invariant forall r :: r in chosen <==>
                    r in all[..i] && (selectedChannelId.None? || r.channelId == selectedChannelId.value)
      {
        assert all[..i + 1] == all[..i] + [all[i]];
        if selectedChannelId.None? || all[i].channelId == selectedChannelId.value {
          chosen := chosen + [all[i]];
        }
      }
      assert all[..|all|] == all;
      SelectionMembers(chosen, all, requestsById, selectedChannelId);
      requests := VisibleRequests(chosen);
      selectedRequestId := Reselect(selectedRequestId, requests);
    }

    /** `apply_request_update`: a live event, a submission result or a targeted
        read. Returns whether a pending request became known. */
    method ApplyRequestUpdate(request: Request) returns (isNewPending: bool)
      requires Valid()
      modifies this
      ensures Valid() && Model() == Update(old(Model()), request)
      ensures isNewPending <==>
              Accepts(old(Model()), request) && request.status.Pending? && request.id !in old(knownPending)
      ensures request.id !in old(requestsById) || request.updatedAt > old(requestsById)[request.id].updatedAt ==>
                requestsById == old(requestsById)[request.id := request]
      ensures request.id in old(requestsById) && request.updatedAt < old(requestsById)[request.id].updatedAt ==>
                unchanged(this)
      ensures unchanged(this`channels, this`selectedChannelId)
      ensures Accepts(old(Model()), request) ==> selectedRequestId == Reselect(old(selectedRequestId), requests)
      ensures !Accepts(old(Model()), request) ==> unchanged(this)
    {
      if request.id in requestsById && Stale(request, requestsById[request.id]) {
        return false;
      }
      hide IsVisibleList, CountsAgree, PendingIndex, StampsOk, Update;
      ghost var before := Tracking(pendingCounts, knownPending);
      TrackAgrees(before, request);
      TrackIndex(before, requestsById, request);
      isNewPending := UpdatePendingTracking(request);
      StoreRequest(request);
      KeyedFromStamps(Model());
      UpdateVisibleRequests();
    }

    method StoreRequest(request: Request)
      requires StampsOk(Model()) && Accepts(Model(), request)
      modifies this`revision, this`requestRevisions, this`requestsById
      ensures Model() == Update(old(Model()), request) && StampsOk(Model())
      ensures requestsById == old(requestsById)[request.id := request]
    {
      revision := revision + 1;
      requestRevisions := requestRevisions[request.id := revision];
      requestsById := requestsById[request.id := request];
    }

    /** The loop of `apply_snapshot` that keeps what changed during the fetch. */
    method MergeSnapshot(fetched: map<string, Request>, started: nat) returns (snapshot: map<string, Request>)
      ensures snapshot == MergedCache(Model(), fetched, started)
    {
      snapshot := fetched;
      var ids := requestsById.Keys;
      while ids != {}
        invariant ids <= requestsById.Keys
        invariant forall id :: id in snapshot <==>
                    id in fetched || (id !in ids && Keeps(Model(), fetched, started, id))
        invariant forall id :: id in snapshot ==>
                    snapshot[id] == if id !in ids && Keeps(Model(), fetched, started, id)
                                    then requestsById[id] else fetched[id]
      {
        var id :| id in ids;
        var changedDuringFetch := (if id in requestRevisions then requestRevisions[id] else 0) > started;
        var snapshotIsNewer := id in snapshot && Stale(requestsById[id], snapshot[id]);
        if changedDuringFetch && !snapshotIsNewer {
          snapshot := snapshot[id := requestsById[id]];
        }
        ids := ids - {id};
      }
    }

    method ReplaceCache(fetched: map<string, Request>, started: nat)
      requires Keyed(fetched) && StampsOk(Model())
      modifies this`requestsById, this`requestRevisions
      ensures requestsById == Snapshot(old(Model()), fetched, started).cache
      ensures requestRevisions == Snapshot(old(Model()), fetched, started).stamps
      ensures StampsOk(Model())
    {
      var merged := MergeSnapshot(fetched, started);
      requestsById := merged;
      requestRevisions := map id | id in requestRevisions && id in requestsById :: requestRevisions[id];
    }

    /** The tail of `apply_snapshot`: recount, announce, remember. */
    method RebuildPending() returns (candidates: seq<Request>)
      requires Keyed(requestsById)
      modifies this`pendingCounts, this`knownPending, this`hasLoaded
      ensures knownPending == PendingIndex(requestsById) && CountsAgree(pendingCounts, knownPending) && hasLoaded
      ensures DistinctIds(candidates)
      ensures forall r :: r in candidates <==>
                old(hasLoaded) && PendingMember(requestsById, r) && r.id !in old(knownPending)
    {
      var pending, counts := Recount(requestsById);
      pendingCounts := counts;
      candidates := NewlyPending(pending, knownPending, hasLoaded);
      knownPending := IndexOf(pending);
      hasLoaded := true;
    }

    method FinishSnapshot() returns (candidates: seq<Request>)
      requires StampsOk(Model())
      modifies this`pendingCounts, this`knownPending, this`hasLoaded, this`requests, this`selectedRequestId
      ensures Valid() && hasLoaded
      ensures DistinctIds(candidates)
      ensures forall r :: r in candidates <==>
                old(hasLoaded) && PendingMember(requestsById, r) && r.id !in old(knownPending)
      ensures selectedRequestId == Reselect(old(selectedRequestId), requests)
    {
      candidates := RebuildPending();
      UpdateVisibleRequests();
    }

    /** `apply_snapshot`: returns the requests to announce. */
    method ApplySnapshot(newChannels: seq<Channel>, response: seq<Request>, started: nat)
      returns (candidates: seq<Request>)
      requires Valid()
      modifies this
      ensures Valid() && Model() == Snapshot(old(Model()), ById(response), started)
      ensures DistinctIds(candidates)
      ensures forall r :: r in candidates <==>
                old(hasLoaded) && PendingMember(requestsById, r) && r.id !in old(knownPending)
      ensures channels == newChannels
      ensures selectedChannelId == ReselectChannel(old(selectedChannelId), newChannels)
      ensures selectedRequestId == Reselect(old(selectedRequestId), requests)
    {
      channels := newChannels;
      selectedChannelId := ReselectChannel(selectedChannelId, channels);
      ByIdKeyed(response);
      ghost var before := Model();
      assert before == old(Model());
      ghost var after := Snapshot(before, ById(response), started);
      ReplaceCache(ById(response), started);
      assert requestsById == after.cache && requestRevisions == after.stamps;
      candidates := FinishSnapshot();
    }

    /** `apply_sync_envelope`: returns the request to announce, if any. */
    method ApplySyncEnvelope(kind: string, channel: Option<Channel>, request: Option<Request>)
      returns (candidates: seq<Request>)
      requires Valid()
      modifies this
      ensures Valid()
      ensures Model() == if request.Some? then Update(old(Model()), request.value) else old(Model())
      ensures candidates ==
              if kind == "created" && request.Some? && Accepts(old(Model()), request.value)
                 && request.value.status.Pending? && request.value.id !in old(knownPending)
              then [request.value] else []
      ensures channels == if channel.Some? then UpsertChannel(old(channels), channel.value) else old(channels)
      ensures unchanged(this`selectedChannelId)
    {
      candidates := [];
      if channel.Some? {
        channels := UpsertChannel(channels, channel.value);
      }
      if request.Some? {
        var isNewPending := ApplyRequestUpdate(request.value);
        if kind == SYNC_KIND_CREATED && isNewPending {
          candidates := [request.value];
        }
      }
    }

    method SelectChannel(channel: Option<string>)
      requires Valid()
      modifies this`selectedChannelId, this`requests, this`selectedRequestId
      ensures Valid() && Model() == old(Model()) && selectedChannelId == channel
      ensures selectedRequestId == Reselect(old(selectedRequestId), requests)
    {
      selectedChannelId := channel;
      UpdateVisibleRequests();
    }

    method ClearLoadedData()
      requires Valid()
      modifies this
      ensures Valid() && Model() == Clear(old(Model()))
      ensures channels == [] && requests == [] && selectedChannelId == None && selectedRequestId == None
    {
      channels, pendingCounts, requests := [], map[], [];
      selectedChannelId, selectedRequestId := None, None;
      knownPending, hasLoaded, requestsById, requestRevisions := map[], false, map[], map[];
      EmptyCounts();
    }
  }

  lemma SelectionMembers(chosen: seq<Request>, all: seq<Request>, cache: map<string, Request>, channel: Option<string>)
    requires Keyed(cache)
    requires forall r :: r in all <==> r.id in cache && cache[r.id] == r
    requires forall r :: r in chosen <==> r in all && (channel.None? || r.channelId == channel.value)
    ensures Elements(chosen) == Selection(cache, channel)
  {
    forall r ensures r in cache.Values <==> r.id in cache && cache[r.id] == r {
    }
  }

  lemma KeyedFromStamps(s: Inbox)
    requires StampsOk(s)
    ensures Keyed(s.cache)
  {
  }

  /** What the user sees of a reducer, in any state it can be in: every pending request of
      the selected channel, or of all channels if none is selected, and its newest handled
      ones, up to 500, pending ones first and the latest first in each part. */
  lemma ReducerShows(a: StateReducer)
    requires a.Valid()
    ensures var (shown, channel) := (a.requests, a.selectedChannelId);
            var offered := set id | id in a.requestsById
                             && (channel.Some? ==> a.requestsById[id].channelId == channel.value) :: a.requestsById[id];
            && (forall r :: r in shown ==> r in offered)
            && (forall r :: r in offered && r.status.Pending? ==> r in shown)
            && (var n := |set r | r in offered && !r.status.Pending?|;
                var k := |set r | r in shown && !r.status.Pending?|;
                k == if n < 500 then n else 500)
            && (forall r, q :: r in offered && r !in shown && q in shown && !q.status.Pending? ==>
                  q.createdAt > r.createdAt || (q.createdAt == r.createdAt && Less(r.id, q.id)))
            && (forall i, j :: 0 <= i < j < |shown| ==>
                  && (shown[j].status.Pending? ==> shown[i].status.Pending?)
                  && ((shown[i].status.Pending? <==> shown[j].status.Pending?) ==>
                        shown[i].createdAt >= shown[j].createdAt))
  {
    var rs := Selection(a.requestsById, a.selectedChannelId);
    assert rs == set id | id in a.requestsById
                   && (a.selectedChannelId.Some? ==> a.requestsById[id].channelId == a.selectedChannelId.value)
                   :: a.requestsById[id];
    assert OnePerId(rs);
    VisibleListReads(a.requests, rs, HANDLED_REQUEST_DISPLAY_LIMIT);
  }

  /** The pending index and the counts in any state: an id is indexed, with its channel,
      exactly if its cached request is pending, and a channel counts those it has, with no
      entry if there are none. */
  lemma ReducerCounts(a: StateReducer, id: string, channel: string)
    requires a.Valid()
    ensures id in a.knownPending <==> id in a.requestsById && a.requestsById[id].status == Pending
    ensures id in a.knownPending ==> a.knownPending[id] == a.requestsById[id].channelId
    ensures var n := |set i | i in a.requestsById && a.requestsById[i].status == Pending
                              && a.requestsById[i].channelId == channel|;
            if n == 0 then channel !in a.pendingCounts
            else channel in a.pendingCounts && a.pendingCounts[channel] == n
  {
    assert CountAgrees(a.pendingCounts, a.knownPending, channel);
    assert InChannel(a.knownPending, channel)
        == set i | i in a.requestsById && a.requestsById[i].status == Pending
                   && a.requestsById[i].channelId == channel;
  }

  /** A recount is unique, so the whole incremental state is a function of the
      cache and the channel selection. */
  lemma ReducerDetermined(a: StateReducer, b: StateReducer)
    requires a.Valid() && b.Valid()
    requires a.requestsById == b.requestsById && a.selectedChannelId == b.selectedChannelId
    ensures a.knownPending == b.knownPending && a.pendingCounts == b.pendingCounts && a.requests == b.requests
  {
    forall c ensures (c in a.pendingCounts <==> c in b.pendingCounts)
               && (c in a.pendingCounts ==> a.pendingCounts[c] == b.pendingCounts[c])
    {
      assert CountAgrees(a.pendingCounts, a.knownPending, c) && CountAgrees(b.pendingCounts, b.knownPending, c);
    }
    VisibleListUnique(a.requests, b.requests, Selection(a.requestsById, a.selectedChannelId),
                      HANDLED_REQUEST_DISPLAY_LIMIT);
  }
}
