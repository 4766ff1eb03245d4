/** The reducer in use: runs of whatever the tasks of the runtime do to it, and one
    connection of the sync loop, in which the revision is read, the list fetched
    while other results arrive, the snapshot applied and the buffered events taken. */
module Connection {
  import opened Common
  import opened Requests
  import opened VisibleList
  import opened PlainInbox
  import opened Reducer
  import opened CatchUp

  /** The steps tasks take on the shared reducer, one at a time under its lock. */
  datatype Activity =
    | Arrival(request: Request)
    | Refreshed(channels: seq<Channel>, response: seq<Request>, started: nat)
    | ChannelChosen(channel: Option<string>)
    | Cleared

  function Act(s: Inbox, a: Activity): Inbox {
    match a
    case Arrival(request) => Update(s, request)
    case Refreshed(_, response, started) => Snapshot(s, ById(response), started)
    case ChannelChosen(_) => s
    case Cleared => Clear(s)
  }

  function After(s: Inbox, acts: seq<Activity>): Inbox {
    if acts == [] then s else Act(After(s, acts[..|acts| - 1]), acts[|acts| - 1])
  }

  lemma {:induction false} AfterAppend(s: Inbox, xs: seq<Activity>, ys: seq<Activity>)
    ensures After(s, xs + ys) == After(After(s, xs), ys)
  {
    if ys == [] {
      assert xs + ys == xs;
    } else {
      var n := |ys| - 1;
      AfterAppend(s, xs, ys[..n]);
      assert (xs + ys)[..|xs| + n] == xs + ys[..n] && (xs + ys)[|xs| + n] == ys[n];
    }
  }

  method Perform(reducer: StateReducer, acts: seq<Activity>)
    requires reducer.Valid()
    modifies reducer
    ensures reducer.Valid() && reducer.Model() == After(old(reducer.Model()), acts)
  {
    hide IsVisibleList, CountsAgree, PendingIndex, StampsOk, Update, Snapshot, ById;
    for i := 0 to |acts|
      invariant reducer.Valid() && reducer.Model() == After(old(reducer.Model()), acts[..i])
    {
      assert acts[..i + 1][..i] == acts[..i];
      match acts[i] {
        case Arrival(request) => var _ := reducer.ApplyRequestUpdate(request);
        case Refreshed(channels, response, started) => var _ := reducer.ApplySnapshot(channels, response, started);
        case ChannelChosen(channel) => reducer.SelectChannel(channel);
        case Cleared => reducer.ClearLoadedData();
      }
    }
    assert acts[..|acts|] == acts;
  }

  method ApplyAll(reducer: StateReducer, arrivals: seq<Request>)
    requires reducer.Valid()
    modifies reducer
    ensures reducer.Valid() && reducer.Model() == Updates(old(reducer.Model()), arrivals)
  {
    hide IsVisibleList, CountsAgree, PendingIndex, StampsOk, Update;
    for i := 0 to |arrivals|
      invariant reducer.Valid() && reducer.Model() == Updates(old(reducer.Model()), arrivals[..i])
    {
      var _ := reducer.ApplyRequestUpdate(arrivals[i]);
      assert arrivals[..i + 1][..i] == arrivals[..i];
    }
    assert arrivals[..|arrivals|] == arrivals;
  }

  /** Whatever the reducer held and however the list was cut, a connection leaves it
      with the server's requests at `n` exactly if the last version of each was
      delivered, and always with the index, the counts and the list that belong to
      what it holds. */
  method CatchUpWithServer(reducer: StateReducer, ghost versions: seq<Request>, ghost n: nat, channels: seq<Channel>,
                           during: seq<Request>, response: seq<Request>, after: seq<Request>)
    requires reducer.Valid() && Increasing(versions) && n <= |versions|
    requires Genuine(versions, n, during) && Genuine(versions, n, response) && Genuine(versions, n, after)
    modifies reducer
    ensures reducer.requestsById == ServerAt(versions, n)
       <==> AllDelivered(versions, n, old(reducer.Model()), during, response, after)
    ensures reducer.Valid() && reducer.knownPending == PendingIndex(reducer.requestsById)
    ensures CountsAgree(reducer.pendingCounts, PendingIndex(reducer.requestsById))
    ensures IsVisibleList(reducer.requests, Selection(reducer.requestsById, reducer.selectedChannelId),
                          HANDLED_REQUEST_DISPLAY_LIMIT)
  {
    hide IsVisibleList, CountsAgree, PendingIndex, Snapshot, Update, Updates, StampsOk, ServerAt, ById, Increasing;
    hide Genuine;
    ghost var start := reducer.Model();
    var revision := reducer.revision;
    ApplyAll(reducer, during);
    var _ := reducer.ApplySnapshot(channels, response, revision);
    ApplyAll(reducer, after);
    CatchUpIffDelivered(versions, n, start, during, response, after);
    hide AllDelivered;
    assert reducer.Model() == Connected(start, during, response, after);
    assert reducer.Model().cache == reducer.requestsById;
  }
}
