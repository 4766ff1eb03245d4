/** Runs of the inbox: order independence of updates, snapshots that race with
    updates, and the subscribe-snapshot-replay protocol of the sync loop. */
module CatchUp {
  import opened Common
  import opened Requests
  import opened PlainInbox

  /** A run of live events, submission results and targeted reads. */
  function Updates(s: Inbox, us: seq<Request>): Inbox {
    if us == [] then s else Update(Updates(s, us[..|us| - 1]), us[|us| - 1])
  }

  lemma UpdatesSnoc(s: Inbox, us: seq<Request>, u: Request)
    ensures Updates(s, us + [u]) == Update(Updates(s, us), u)
  {
    assert (us + [u])[..|us|] == us;
  }

  lemma {:induction false} UpdatesStampsOk(s: Inbox, us: seq<Request>)
    requires StampsOk(s)
    ensures StampsOk(Updates(s, us)) && Updates(s, us).revision >= s.revision
  {
    if us != [] {
      UpdatesStampsOk(s, us[..|us| - 1]);
    }
  }

  /** One id over a run: never backwards, never dropped, never invented. */
  lemma {:induction false} UpdatesAt(s: Inbox, us: seq<Request>, id: string)
    ensures var t := Updates(s, us).cache;
            && (id in s.cache ==> id in t && !Stale(t[id], s.cache[id]))
            && (forall u :: u in us && u.id == id ==> id in t && !Stale(t[id], u))
            && (id in t ==> t[id] in us || (id in s.cache && t[id] == s.cache[id]))
  {
    if us != [] {
      var front, u := us[..|us| - 1], us[|us| - 1];
      UpdatesAt(s, front, id);
      assert us == front + [u];
    }
  }

  lemma UpdatesKeep(s: Inbox, us: seq<Request>)
    ensures var t := Updates(s, us);
            && (forall id :: id in s.cache ==> id in t.cache && !Stale(t.cache[id], s.cache[id]))
            && (forall u :: u in us ==> u.id in t.cache && !Stale(t.cache[u.id], u))
            && (forall id :: id in t.cache ==> t.cache[id] in us || (id in s.cache && t.cache[id] == s.cache[id]))
  {
    forall id ensures var t := Updates(s, us).cache;
              && (id in s.cache ==> id in t && !Stale(t[id], s.cache[id]))
              && (forall u :: u in us && u.id == id ==> id in t && !Stale(t[id], u))
              && (id in t ==> t[id] in us || (id in s.cache && t[id] == s.cache[id]))
    {
      UpdatesAt(s, us, id);
    }
  }

  // ----- Order independence -----

  /** A version that can end up cached: not stale against the initial cache nor
      against any other update of its id. */
  ghost predicate Winner(s: Inbox, us: set<Request>, a: Request) {
    && a in us
    && Accepts(s, a)
    && forall b :: b in us && b.id == a.id ==> !Stale(a, b)
  }

  ghost predicate NoTies(s: Inbox, us: set<Request>) {
    forall a, b :: Winner(s, us, a) && Winner(s, us, b) && a.id == b.id ==> a == b
  }

  ghost predicate OrderIrrelevant(s: Inbox, us: set<Request>) {
    forall xs, ys :: Elements(xs) == us && Elements(ys) == us ==> Updates(s, xs).cache == Updates(s, ys).cache
  }

  /** Some update of the id is not stale against the initial cache. */
  ghost predicate Touched(s: Inbox, us: seq<Request>, id: string) {
    exists u :: u in us && u.id == id && Accepts(s, u)
  }

  /** An id either keeps its initial entry, every update being stale against it,
      or ends with one of the updates. */
  lemma {:induction false} UpdatesResult(s: Inbox, us: seq<Request>, id: string)
    ensures var t := Updates(s, us).cache;
            if Touched(s, us, id) then id in t && t[id] in us
            else (id in t <==> id in s.cache) && (id in s.cache ==> t[id] == s.cache[id])
  {
    if us != [] {
      var front, u := us[..|us| - 1], us[|us| - 1];
      UpdatesResult(s, front, id);
      assert us == front + [u];
      assert Touched(s, us, id) <==> Touched(s, front, id) || (u.id == id && Accepts(s, u));
      hide Touched, Stale;
      assert forall x :: x in front ==> x in us;
    }
  }

  lemma UpdatesWinner(s: Inbox, us: seq<Request>, id: string)
    requires StampsOk(s) && Touched(s, us, id)
    ensures var t := Updates(s, us); id in t.cache && t.cache[id].id == id && Winner(s, Elements(us), t.cache[id])
  {
    UpdatesResult(s, us, id);
    UpdatesAt(s, us, id);
    UpdatesStampsOk(s, us);
  }

  lemma SameSetSameCache(s: Inbox, xs: seq<Request>, ys: seq<Request>)
    requires StampsOk(s) && Elements(xs) == Elements(ys) && NoTies(s, Elements(xs))
    ensures Updates(s, xs).cache == Updates(s, ys).cache
  {
    var a, b := Updates(s, xs).cache, Updates(s, ys).cache;
    assert forall u :: u in xs <==> u in Elements(xs);
    assert forall u :: u in ys <==> u in Elements(ys);
    forall id ensures (id in a <==> id in b) && (id in a ==> a[id] == b[id]) {
      UpdatesResult(s, xs, id);
      UpdatesResult(s, ys, id);
      assert Touched(s, xs, id) <==> Touched(s, ys, id);
      if Touched(s, xs, id) {
        UpdatesWinner(s, xs, id);
        UpdatesWinner(s, ys, id);
      }
    }
  }

  lemma {:induction false} Listing(us: set<Request>) returns (xs: seq<Request>)
    ensures Elements(xs) == us
    decreases us
  {
    xs := [];
    if us != {} {
      var u :| u in us;
      var rest := Listing(us - {u});
      xs := rest + [u];
      assert Elements(xs) == Elements(rest) + {u};
    }
  }

  lemma LastWins(s: Inbox, xs: seq<Request>, a: Request)
    requires StampsOk(s) && Winner(s, Elements(xs), a)
    ensures Elements(xs + [a]) == Elements(xs)
    ensures var t := Updates(s, xs + [a]).cache; a.id in t && t[a.id] == a
  {
    UpdatesSnoc(s, xs, a);
    UpdatesAt(s, xs, a.id);
    UpdatesStampsOk(s, xs);
    assert Accepts(Updates(s, xs), a);
  }

  /** Any listing of the same updates, in any order and with any repetitions,
      gives one cache exactly when no id has two different top versions. */
  lemma OrderIndependence(s: Inbox, us: set<Request>)
    requires StampsOk(s)
    ensures OrderIrrelevant(s, us) <==> NoTies(s, us)
  {
    if NoTies(s, us) {
      forall xs, ys | Elements(xs) == us && Elements(ys) == us
        ensures Updates(s, xs).cache == Updates(s, ys).cache
      {
        SameSetSameCache(s, xs, ys);
      }
    }
    if OrderIrrelevant(s, us) {
      var xs := Listing(us);
      forall a, b | Winner(s, us, a) && Winner(s, us, b) && a.id == b.id ensures a == b {
        LastWins(s, xs, a);
        LastWins(s, xs, b);
        assert Updates(s, xs + [a]).cache == Updates(s, xs + [b]).cache;
      }
    }
  }

  // ----- Snapshots that race with updates -----

  /** Exactly the ids updated since `s` carry a stamp beyond its revision. */
  lemma {:induction false} StampsMarkAccepted(s: Inbox, us: seq<Request>, id: string)
    requires StampsOk(s)
    ensures Stamp(Updates(s, us), id) > s.revision <==> Touched(s, us, id)
    ensures Touched(s, us, id) ==> id in Updates(s, us).cache && Updates(s, us).cache[id] in us
  {
    UpdatesResult(s, us, id);
    if us != [] {
      var front, u := us[..|us| - 1], us[|us| - 1];
      assert us == front + [u];
      StampsMarkAccepted(s, front, id);
      UpdatesStampsOk(s, front);
      UpdatesResult(s, front, id);
      assert Touched(s, us, id) <==> Touched(s, front, id) || (u.id == id && Accepts(s, u));
      UpdatesAt(s, front, id);
    }
  }

  /** Accepted at its own time implies accepted against the starting cache. */
  lemma AcceptedEarlier(s: Inbox, us: seq<Request>, i: nat)
    requires StampsOk(s) && i < |us| && Accepts(Updates(s, us[..i]), us[i])
    ensures Accepts(s, us[i])
  {
    UpdatesKeep(s, us[..i]);
  }

  /** An update accepted while a snapshot is in flight is never reverted or
      dropped by that snapshot. */
  lemma SnapshotKeepsAccepted(s: Inbox, us: seq<Request>, i: nat, response: seq<Request>)
    requires StampsOk(s) && i < |us| && Accepts(Updates(s, us[..i]), us[i])
    ensures var after := Snapshot(Updates(s, us), ById(response), s.revision);
            us[i].id in after.cache && !Stale(after.cache[us[i].id], us[i])
  {
    AcceptedEarlier(s, us, i);
    StampsMarkAccepted(s, us, us[i].id);
    UpdatesAt(s, us, us[i].id);
  }

  /** Every other id is taken from the response, present or absent. */
  lemma SnapshotReplacesUntouched(s: Inbox, us: seq<Request>, id: string, response: seq<Request>)
    requires StampsOk(s)
    requires !Touched(s, us, id)
    ensures var cache, fetched := Snapshot(Updates(s, us), ById(response), s.revision).cache, ById(response);
            (id in cache <==> id in fetched) && (id in cache ==> cache[id] == fetched[id])
  {
    StampsMarkAccepted(s, us, id);
  }

  // ----- Catching up with the server -----

  /** The server appends versions to a log; each version of an id outranks the
      ones before it. */
  ghost predicate Increasing(versions: seq<Request>) {
    forall i, j :: 0 <= i < j < |versions| && versions[i].id == versions[j].id ==> Stale(versions[i], versions[j])
  }

  function ServerAt(versions: seq<Request>, n: nat): map<string, Request>
    requires n <= |versions|
  {
    ById(versions[..n])
  }

  /** The log position of the server's entry. */
  lemma LatestPosition(versions: seq<Request>, n: nat, id: string) returns (i: nat)
    requires n <= |versions| && id in ServerAt(versions, n)
    ensures i < n && versions[i].id == id && versions[i] == ServerAt(versions, n)[id]
    ensures forall j :: i < j < n ==> versions[j].id != id
  {
    var log := versions[..n];
    ByIdLastWins(log, id);
    hide ById;
    i :| 0 <= i < n && log[i].id == id && LastOfId(log, i);
    forall j | i < j < n ensures versions[j].id != id { assert versions[j] == log[j]; }
  }

  /** An id is on the server once a version of it was published. */
  lemma Published(versions: seq<Request>, n: nat, i: nat)
    requires i < n <= |versions|
    ensures versions[i].id in ServerAt(versions, n)
  {
    ByIdLastWins(versions[..n], versions[i].id);
    assert versions[..n][i] in versions[..n];
  }

  /** The last version is the only one that no other version outranks. */
  lemma TopVersion(versions: seq<Request>, n: nat, id: string, r: Request)
    requires n <= |versions| && Increasing(versions)
    requires r in versions[..n] && r.id == id
    ensures id in ServerAt(versions, n) && !Stale(ServerAt(versions, n)[id], r)
    ensures !Stale(r, ServerAt(versions, n)[id]) ==> r == ServerAt(versions, n)[id]
  {
    var k :| 0 <= k < n && versions[..n][k] == r;
    Published(versions, n, k);
    var i := LatestPosition(versions, n, id);
    assert versions[k] == r && k <= i;
  }

  ghost predicate Genuine(versions: seq<Request>, n: nat, us: seq<Request>)
    requires n <= |versions|
  {
    forall u :: u in us ==> u in versions[..n]
  }

  /** The cache after a connection: `during` reaches it while the list is fetched,
      `after` once the snapshot is applied. */
  function Connected(start: Inbox, during: seq<Request>, response: seq<Request>, after: seq<Request>): Inbox {
    Updates(Snapshot(Updates(start, during), ById(response), start.revision), after)
  }

  /** The version came with the list, afterwards, or while the list was fetched
      without being outranked by what was cached at the start. */
  ghost predicate Delivered(start: Inbox, during: seq<Request>, response: seq<Request>, after: seq<Request>,
                            r: Request) {
    || (r.id in ById(response) && ById(response)[r.id] == r)
    || r in after
    || (r in during && Accepts(start, r))
  }

  ghost predicate AllDelivered(versions: seq<Request>, n: nat, start: Inbox, during: seq<Request>,
                               response: seq<Request>, after: seq<Request>)
    requires n <= |versions|
  {
    forall id :: id in ServerAt(versions, n) ==> Delivered(start, during, response, after, ServerAt(versions, n)[id])
  }

  /** The snapshot holds the listed and the meanwhile accepted versions that
      nothing outranks, and only such versions. */
  lemma SyncedAt(start: Inbox, during: seq<Request>, response: seq<Request>, id: string, r: Request)
    requires StampsOk(start) && r.id == id
    ensures var synced := Snapshot(Updates(start, during), ById(response), start.revision).cache;
            && (id in ById(response) && ById(response)[id] == r ==> id in synced && !Stale(synced[id], r))
            && (r in during && Accepts(start, r) ==> id in synced && !Stale(synced[id], r))
            && (id in synced && synced[id] == r ==>
                  (id in ById(response) && ById(response)[id] == r) || (r in during && Accepts(start, r)))
  {
    StampsMarkAccepted(start, during, id);
    UpdatesAt(start, during, id);
    assert r in during && Accepts(start, r) ==> Touched(start, during, id);
  }

  /** A delivered last version is what the cache ends with. */
  lemma DeliveredArrives(versions: seq<Request>, n: nat, start: Inbox, during: seq<Request>,
                         response: seq<Request>, after: seq<Request>, id: string)
    requires Increasing(versions) && n <= |versions| && StampsOk(start)
    requires Genuine(versions, n, during) && Genuine(versions, n, response) && Genuine(versions, n, after)
    requires id in ServerAt(versions, n)
    requires Delivered(start, during, response, after, ServerAt(versions, n)[id])
    ensures var final := Connected(start, during, response, after).cache;
            id in final && final[id] == ServerAt(versions, n)[id]
  {
    var top := ServerAt(versions, n)[id];
    var synced := Snapshot(Updates(start, during), ById(response), start.revision);
    var i := LatestPosition(versions, n, id);
    SyncedAt(start, during, response, id, top);
    SyncedIsGenuine(versions, n, start, during, response, id);
    hide ServerAt, ById, Snapshot, Increasing;
    if top !in after {
      TopVersion(versions, n, id, synced.cache[id]);
    }
    UpdatesAt(synced, after, id);
    FinalIsGenuine(versions, n, start, during, response, after, id);
    TopVersion(versions, n, id, Updates(synced, after).cache[id]);
  }

  /** What the cache ends with was delivered. */
  lemma ArrivedWasDelivered(start: Inbox, during: seq<Request>, response: seq<Request>, after: seq<Request>, id: string)
    requires StampsOk(start)
    ensures var final := Connected(start, during, response, after).cache;
            id in final ==> Delivered(start, during, response, after, final[id])
  {
    var synced := Snapshot(Updates(start, during), ById(response), start.revision);
    var final := Updates(synced, after).cache;
    UpdatesAt(synced, after, id);
    ByIdKeyed(response);
    UpdatesStampsOk(start, during);
    if id in synced.cache { SyncedAt(start, during, response, id, synced.cache[id]); }
  }

  lemma SyncedIsGenuine(versions: seq<Request>, n: nat, start: Inbox, during: seq<Request>, response: seq<Request>,
                        id: string)
    requires n <= |versions| && StampsOk(start)
    requires Genuine(versions, n, during) && Genuine(versions, n, response)
    ensures var synced := Snapshot(Updates(start, during), ById(response), start.revision).cache;
            id in synced ==> synced[id] in versions[..n] && synced[id].id == id
  {
    StampsMarkAccepted(start, during, id);
    UpdatesStampsOk(start, during);
    ByIdKeyed(response);
  }

  lemma FinalIsGenuine(versions: seq<Request>, n: nat, start: Inbox, during: seq<Request>, response: seq<Request>,
                       after: seq<Request>, id: string)
    requires n <= |versions| && StampsOk(start)
    requires Genuine(versions, n, during) && Genuine(versions, n, response) && Genuine(versions, n, after)
    ensures var final := Connected(start, during, response, after).cache;
            id in final ==> final[id] in versions[..n] && final[id].id == id
  {
    var synced := Snapshot(Updates(start, during), ById(response), start.revision);
    UpdatesStampsOk(start, during);
    SnapshotStampsOk(Updates(start, during), response, start.revision);
    UpdatesStampsOk(synced, after);
    UpdatesAt(synced, after, id);
    SyncedIsGenuine(versions, n, start, during, response, id);
  }

  /** What a connection needs: whatever the cache held before, however the list was
      cut and whenever it was fetched, the cache ends equal to the server's state
      at `n` exactly if the last version of every id was delivered some way. */
  lemma CatchUpIffDelivered(versions: seq<Request>, n: nat, start: Inbox,
                            during: seq<Request>, response: seq<Request>, after: seq<Request>)
    requires Increasing(versions) && n <= |versions| && StampsOk(start)
    requires Genuine(versions, n, during) && Genuine(versions, n, response) && Genuine(versions, n, after)
    ensures Connected(start, during, response, after).cache == ServerAt(versions, n)
       <==> AllDelivered(versions, n, start, during, response, after)
  {
    var final := Connected(start, during, response, after).cache;
    forall id ensures id in final ==> id in ServerAt(versions, n) {
      FinalIsGenuine(versions, n, start, during, response, after, id);
      if id in final { TopVersion(versions, n, id, final[id]); }
    }
    forall id | id in ServerAt(versions, n)
      ensures (id in final && final[id] == ServerAt(versions, n)[id])
         <==> Delivered(start, during, response, after, ServerAt(versions, n)[id])
    {
      ArrivedWasDelivered(start, during, response, after, id);
      if Delivered(start, during, response, after, ServerAt(versions, n)[id]) {
        DeliveredArrives(versions, n, start, during, response, after, id);
      }
    }
    hide Delivered, Connected, ServerAt;
    if AllDelivered(versions, n, start, during, response, after) {
      assert final == ServerAt(versions, n);
    }
  }

  /** The list holds versions the server had at `t`, but not necessarily all of
      them: the history the server returns is cut. */
  ghost predicate ListedAt(versions: seq<Request>, t: nat, response: seq<Request>)
    requires t <= |versions|
  {
    forall id :: id in ById(response) ==> id in ServerAt(versions, t) && ById(response)[id] == ServerAt(versions, t)[id]
  }

  ghost predicate ReplayedLater(versions: seq<Request>, s: nat, n: nat, id: string)
    requires s <= n <= |versions|
  {
    exists j :: s <= j < n && versions[j].id == id
  }

  /** The catch-up protocol: subscribe at log position `s`, fetch the list at `t >= s`
      while genuine results arrive, then take every event from `s` to `n` in any
      order among further genuine results. Whatever it held before, the cache ends
      equal to the server's state at `n` exactly if every id that the list leaves out
      was delivered otherwise; so it does whenever the list is complete. */
  lemma CatchUpExact(versions: seq<Request>, s: nat, t: nat, n: nat, start: Inbox,
                     during: seq<Request>, response: seq<Request>, after: seq<Request>)
    requires Increasing(versions) && s <= t <= n <= |versions| && StampsOk(start)
    requires Genuine(versions, n, during) && Genuine(versions, n, response) && Genuine(versions, n, after)
    requires forall u :: u in versions[s..n] ==> u in after
    requires ListedAt(versions, t, response)
    ensures Connected(start, during, response, after).cache == ServerAt(versions, n)
       <==> forall id :: id in ServerAt(versions, n) && id !in ById(response) ==>
              Delivered(start, during, response, after, ServerAt(versions, n)[id])
    ensures ById(response) == ServerAt(versions, t) ==>
              Connected(start, during, response, after).cache == ServerAt(versions, n)
  {
    forall id | id in ServerAt(versions, n) && (id in ById(response) || ById(response) == ServerAt(versions, t))
      ensures Delivered(start, during, response, after, ServerAt(versions, n)[id])
    {
      ListedOrReplayed(versions, s, t, n, id);
      ReplayedMeansLater(versions, s, n, id);
    }
    CatchUpIffDelivered(versions, n, start, during, response, after);
    hide Delivered, Connected, ServerAt, ById;
  }

  /** The last version of an id is replayed, or the server already had it when the
      list was fetched after the subscription. */
  lemma ListedOrReplayed(versions: seq<Request>, s: nat, t: nat, n: nat, id: string)
    requires s <= n && t <= n <= |versions| && id in ServerAt(versions, n)
    ensures ServerAt(versions, n)[id] in versions[s..n] <== ReplayedLater(versions, s, n, id)
    ensures !ReplayedLater(versions, s, n, id) && s <= t ==>
              id in ServerAt(versions, t) && ServerAt(versions, t)[id] == ServerAt(versions, n)[id]
  {
    var i := LatestPosition(versions, n, id);
    if i >= s { assert versions[s..n][i - s] == versions[i]; }
    if i < t {
      Published(versions, t, i);
      var k := LatestPosition(versions, t, id);
      assert k == i;
    }
  }

  /** With a cut list and no results but the replay, the connection catches up
      exactly if every id the list leaves out is replayed. */
  lemma CutListCatchesUpIff(versions: seq<Request>, s: nat, t: nat, n: nat, start: Inbox, response: seq<Request>)
    requires Increasing(versions) && s <= t <= n <= |versions| && StampsOk(start)
    requires Genuine(versions, n, response) && ListedAt(versions, t, response)
    ensures Connected(start, [], response, versions[s..n]).cache == ServerAt(versions, n)
       <==> forall id :: id in ServerAt(versions, n) ==> id in ById(response) || ReplayedLater(versions, s, n, id)
  {
    GenuineReplay(versions, s, n);
    forall id | id in ServerAt(versions, n)
      ensures Delivered(start, [], response, versions[s..n], ServerAt(versions, n)[id])
         <==> id in ById(response) || ReplayedLater(versions, s, n, id)
    {
      ListedOrReplayed(versions, s, t, n, id);
      ReplayedMeansLater(versions, s, n, id);
    }
    CatchUpIffDelivered(versions, n, start, [], response, versions[s..n]);
    hide Delivered, Connected, ServerAt, ReplayedLater;
  }

  lemma GenuineReplay(versions: seq<Request>, s: nat, n: nat)
    requires s <= n <= |versions|
    ensures Genuine(versions, n, versions[s..n]) && Genuine(versions, n, [])
  {
    forall u | u in versions[s..n] ensures u in versions[..n] {
      var k :| 0 <= k < n - s && versions[s..n][k] == u;
      assert versions[..n][s + k] == u;
    }
  }

  lemma ReplayedMeansLater(versions: seq<Request>, s: nat, n: nat, id: string)
    requires s <= n <= |versions| && id in ServerAt(versions, n)
    ensures ServerAt(versions, n)[id].id == id
    ensures ServerAt(versions, n)[id] in versions[s..n] ==> ReplayedLater(versions, s, n, id)
  {
    var i := LatestPosition(versions, n, id);
    if versions[i] in versions[s..n] {
      var k :| 0 <= k < n - s && versions[s..n][k] == versions[i];
      assert versions[s + k].id == id;
    }
  }

  /** Every version published between the fetch at `t` and a later subscription
      at `s` is superseded by a replayed one. */
  ghost predicate NoGap(versions: seq<Request>, s: nat, t: nat, n: nat)
    requires s <= n && t <= n <= |versions|
  {
    forall k :: t <= k < s ==> ReplayedLater(versions, s, n, versions[k].id)
  }

  /** Every id the server had at `t` is in the list or replayed. */
  ghost predicate NothingCut(versions: seq<Request>, s: nat, t: nat, n: nat, response: seq<Request>)
    requires s <= n && t <= n <= |versions|
  {
    forall id :: id in ServerAt(versions, t) ==> id in ById(response) || ReplayedLater(versions, s, n, id)
  }

  /** Why the code subscribes first: with no local results, replaying from `s`
      after a list fetched at any `t`, complete or cut, catches up exactly when
      there is no gap and nothing that was cut is missed. */
  lemma CatchUpIff(versions: seq<Request>, s: nat, t: nat, n: nat, start: Inbox, response: seq<Request>)
    requires Increasing(versions) && s <= n && t <= n <= |versions| && StampsOk(start)
    requires Genuine(versions, n, response) && ListedAt(versions, t, response)
    ensures Connected(start, [], response, versions[s..n]).cache == ServerAt(versions, n)
       <==> NoGap(versions, s, t, n) && NothingCut(versions, s, t, n, response)
  {
    GenuineReplay(versions, s, n);
    forall id | id in ServerAt(versions, n)
      ensures Delivered(start, [], response, versions[s..n], ServerAt(versions, n)[id])
         <==> ListedUnchanged(versions, t, n, response, id) || ReplayedLater(versions, s, n, id)
    {
      ListedOrReplayed(versions, s, t, n, id);
      ReplayedMeansLater(versions, s, n, id);
    }
    CatchUpIffDelivered(versions, n, start, [], response, versions[s..n]);
    GapIff(versions, s, t, n, response);
    hide Delivered, Connected, ServerAt, ReplayedLater, ListedUnchanged, NoGap, NothingCut;
  }

  /** The list has the id, and its entry is still the last version at `n`. */
  ghost predicate ListedUnchanged(versions: seq<Request>, t: nat, n: nat, response: seq<Request>, id: string)
    requires t <= |versions| && n <= |versions| && id in ServerAt(versions, n)
  {
    id in ById(response) && ById(response)[id] == ServerAt(versions, n)[id]
  }

  ghost predicate ListedOrLater(versions: seq<Request>, s: nat, t: nat, n: nat, response: seq<Request>, id: string)
    requires s <= n && t <= n <= |versions| && id in ServerAt(versions, n)
  {
    ListedUnchanged(versions, t, n, response, id) || ReplayedLater(versions, s, n, id)
  }

  lemma GapIff(versions: seq<Request>, s: nat, t: nat, n: nat, response: seq<Request>)
    requires Increasing(versions) && s <= n && t <= n <= |versions| && ListedAt(versions, t, response)
    ensures (forall id :: id in ServerAt(versions, n) ==> ListedOrLater(versions, s, t, n, response, id))
       <==> NoGap(versions, s, t, n) && NothingCut(versions, s, t, n, response)
  {
    if NoGap(versions, s, t, n) && NothingCut(versions, s, t, n, response) {
      forall id | id in ServerAt(versions, n) ensures ListedOrLater(versions, s, t, n, response, id) {
        NoGapAt(versions, s, t, n, response, id);
      }
    }
    if forall id :: id in ServerAt(versions, n) ==> ListedOrLater(versions, s, t, n, response, id) {
      forall k | t <= k < s ensures ReplayedLater(versions, s, n, versions[k].id) {
        Published(versions, n, k);
        GapAt(versions, s, t, n, response, k);
      }
      forall id | id in ServerAt(versions, t) ensures id in ById(response) || ReplayedLater(versions, s, n, id) {
        var i := LatestPosition(versions, t, id);
        Published(versions, n, i);
      }
    }
  }

  lemma NoGapAt(versions: seq<Request>, s: nat, t: nat, n: nat, response: seq<Request>, id: string)
    requires s <= n && t <= n <= |versions| && id in ServerAt(versions, n) && ListedAt(versions, t, response)
    requires NoGap(versions, s, t, n) && NothingCut(versions, s, t, n, response)
    ensures ListedOrLater(versions, s, t, n, response, id)
  {
    var i := LatestPosition(versions, n, id);
    if i < s && i < t {
      Published(versions, t, i);
      var k := LatestPosition(versions, t, id);
      assert k == i;
    }
  }

  lemma GapAt(versions: seq<Request>, s: nat, t: nat, n: nat, response: seq<Request>, k: nat)
    requires Increasing(versions) && s <= n && t <= n <= |versions| && ListedAt(versions, t, response)
    requires t <= k < s && versions[k].id in ServerAt(versions, n)
    requires ListedOrLater(versions, s, t, n, response, versions[k].id)
    ensures ReplayedLater(versions, s, n, versions[k].id)
  {
    var id := versions[k].id;
    var i := LatestPosition(versions, n, id);
    assert i >= k;
    if id in ServerAt(versions, t) {
      var j := LatestPosition(versions, t, id);
      assert Stale(versions[j], versions[i]);
    }
  }
}
