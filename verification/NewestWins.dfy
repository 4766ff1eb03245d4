/** The inbox in terms of time and status alone: newer versions win, and at one time
    handled ones. */
module NewestWins {
  import opened Common
  import opened Requests
  import opened PlainInbox
  import opened CatchUp

  /** `b` is as new as `a`: later, or of the same time and not pending after handled. */
  ghost predicate AsNew(b: Request, a: Request) {
    b.updatedAt > a.updatedAt || (b.updatedAt == a.updatedAt && (!b.status.Pending? || a.status.Pending?))
  }

  lemma StaleByTime(a: Request, b: Request)
    ensures Stale(a, b) <==> !AsNew(a, b)
  {
  }

  /** One update: a later version is always cached, an earlier one changes nothing, and
      of two versions of one time the arriving one is cached unless it would reopen a
      handled request. */
  lemma UpdateByTime(s: Inbox, r: Request)
    ensures r.id !in s.cache ==> Update(s, r).cache == s.cache[r.id := r]
    ensures r.id in s.cache ==>
              var (held, after) := (s.cache[r.id], Update(s, r));
              && (r.updatedAt > held.updatedAt ==> after.cache == s.cache[r.id := r])
              && (r.updatedAt < held.updatedAt ==> after == s)
              && (r.updatedAt == held.updatedAt ==>
                    if r.status.Pending? && !held.status.Pending? then after == s
                    else after.cache == s.cache[r.id := r])
  {
  }

  /** The versions of an id a run of updates meets: the one held at first, and its updates. */
  ghost predicate Met(s: Inbox, us: seq<Request>, id: string, v: Request) {
    (id in s.cache && v == s.cache[id]) || (v in us && v.id == id)
  }

  /** After any run of updates the cached version of an id is one of those met, none of
      them is later, and it is handled if one of its time is. */
  lemma NewestKept(s: Inbox, us: seq<Request>, id: string)
    ensures var t := Updates(s, us).cache;
            && (id in t <==> exists v :: Met(s, us, id, v))
            && (id in t ==>
                  && Met(s, us, id, t[id])
                  && forall v :: Met(s, us, id, v) ==>
                       && v.updatedAt <= t[id].updatedAt
                       && (v.updatedAt == t[id].updatedAt && !v.status.Pending? ==> !t[id].status.Pending?))
  {
    UpdatesAt(s, us, id);
    CachedIsMet(s, us, id);
    var t := Updates(s, us).cache;
    if id in t { assert Met(s, us, id, t[id]); }
    hide Updates;
  }

  lemma {:induction false} CachedIsMet(s: Inbox, us: seq<Request>, id: string)
    ensures var t := Updates(s, us).cache; id in t ==> Met(s, us, id, t[id])
  {
    if us != [] {
      CachedIsMet(s, us[..|us| - 1], id);
      assert us == us[..|us| - 1] + [us[|us| - 1]];
    }
  }

  /** A snapshot: an id that did not change since the fetch began is taken from the
      response, present or absent. One that did is kept, unless the response has a later
      version, or a handled one of the same time in place of a pending one. */
  lemma SnapshotByTime(s: Inbox, response: seq<Request>, started: nat, id: string)
    ensures var (after, listed) := (Snapshot(s, ById(response), started).cache, ById(response));
            var changed := id in s.cache && id in s.stamps && s.stamps[id] > started;
            && (!changed ==> (id in after <==> id in listed) && (id in after ==> after[id] == listed[id]))
            && (changed ==>
                  && id in after
                  && (id !in listed ==> after[id] == s.cache[id])
                  && (id in listed && listed[id].updatedAt > s.cache[id].updatedAt ==> after[id] == listed[id])
                  && (id in listed && listed[id].updatedAt < s.cache[id].updatedAt ==> after[id] == s.cache[id])
                  && (id in listed && listed[id].updatedAt == s.cache[id].updatedAt ==>
                        after[id] == if s.cache[id].status.Pending? && !listed[id].status.Pending?
                                     then listed[id] else s.cache[id]))
  {
  }

  /** A version a connection is bound to respect: listed, replayed, or arrived while the
      list was fetched and as new as what was held at the start. */
  ghost predicate Binding(start: Inbox, during: seq<Request>, response: seq<Request>, after: seq<Request>, v: Request) {
    || (v.id in ById(response) && ById(response)[v.id] == v)
    || v in after
    || (v in during && (v.id in start.cache ==> AsNew(v, start.cache[v.id])))
  }

  /** A whole connection never loses a newer version: of every id it ends with a version
      that none of those it is bound to respect is newer than, and that is one of them. */
  lemma ConnectionKeepsNewest(start: Inbox, during: seq<Request>, response: seq<Request>, after: seq<Request>,
                              v: Request)
    requires StampsOk(start)
    ensures var final := Connected(start, during, response, after).cache;
            && (Binding(start, during, response, after, v) ==> v.id in final && AsNew(final[v.id], v))
            && (v.id in final && final[v.id] == v ==> Binding(start, during, response, after, v))
  {
    var synced := Snapshot(Updates(start, during), ById(response), start.revision);
    SyncedAt(start, during, response, v.id, v);
    UpdatesAt(synced, after, v.id);
    if v.id in start.cache { StaleByTime(v, start.cache[v.id]); }
    assert Accepts(start, v) <==> v.id !in start.cache || AsNew(v, start.cache[v.id]);
    hide Snapshot, ById, Updates, StampsOk;
    if v.id in synced.cache { StaleByTime(synced.cache[v.id], v); }
    var final := Updates(synced, after).cache;
    if v.id in final {
      StaleByTime(final[v.id], v);
      if v.id in synced.cache {
        StaleByTime(final[v.id], synced.cache[v.id]);
        StaleIsStrictWeakOrder(final[v.id], synced.cache[v.id], v);
      }
    }
  }

  /** The server's log, in these terms. */
  lemma IncreasingByTime(versions: seq<Request>)
    ensures Increasing(versions) <==>
              forall i, j :: 0 <= i < j < |versions| && versions[i].id == versions[j].id ==>
                versions[i].updatedAt < versions[j].updatedAt
                || (versions[i].updatedAt == versions[j].updatedAt
                    && versions[i].status.Pending? && !versions[j].status.Pending?)
  {
  }

  /** Clearing the inbox forgets every request but not the count of changes: a list
      fetched across it is taken as it is, except for what arrives after the clearing. */
  lemma ClearedThenListed(s: Inbox, us: seq<Request>, response: seq<Request>, id: string)
    requires StampsOk(s)
    ensures Clear(s).cache == map[] && Clear(s).revision == s.revision && !Clear(s).loaded
    ensures var after := Snapshot(Updates(Clear(s), us), ById(response), s.revision).cache;
            && ((forall u :: u in us ==> u.id != id) ==>
                  (id in after <==> id in ById(response)) && (id in after ==> after[id] == ById(response)[id]))
            && (forall u :: u in us && u.id == id ==> id in after && AsNew(after[id], u))
  {
    assert forall u :: u in us ==> Accepts(Clear(s), u);
    if (forall u :: u in us ==> u.id != id) {
      assert !Touched(Clear(s), us, id);
      SnapshotReplacesUntouched(Clear(s), us, id, response);
    }
    forall u | u in us && u.id == id
      ensures var after := Snapshot(Updates(Clear(s), us), ById(response), s.revision).cache;
              id in after && AsNew(after[id], u)
    {
      SyncedAt(Clear(s), us, response, id, u);
      StaleByTime(Snapshot(Updates(Clear(s), us), ById(response), s.revision).cache[id], u);
    }
  }

  /** A snapshot leaves the revision and the stamps of what it keeps alone, so an update
      accepted since a revision is not lost to any number of lists fetched since then. */
  lemma {:induction false} SnapshotsKeepAccepted(s: Inbox, us: seq<Request>, responses: seq<seq<Request>>, u: Request)
    requires StampsOk(s) && u in us && (u.id in s.cache ==> AsNew(u, s.cache[u.id]))
    ensures var t := Listed(Updates(s, us), responses, s.revision);
            && StampsOk(t) && u.id in t.cache && AsNew(t.cache[u.id], u)
            && u.id in t.stamps && t.stamps[u.id] > s.revision && t.revision == Updates(s, us).revision
  {
    if responses == [] {
      assert Accepts(s, u) && Touched(s, us, u.id);
      StampsMarkAccepted(s, us, u.id);
      UpdatesAt(s, us, u.id);
      UpdatesStampsOk(s, us);
    } else {
      var n := |responses| - 1;
      SnapshotsKeepAccepted(s, us, responses[..n], u);
      var before := Listed(Updates(s, us), responses[..n], s.revision);
      SnapshotStampsOk(before, responses[n], s.revision);
      SnapshotByTime(before, responses[n], s.revision, u.id);
      hide Updates, ById, StampsOk, MergedCache;
    }
  }

  /** Snapshots one after another, all fetched from the same revision on. */
  function Listed(s: Inbox, responses: seq<seq<Request>>, started: nat): Inbox {
    if responses == [] then s
    else Snapshot(Listed(s, responses[..|responses| - 1], started), ById(responses[|responses| - 1]), started)
  }
}
