/** The sync-loop task: snapshot refreshes, live envelopes and revocation, and
    the notification messages they put in the outbox. */
module Notifications {
  import opened Common
  import opened Requests
  import opened PlainInbox
  import opened VisibleList
  import opened Reducer
  import opened CatchUp

  datatype Message = Candidate(request: Request) | Removed(requestId: string)

  datatype Preferences = Preferences(hideContent: bool, mutedChannels: seq<string>, snoozedUntil: Option<Instant>)

  predicate AllowsAlert(p: Preferences, channel: string, now: Instant) {
    channel !in p.mutedChannels && (p.snoozedUntil.None? || p.snoozedUntil.value <= now)
  }

  function Redacted(p: Preferences, r: Request): Request {
    if p.hideContent then r.(notification := RequestNotification(true, None, None)) else r
  }

  /** The messages `emit_candidates` sends; `clock(i)` is the time read for the
      i-th candidate. */
  function Announcements(candidates: seq<Request>, p: Preferences, clock: nat -> Instant): seq<Message> {
    if candidates == [] then []
    else
      var n := |candidates| - 1;
      Announcements(candidates[..n], p, clock)
      + if AllowsAlert(p, candidates[n].channelId, clock(n)) then [Candidate(Redacted(p, candidates[n]))] else []
  }

  /** What may be sent about a candidate under the device's preferences. */
  ghost predicate Permitted(m: Message, r: Request, p: Preferences, now: Instant) {
    && m.Candidate? && m.request.(notification := r.notification) == r
    && r.channelId !in p.mutedChannels && (p.snoozedUntil.Some? ==> p.snoozedUntil.value <= now)
    && m.request.notification == (if p.hideContent then RequestNotification(true, None, None) else r.notification)
  }

  /** How many of the first `n` candidates are allowed to alert. */
  function AllowedCount(candidates: seq<Request>, p: Preferences, clock: nat -> Instant, n: nat): nat
    requires n <= |candidates|
  {
    if n == 0 then 0
    else
      AllowedCount(candidates, p, clock, n - 1)
      + if AllowsAlert(p, candidates[n - 1].channelId, clock(n - 1)) then 1 else 0
  }

  lemma {:induction false} AllowedCountPrefix(candidates: seq<Request>, p: Preferences, clock: nat -> Instant, k: nat,
                                              n: nat)
    requires n <= k <= |candidates|
    ensures AllowedCount(candidates[..k], p, clock, n) == AllowedCount(candidates, p, clock, n)
    ensures AllowedCount(candidates, p, clock, n) <= AllowedCount(candidates, p, clock, k)
    decreases n + k
  {
    if n > 0 {
      AllowedCountPrefix(candidates, p, clock, k, n - 1);
    }
    if n < k {
      AllowedCountPrefix(candidates, p, clock, k - 1, n);
    }
  }

  lemma {:induction false} AnnouncementsCount(candidates: seq<Request>, p: Preferences, clock: nat -> Instant)
    ensures |Announcements(candidates, p, clock)| == AllowedCount(candidates, p, clock, |candidates|)
  {
    hide AllowsAlert, Redacted;
    if candidates != [] {
      var n := |candidates| - 1;
      AnnouncementsCount(candidates[..n], p, clock);
      AllowedCountPrefix(candidates, p, clock, n, n);
    }
  }

  lemma {:induction false} AnnouncedAt(candidates: seq<Request>, p: Preferences, clock: nat -> Instant, i: nat)
    requires i < |candidates| && AllowsAlert(p, candidates[i].channelId, clock(i))
    ensures var (out, k) := (Announcements(candidates, p, clock), AllowedCount(candidates, p, clock, i));
            k < |out| && out[k] == Candidate(Redacted(p, candidates[i]))
  {
    hide AllowsAlert, Redacted;
    var n := |candidates| - 1;
    var front := candidates[..n];
    AnnouncementsCount(front, p, clock);
    AllowedCountPrefix(candidates, p, clock, n, i);
    AllowedCountPrefix(candidates, p, clock, n, n);
    hide AllowedCount;
    if i < n {
      assert front[i] == candidates[i];
      AnnouncedAt(front, p, clock, i);
    }
  }

  lemma {:induction false} AnnouncementFrom(candidates: seq<Request>, p: Preferences, clock: nat -> Instant, m: Message)
    requires m in Announcements(candidates, p, clock)
    ensures exists i :: 0 <= i < |candidates| && m == Candidate(Redacted(p, candidates[i]))
              && AllowsAlert(p, candidates[i].channelId, clock(i))
  {
    hide AllowsAlert, Redacted;
    var n := |candidates| - 1;
    if m in Announcements(candidates[..n], p, clock) {
      AnnouncementFrom(candidates[..n], p, clock, m);
      var i :| 0 <= i < n && m == Candidate(Redacted(p, candidates[..n][i]))
               && AllowsAlert(p, candidates[..n][i].channelId, clock(i));
      assert candidates[i] == candidates[..n][i];
    }
  }

  /** The announcements are exactly the candidates neither muted nor snoozed, each
      once and in order: the message of an allowed candidate stands behind those of
      the allowed ones before it, carries no content when the device hides it and is
      the candidate itself otherwise; of the others there is none. */
  lemma AnnouncementsRespectPreferences(candidates: seq<Request>, p: Preferences, clock: nat -> Instant)
    ensures var out := Announcements(candidates, p, clock);
            && |out| == AllowedCount(candidates, p, clock, |candidates|)
            && forall i :: 0 <= i < |candidates| ==>
                 var (r, k) := (candidates[i], AllowedCount(candidates, p, clock, i));
                 if r.channelId !in p.mutedChannels && (p.snoozedUntil.Some? ==> p.snoozedUntil.value <= clock(i))
                 then k < |out| && Permitted(out[k], r, p, clock(i))
                 else DistinctIds(candidates) ==> forall m :: m in out ==> m.Candidate? && m.request.id != r.id
  {
    AnnouncementsCount(candidates, p, clock);
    hide Announcements, AllowedCount;
    forall i | 0 <= i < |candidates|
      ensures var (r, out, k) :=
                (candidates[i], Announcements(candidates, p, clock), AllowedCount(candidates, p, clock, i));
              if r.channelId !in p.mutedChannels && (p.snoozedUntil.Some? ==> p.snoozedUntil.value <= clock(i))
              then k < |out| && Permitted(out[k], r, p, clock(i))
              else DistinctIds(candidates) ==> forall m :: m in out ==> m.Candidate? && m.request.id != r.id
    {
      if AllowsAlert(p, candidates[i].channelId, clock(i)) {
        AnnouncedAt(candidates, p, clock, i);
      } else if DistinctIds(candidates) {
        forall m | m in Announcements(candidates, p, clock) ensures m.Candidate? && m.request.id != candidates[i].id {
          AnnouncementFrom(candidates, p, clock, m);
        }
      }
    }
  }

  function Ids(rs: seq<Request>): set<string> {
    set r | r in rs :: r.id
  }

  function Deliver(live: set<string>, m: Message): set<string> {
    if m.Candidate? then live + {m.request.id} else live - {m.requestId}
  }

  /** The ids announced and not removed since. */
  function Live(outbox: seq<Message>): set<string> {
    if outbox == [] then {} else Deliver(Live(outbox[..|outbox| - 1]), outbox[|outbox| - 1])
  }

  /** Nothing is announced while an earlier announcement of it stands. */
  ghost predicate Disciplined(outbox: seq<Message>) {
    forall i :: 0 <= i < |outbox| && outbox[i].Candidate? ==> outbox[i].request.id !in Live(outbox[..i])
  }

  lemma LiveSnoc(outbox: seq<Message>, m: Message)
    ensures Live(outbox + [m]) == Deliver(Live(outbox), m)
  {
    assert (outbox + [m])[..|outbox|] == outbox;
  }

  lemma DisciplinedSnoc(outbox: seq<Message>, m: Message)
    requires Disciplined(outbox) && (m.Candidate? ==> m.request.id !in Live(outbox))
    ensures Disciplined(outbox + [m])
  {
    forall i | 0 <= i <= |outbox| ensures (outbox + [m])[..i] == outbox[..i] {
    }
  }

  /** Two announcements of one request have its removal between them. */
  lemma AnnouncedAgainOnlyAfterRemoval(outbox: seq<Message>, i: nat, j: nat)
    requires Disciplined(outbox) && i < j < |outbox|
    requires outbox[i].Candidate? && outbox[j].Candidate? && outbox[i].request.id == outbox[j].request.id
    ensures exists k :: i < k < j && outbox[k] == Removed(outbox[i].request.id)
  {
    StaysLive(outbox, i, j);
  }

  lemma {:induction false} StaysLive(outbox: seq<Message>, i: nat, j: nat)
    requires i < j <= |outbox| && outbox[i].Candidate?
    ensures outbox[i].request.id in Live(outbox[..j])
         || exists k :: i < k < j && outbox[k] == Removed(outbox[i].request.id)
  {
    assert outbox[..j] == outbox[..j - 1] + [outbox[j - 1]];
    LiveSnoc(outbox[..j - 1], outbox[j - 1]);
    if j > i + 1 {
      StaysLive(outbox, i, j - 1);
    }
  }

  lemma {:induction false} AnnounceAll(outbox: seq<Message>, candidates: seq<Request>, p: Preferences,
                                       clock: nat -> Instant)
    requires Disciplined(outbox) && DistinctIds(candidates)
    requires Ids(candidates) !! Live(outbox)
    ensures var out := outbox + Announcements(candidates, p, clock);
            Disciplined(out) && Live(outbox) <= Live(out) <= Live(outbox) + Ids(candidates)
  {
    hide Disciplined, AllowsAlert;
    if candidates == [] {
      assert outbox + [] == outbox;
    } else {
      var n := |candidates| - 1;
      var r := candidates[n];
      var sofar := outbox + Announcements(candidates[..n], p, clock);
      assert candidates == candidates[..n] + [r];
      assert Ids(candidates) == Ids(candidates[..n]) + {r.id};
      AnnounceAll(outbox, candidates[..n], p, clock);
      assert r.id !in Ids(candidates[..n]);
      assert r.id in Ids(candidates);
      if AllowsAlert(p, r.channelId, clock(n)) {
        var m := Candidate(Redacted(p, r));
        LiveSnoc(sofar, m);
        DisciplinedSnoc(sofar, m);
        assert outbox + Announcements(candidates, p, clock) == sofar + [m];
      } else {
        assert outbox + Announcements(candidates, p, clock) == sofar;
      }
    }
  }

  // ----- Announced again only after leaving the pending requests -----

  /** What was pending just before a step, and how many messages had been sent. */
  datatype Moment = Moment(sent: nat, pending: set<string>)

  ghost predicate LeftAt(m: Moment, i: nat, j: nat, id: string) {
    i < m.sent <= j && id !in m.pending
  }

  ghost predicate LeftBetween(moments: seq<Moment>, i: nat, j: nat, id: string) {
    exists k :: 0 <= k < |moments| && LeftAt(moments[k], i, j, id)
  }

  ghost predicate Again(outbox: seq<Message>, i: nat, j: nat)
    requires i < j < |outbox|
  {
    outbox[i].Candidate? && outbox[j].Candidate? && outbox[i].request.id == outbox[j].request.id
  }

  /** Between two announcements of a request it was at some moment not pending. */
  ghost predicate LeavesFirst(outbox: seq<Message>, moments: seq<Moment>) {
    forall i, j :: 0 <= i < j < |outbox| && Again(outbox, i, j) ==> LeftBetween(moments, i, j, outbox[i].request.id)
  }

  /** Announcements of different requests, none of which is among `known`. */
  ghost predicate Fresh(added: seq<Message>, known: set<string>) {
    && (forall i :: 0 <= i < |added| && added[i].Candidate? ==> added[i].request.id !in known)
    && (forall i, j :: 0 <= i < j < |added| ==> !Again(added, i, j))
  }

  /** A step that announces, each once, only requests that were not pending before
      it, keeps this so. */
  lemma LeavesFirstStep(outbox: seq<Message>, moments: seq<Moment>, known: set<string>, added: seq<Message>)
    requires LeavesFirst(outbox, moments) && Fresh(added, known)
    ensures LeavesFirst(outbox + added, moments + [Moment(|outbox|, known)])
  {
    var (out, all, now) := (outbox + added, moments + [Moment(|outbox|, known)], Moment(|outbox|, known));
    forall i, j | 0 <= i < j < |out| && Again(out, i, j) ensures LeftBetween(all, i, j, out[i].request.id) {
      var id := out[i].request.id;
      assert i >= |outbox| ==> !Again(added, i - |outbox|, j - |outbox|);
      assert i < |outbox|;
      if j < |outbox| {
        assert Again(outbox, i, j);
        var k :| 0 <= k < |moments| && LeftAt(moments[k], i, j, id);
        assert LeftAt(all[k], i, j, id);
      } else {
        assert out[j] == added[j - |outbox|];
        assert all[|moments|] == now && LeftAt(all[|moments|], i, j, id);
      }
    }
  }

  lemma LeavesFirstRemovals(outbox: seq<Message>, moments: seq<Moment>, out: seq<Message>)
    requires LeavesFirst(outbox, moments) && outbox <= out
    requires forall i :: |outbox| <= i < |out| ==> out[i].Removed?
    ensures LeavesFirst(out, moments)
  {
    forall i, j | 0 <= i < j < |out| && Again(out, i, j) ensures LeftBetween(moments, i, j, out[i].request.id) {
      assert Again(outbox, i, j);
    }
  }

  lemma {:induction false} AnnouncementsFresh(candidates: seq<Request>, p: Preferences, clock: nat -> Instant,
                                              known: set<string>)
    requires DistinctIds(candidates) && Ids(candidates) !! known
    ensures Fresh(Announcements(candidates, p, clock), known)
    ensures forall m :: m in Announcements(candidates, p, clock) ==> m.Candidate? && m.request.id in Ids(candidates)
  {
    hide AllowsAlert;
    if candidates != [] {
      var n := |candidates| - 1;
      var (front, r) := (candidates[..n], candidates[n]);
      assert candidates == front + [r];
      assert Ids(candidates) == Ids(front) + {r.id};
      AnnouncementsFresh(front, p, clock, known);
      assert r.id !in Ids(front) && r.id in Ids(candidates);
      FreshSnoc(Announcements(front, p, clock), known, Candidate(Redacted(p, r)));
      hide Fresh;
      assert Announcements(front, p, clock) + [] == Announcements(front, p, clock);
    }
  }

  lemma FreshSnoc(added: seq<Message>, known: set<string>, m: Message)
    requires Fresh(added, known) && m.Candidate? && m.request.id !in known
    requires forall x :: x in added ==> x.Candidate? && x.request.id != m.request.id
    ensures Fresh(added + [m], known)
  {
    forall i, j | 0 <= i < j < |added + [m]| ensures !Again(added + [m], i, j) {
      assert added[i] in added;
      if j < |added| { assert !Again(added, i, j); }
    }
  }

  // ----- Announcing late -----

  function AnnouncedIds(candidates: seq<Request>, p: Preferences, clock: nat -> Instant): set<string> {
    if candidates == [] then {}
    else
      var n := |candidates| - 1;
      AnnouncedIds(candidates[..n], p, clock)
      + if AllowsAlert(p, candidates[n].channelId, clock(n)) then {candidates[n].id} else {}
  }

  lemma LastAnnouncement(candidates: seq<Request>, p: Preferences, clock: nat -> Instant)
    requires candidates != []
    ensures var (n, allowed) := (|candidates| - 1, AllowsAlert(p, candidates[|candidates| - 1].channelId,
                                                               clock(|candidates| - 1)));
            var (front, r) := (candidates[..n], candidates[n]);
            && Announcements(candidates, p, clock)
               == Announcements(front, p, clock) + (if allowed then [Candidate(Redacted(p, r))] else [])
            && AnnouncedIds(candidates, p, clock) == AnnouncedIds(front, p, clock) + (if allowed then {r.id} else {})
            && Redacted(p, r).id == r.id
  {
  }

  lemma {:induction false} LiveOfAnnouncements(outbox: seq<Message>, candidates: seq<Request>, p: Preferences,
                                               clock: nat -> Instant)
    ensures Live(outbox + Announcements(candidates, p, clock)) == Live(outbox) + AnnouncedIds(candidates, p, clock)
  {
    if candidates == [] {
      assert outbox + [] == outbox;
    } else {
      var n := |candidates| - 1;
      var front := candidates[..n];
      LiveOfAnnouncements(outbox, front, p, clock);
      LastAnnouncement(candidates, p, clock);
      hide Announcements, AnnouncedIds, AllowsAlert, Redacted, Live;
      var (sent, m) := (Announcements(front, p, clock), Candidate(Redacted(p, candidates[n])));
      LiveSnoc(outbox + sent, m);
      assert outbox + (sent + [m]) == outbox + sent + [m] && sent + [] == sent;
    }
  }

  /** The reducer is released before its candidates are announced. If results of the
      host fall in between, leaving `outbox` and `pending`, the standing announcements
      stay within the pending requests exactly if none of the requests announced late
      was handled meanwhile. */
  lemma LateAnnouncementsStandIff(outbox: seq<Message>, candidates: seq<Request>, p: Preferences,
                                  clock: nat -> Instant, pending: set<string>)
    requires Live(outbox) <= pending
    ensures Live(outbox + Announcements(candidates, p, clock)) <= pending
            <==> AnnouncedIds(candidates, p, clock) <= pending
  {
    LiveOfAnnouncements(outbox, candidates, p, clock);
  }

  class SyncTask {
    const reducer: StateReducer
    var outbox: seq<Message>
    ghost var moments: seq<Moment>

    /** The loop's invariant over every run: the index is exact, every standing
        announcement is for a request that is still pending, and between two
        announcements of a request it had left the pending ones. */
    ghost predicate Valid()
      reads this, reducer
    {
      && reducer.Valid() && Disciplined(outbox) && Live(outbox) <= reducer.knownPending.Keys
      && LeavesFirst(outbox, moments)
    }

    constructor (reducer: StateReducer)
      requires reducer.Valid()
      ensures Valid() && this.reducer == reducer && outbox == [] && moments == []
    {
      this.reducer := reducer;
      outbox, moments := [], [];
    }

    /** `emit_candidates`. */
    method EmitCandidates(candidates: seq<Request>, p: Preferences, clock: nat -> Instant)
      modifies this`outbox
      ensures outbox == old(outbox) + Announcements(candidates, p, clock)
    {
      for i := 0 to |candidates|
        invariant outbox == old(outbox) + Announcements(candidates[..i], p, clock)
      {
        assert candidates[..i + 1][..i] == candidates[..i];
        if !AllowsAlert(p, candidates[i].channelId, clock(i)) {
          continue;
        }
        outbox := outbox + [Candidate(Redacted(p, candidates[i]))];
      }
      assert candidates[..|candidates|] == candidates;
    }

    /** `emit_candidates` after a step before which `known` was pending. */
    method Announce(candidates: seq<Request>, ghost known: set<string>, p: Preferences, clock: nat -> Instant)
      requires Disciplined(outbox) && Live(outbox) <= known && LeavesFirst(outbox, moments)
      requires DistinctIds(candidates) && Ids(candidates) !! known
      modifies this`outbox, this`moments
      ensures outbox == old(outbox) + Announcements(candidates, p, clock)
      ensures moments == old(moments) + [Moment(|old(outbox)|, known)]
      ensures Disciplined(outbox) && LeavesFirst(outbox, moments)
      ensures old(Live(outbox)) <= Live(outbox) <= old(Live(outbox)) + Ids(candidates)
    {
      hide Disciplined, LeavesFirst, Fresh, Live, Announcements;
      AnnounceAll(outbox, candidates, p, clock);
      AnnouncementsFresh(candidates, p, clock, known);
      LeavesFirstStep(outbox, moments, known, Announcements(candidates, p, clock));
      moments := moments + [Moment(|outbox|, known)];
      EmitCandidates(candidates, p, clock);
    }

    method EmitRemovals(removed: set<string>)
      requires Disciplined(outbox)
      modifies this`outbox
      ensures Disciplined(outbox) && Live(outbox) == old(Live(outbox)) - removed
      ensures old(outbox) <= outbox
      ensures forall i :: |old(outbox)| <= i < |outbox| ==> outbox[i].Removed? && outbox[i].requestId in removed
      ensures forall id :: id in removed ==> Removed(id) in outbox[|old(outbox)|..]
    {
      var left := removed;
      while left != {}
        invariant left <= removed
        invariant Disciplined(outbox) && Live(outbox) == old(Live(outbox)) - (removed - left)
        invariant old(outbox) <= outbox
        invariant forall i :: |old(outbox)| <= i < |outbox| ==> outbox[i].Removed? && outbox[i].requestId in removed
        invariant forall id :: id in removed - left ==> Removed(id) in outbox[|old(outbox)|..]
      {
        var id :| id in left;
        LiveSnoc(outbox, Removed(id));
        DisciplinedSnoc(outbox, Removed(id));
        outbox := outbox + [Removed(id)];
        left := left - {id};
      }
    }

    method Remove(id: string)
      requires Disciplined(outbox) && LeavesFirst(outbox, moments)
      modifies this`outbox
      ensures outbox == old(outbox) + [Removed(id)]
      ensures Disciplined(outbox) && LeavesFirst(outbox, moments) && Live(outbox) == old(Live(outbox)) - {id}
    {
      LiveSnoc(outbox, Removed(id));
      DisciplinedSnoc(outbox, Removed(id));
      LeavesFirstRemovals(outbox, moments, outbox + [Removed(id)]);
      outbox := outbox + [Removed(id)];
    }

    /** A result of the host's own calls, as `apply_targeted_request` takes it: the
        update, and the removal of the notification of a handled request. */
    method HostResult(request: Request)
      requires Valid()
      modifies this`outbox, reducer
      ensures Valid() && reducer.Model() == Update(old(reducer.Model()), request)
      ensures outbox == old(outbox) + if request.status.Pending? then [] else [Removed(request.id)]
    {
      hide IsVisibleList, CountsAgree, Snapshot, Update, LeavesFirst;
      UpdatePending(reducer.Model(), request);
      var _ := reducer.ApplyRequestUpdate(request);
      if !request.status.Pending? { Remove(request.id); }
    }

    method HostResults(results: seq<Request>)
      requires Valid()
      modifies this`outbox, reducer
      ensures Valid() && reducer.Model() == Updates(old(reducer.Model()), results)
      ensures reducer.hasLoaded == old(reducer.hasLoaded)
      ensures old(outbox) <= outbox
    {
      hide IsVisibleList, CountsAgree, Snapshot;
      for i := 0 to |results|
        invariant Valid() && reducer.Model() == Updates(old(reducer.Model()), results[..i])
        invariant reducer.hasLoaded == old(reducer.hasLoaded) && old(outbox) <= outbox
      {
        assert results[..i + 1][..i] == results[..i];
        HostResult(results[i]);
      }
      assert results[..|results|] == results;
    }

    /** `SnapshotContext::refresh`; `meanwhile` are the results of host calls between
        reading the revision and applying the snapshot. `known` is what was pending
        when the snapshot was applied, `sent` what had been sent by then. */
    method Refresh(channels: seq<Channel>, meanwhile: seq<Request>, response: seq<Request>, p: Preferences,
                   clock: nat -> Instant)
      returns (candidates: seq<Request>, removed: set<string>, known: set<string>, ghost sent: seq<Message>)
      requires Valid()
      modifies this`outbox, this`moments, reducer
      ensures Valid()
      ensures reducer.Model()
              == Snapshot(Updates(old(reducer.Model()), meanwhile), ById(response), old(reducer.revision))
      ensures known == PendingIndex(Updates(old(reducer.Model()), meanwhile).cache).Keys
      ensures Ids(candidates) !! known && removed <= known && removed !! reducer.knownPending.Keys
      ensures old(reducer.hasLoaded) ==> reducer.knownPending.Keys == known - removed + Ids(candidates)
      ensures !old(reducer.hasLoaded) ==> candidates == []
      ensures old(outbox) <= sent && sent + Announcements(candidates, p, clock) <= outbox
      ensures var start := |sent| + |Announcements(candidates, p, clock)|;
              && (forall i :: start <= i < |outbox| ==> outbox[i].Removed? && outbox[i].requestId in removed)
              && (forall id :: id in removed ==> Removed(id) in outbox[start..])
      ensures moments == old(moments) + [Moment(|sent|, known)]
    {
      hide IsVisibleList, CountsAgree, Snapshot, Update, Updates, LeavesFirst, Fresh;
      var revision := reducer.revision;
      HostResults(meanwhile);
      known := reducer.knownPending.Keys;
      sent := outbox;
      ghost var loaded := reducer.hasLoaded;
      candidates := reducer.ApplySnapshot(channels, response, revision);
      removed := known - reducer.knownPending.Keys;
      NewPendingIds(candidates, reducer.requestsById, known, loaded);
      Announce(candidates, known, p, clock);
      ghost var announced := outbox;
      EmitRemovals(removed);
      LeavesFirstRemovals(announced, moments, outbox);
      assert loaded ==> reducer.knownPending.Keys == known - removed + Ids(candidates);
    }

    /** `apply_sync_envelope` of the sync task: apply, announce, and remove the
        notification of any request that arrives handled. */
    method ApplyEnvelope(kind: string, channel: Option<Channel>, request: Option<Request>, p: Preferences,
                         clock: nat -> Instant)
      requires Valid()
      modifies this`outbox, this`moments, reducer
      ensures Valid()
      ensures reducer.Model() ==
              if request.Some? then Update(old(reducer.Model()), request.value) else old(reducer.Model())
      ensures request.Some? && !request.value.status.Pending? ==>
                outbox == old(outbox) + [Removed(request.value.id)]
      ensures request.None? ==> outbox == old(outbox)
      ensures request.Some? && request.value.status.Pending? ==>
                outbox == old(outbox) + Announcements(
                  if kind == "created" && Accepts(old(reducer.Model()), request.value)
                     && request.value.id !in old(reducer.knownPending)
                  then [request.value] else [], p, clock)
      ensures moments == old(moments) + [Moment(|old(outbox)|, old(reducer.knownPending.Keys))]
    {
      hide IsVisibleList, CountsAgree, Snapshot, Update, LeavesFirst, Fresh, Disciplined, Live, PendingIndex, StampsOk;
      if request.Some? { UpdatePending(reducer.Model(), request.value); }
      ghost var known := reducer.knownPending.Keys;
      var candidates := reducer.ApplySyncEnvelope(kind, channel, request);
      Announce(candidates, known, p, clock);
      if request.Some? && !request.value.status.Pending? {
        assert outbox == old(outbox);
        Remove(request.value.id);
      }
    }

    /** The revocation branch of `run_sync_loop`. */
    method Revoke()
      requires Valid()
      modifies this`outbox, reducer
      ensures Valid() && Live(outbox) == {}
      ensures reducer.Model() == Clear(old(reducer.Model()))
      ensures old(outbox) <= outbox
      ensures forall i :: |old(outbox)| <= i < |outbox| ==>
                outbox[i].Removed? && outbox[i].requestId in old(reducer.knownPending)
      ensures forall id :: id in old(reducer.knownPending) ==> Removed(id) in outbox[|old(outbox)|..]
    {
      var pendingIds := reducer.knownPending.Keys;
      ghost var before := outbox;
      reducer.ClearLoadedData();
      EmitRemovals(pendingIds);
      hide LeavesFirst;
      LeavesFirstRemovals(before, moments, outbox);
    }
  }

  /** One update changes the pending ids by at most its own id. */
  lemma UpdatePending(s: Inbox, r: Request)
    ensures var before, after := PendingIndex(s.cache).Keys, PendingIndex(Update(s, r).cache).Keys;
            before - {r.id} <= after && (r.status.Pending? ==> before <= after)
            && (r.status.Pending? && Accepts(s, r) ==> r.id in after)
  {
  }

  lemma NewPendingIds(candidates: seq<Request>, cache: map<string, Request>, known: set<string>, loaded: bool)
    requires Keyed(cache)
    requires forall r :: r in candidates <==> loaded && PendingMember(cache, r) && r.id !in known
    ensures Ids(candidates) == if loaded then PendingIndex(cache).Keys - known else {}
    ensures !loaded ==> candidates == []
  {
    assert candidates != [] ==> candidates[0] in candidates;
    forall id | loaded && id in PendingIndex(cache) && id !in known ensures id in Ids(candidates) {
      assert cache[id] in candidates;
    }
  }
}
