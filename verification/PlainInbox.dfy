/** The plain inbox: a cache of requests by id, the revision counter and the
    per-request revision stamps. The reducer's incremental indexes are proved
    against this model, and the protocol results are stated over its runs. */
module PlainInbox {
  import opened Common
  import opened Requests

  datatype Inbox = Inbox(cache: map<string, Request>, revision: nat, stamps: map<string, nat>, loaded: bool)

  /** `request_is_stale`: would `candidate` take `current` backwards? */
  predicate Stale(candidate: Request, current: Request) {
    current.updatedAt > candidate.updatedAt
    || (current.updatedAt == candidate.updatedAt && !current.status.Pending? && candidate.status.Pending?)
  }

  ghost predicate SameRank(a: Request, b: Request) {
    !Stale(a, b) && !Stale(b, a)
  }

  /** Staleness puts the earlier version, and of one time the pending one before the
      handled one, behind. It is a strict weak order: irreflexive, transitive, and with
      ties that are transitive and never separate two versions in their order to a
      third. */
  lemma StaleIsStrictWeakOrder(a: Request, b: Request, c: Request)
    ensures a.updatedAt < b.updatedAt ==> Stale(a, b) && !Stale(b, a)
    ensures a.updatedAt == b.updatedAt ==> (Stale(a, b) <==> a.status.Pending? && !b.status.Pending?)
    ensures !Stale(a, a) && !(Stale(a, b) && Stale(b, a))
    ensures Stale(a, b) && Stale(b, c) ==> Stale(a, c)
    ensures SameRank(a, b) && SameRank(b, c) ==> SameRank(a, c)
    ensures SameRank(a, b) ==> (Stale(a, c) <==> Stale(b, c)) && (Stale(c, a) <==> Stale(c, b))
  {
  }

  /** Hence any versions of a request include one that none of them outranks: a
      cache that has seen them all has somewhere to settle. */
  lemma {:induction false} TopExists(us: set<Request>) returns (top: Request)
    requires us != {}
    ensures top in us && forall u :: u in us ==> !Stale(top, u)
    decreases us
  {
    var u :| u in us;
    top := u;
    if us != {u} {
      var rest := TopExists(us - {u});
      if Stale(u, rest) { top := rest; }
      StaleIsStrictWeakOrder(u, rest, rest);
      forall v | v in us ensures !Stale(top, v) {
        StaleIsStrictWeakOrder(u, rest, v);
        StaleIsStrictWeakOrder(rest, u, v);
      }
    }
  }

  ghost predicate Keyed(m: map<string, Request>) {
    forall id :: id in m ==> m[id].id == id
  }

  predicate Accepts(s: Inbox, r: Request) {
    r.id !in s.cache || !Stale(r, s.cache[r.id])
  }

  /** `apply_request_update` on the plain inbox. */
  function Update(s: Inbox, r: Request): Inbox {
    if Accepts(s, r)
    then s.(cache := s.cache[r.id := r], revision := s.revision + 1, stamps := s.stamps[r.id := s.revision + 1])
    else s
  }

  /** Collecting a response list into a map: the last entry of an id wins. */
  function ById(rs: seq<Request>): map<string, Request> {
    if rs == [] then map[]
    else var last := rs[|rs| - 1]; ById(rs[..|rs| - 1])[last.id := last]
  }

  function Stamp(s: Inbox, id: string): nat {
    if id in s.stamps then s.stamps[id] else 0
  }

  /** A cached request survives a snapshot fetched from revision `started` when
      it changed during the fetch and the snapshot has nothing newer. */
  predicate Keeps(s: Inbox, fetched: map<string, Request>, started: nat, id: string) {
    id in s.cache && Stamp(s, id) > started && !(id in fetched && Stale(s.cache[id], fetched[id]))
  }

  function MergedCache(s: Inbox, fetched: map<string, Request>, started: nat): map<string, Request> {
    map id | id in s.cache.Keys + fetched.Keys && (id in fetched || Keeps(s, fetched, started, id)) ::
      if Keeps(s, fetched, started, id) then s.cache[id] else fetched[id]
  }

  /** `apply_snapshot` on the plain inbox. */
  function Snapshot(s: Inbox, fetched: map<string, Request>, started: nat): Inbox {
    var cache := MergedCache(s, fetched, started);
    Inbox(cache, s.revision, map id | id in s.stamps && id in cache :: s.stamps[id], true)
  }

  /** `clear_loaded_data`: the revision counter is not reset. */
  function Clear(s: Inbox): Inbox {
    Inbox(map[], s.revision, map[], false)
  }

  /** Stamps belong to cached ids and never exceed the revision counter. */
  ghost predicate StampsOk(s: Inbox) {
    Keyed(s.cache) && forall id :: id in s.stamps ==> id in s.cache && s.stamps[id] <= s.revision
  }

  ghost function PendingIndex(cache: map<string, Request>): map<string, string> {
    map id | id in cache && cache[id].status.Pending? :: cache[id].channelId
  }

  lemma {:induction false} ByIdKeyed(rs: seq<Request>)
    ensures Keyed(ById(rs))
    ensures forall id :: id in ById(rs) ==> ById(rs)[id] in rs
    ensures forall r :: r in rs ==> r.id in ById(rs)
  {
    if rs != [] {
      ByIdKeyed(rs[..|rs| - 1]);
      assert rs == rs[..|rs| - 1] + [rs[|rs| - 1]];
    }
  }

  /** The `i`-th entry is the last of its id. */
  ghost predicate LastOfId(rs: seq<Request>, i: nat)
    requires i < |rs|
  {
    forall j :: i < j < |rs| ==> rs[j].id != rs[i].id
  }

  /** The map holds exactly the last entry of every id that occurs. */
  lemma {:induction false} ByIdLastWins(rs: seq<Request>, id: string)
    ensures id in ById(rs) <==> exists r :: r in rs && r.id == id
    ensures forall i :: 0 <= i < |rs| && rs[i].id == id && LastOfId(rs, i) ==> id in ById(rs) && ById(rs)[id] == rs[i]
    ensures id in ById(rs) ==> exists i :: 0 <= i < |rs| && rs[i].id == id && LastOfId(rs, i)
  {
    if rs != [] {
      var n := |rs| - 1;
      var front := rs[..n];
      ByIdLastWins(front, id);
      assert rs == front + [rs[n]];
      assert LastOfId(rs, n);
      if rs[n].id != id {
        assert forall i :: 0 <= i < n && rs[i].id == id ==> (LastOfId(rs, i) <==> LastOfId(front, i));
      }
    }
  }

  lemma SnapshotStampsOk(s: Inbox, rs: seq<Request>, started: nat)
    requires StampsOk(s)
    ensures StampsOk(Snapshot(s, ById(rs), started))
  {
    ByIdKeyed(rs);
  }
}
