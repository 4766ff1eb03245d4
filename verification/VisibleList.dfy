/** The inbox list: pending requests first, then the newest handled ones up to a
    cap. The declarative meaning is `VisibleSet` in the order `Before`; the Rust
    filter loop and the Swift copy are proved against it. */
module VisibleList {
  import opened Common
  import opened Requests

  const HANDLED_REQUEST_DISPLAY_LIMIT: nat := 500

  function StatusRank(status: RequestStatus): nat {
    if status.Pending? then 0 else 1
  }

  /** The comparator of `visible_requests`: status rank, then newest first, then
      greatest id first. */
  predicate Before(a: Request, b: Request) {
    StatusRank(a.status) < StatusRank(b.status)
    || (StatusRank(a.status) == StatusRank(b.status)
        && (a.createdAt > b.createdAt || (a.createdAt == b.createdAt && Less(b.id, a.id))))
  }

  /** The comparator closure of the Swift `pendingFirst`; `less` is Swift's order of
      strings. */
  predicate SwiftBefore(less: (string, string) -> bool, a: Request, b: Request) {
    if a.status.Pending? && !b.status.Pending? then true
    else if !a.status.Pending? && b.status.Pending? then false
    else if a.createdAt == b.createdAt then less(b.id, a.id)
    else a.createdAt > b.createdAt
  }

  lemma BeforeAsymmetric(a: Request, b: Request)
    ensures !(Before(a, b) && Before(b, a))
  {
    LessAsymmetric(a.id, b.id);
  }

  lemma BeforeTransitive(a: Request, b: Request, c: Request)
    requires Before(a, b) && Before(b, c)
    ensures Before(a, c)
  {
    if Less(b.id, a.id) && Less(c.id, b.id) { LessTransitive(c.id, b.id, a.id); }
  }

  lemma BeforeTotal(a: Request, b: Request)
    requires a.id != b.id
    ensures Before(a, b) || Before(b, a)
  {
    LessTotal(a.id, b.id);
  }

  ghost predicate Sorted(rs: seq<Request>) {
    forall i, j :: 0 <= i < j < |rs| ==> Before(rs[i], rs[j])
  }

  ghost predicate Handled(r: Request) {
    !r.status.Pending?
  }

  ghost function HandledIn(rs: seq<Request>): set<Request> {
    set q | q in rs && Handled(q)
  }

  /** The handled requests that outrank `r` for a place under the cap. */
  ghost function NewerHandled(rs: set<Request>, r: Request): set<Request> {
    set q | q in rs && Handled(q) && Before(q, r)
  }

  /** Pending requests always pass; a handled one passes when fewer than `limit`
      handled requests are newer. */
  ghost predicate Passes(rs: set<Request>, limit: nat, r: Request) {
    Handled(r) ==> |NewerHandled(rs, r)| < limit
  }

  ghost function VisibleSet(rs: set<Request>, limit: nat): set<Request> {
    set r | r in rs && Passes(rs, limit, r)
  }

  ghost predicate IsVisibleList(shown: seq<Request>, rs: set<Request>, limit: nat) {
    Sorted(shown) && Elements(shown) == VisibleSet(rs, limit)
  }

  lemma SortedIndices(s: seq<Request>)
    requires Sorted(s)
    ensures forall i, j :: 0 <= i < |s| && 0 <= j < |s| ==> (Before(s[i], s[j]) <==> i < j)
  {
    forall i, j | 0 <= i < |s| && 0 <= j < |s| ensures Before(s[i], s[j]) <==> i < j {
      BeforeAsymmetric(s[i], s[j]);
    }
  }

  lemma ElementsHeadTail(s: seq<Request>)
    requires s != [] && Sorted(s)
    ensures Elements(s[1..]) == Elements(s) - {s[0]}
    ensures forall x :: x in Elements(s) ==> x == s[0] || Before(s[0], x)
  {
    SortedIndices(s);
    assert s == [s[0]] + s[1..];
  }

  /** A sorted sequence is determined by its elements, so `IsVisibleList` names
      one list. */
  lemma {:induction false} SortedUnique(a: seq<Request>, b: seq<Request>)
    requires Sorted(a) && Sorted(b) && Elements(a) == Elements(b)
    ensures a == b
  {
    assert a != [] ==> a[0] in Elements(a);
    assert b != [] ==> b[0] in Elements(b);
    if a != [] {
      ElementsHeadTail(a);
      ElementsHeadTail(b);
      BeforeAsymmetric(a[0], b[0]);
      SortedUnique(a[1..], b[1..]);
      assert a == [a[0]] + a[1..] && b == [b[0]] + b[1..];
    }
  }

  lemma VisibleListUnique(a: seq<Request>, b: seq<Request>, rs: set<Request>, limit: nat)
    requires IsVisibleList(a, rs, limit) && IsVisibleList(b, rs, limit)
    ensures a == b
  {
    SortedUnique(a, b);
  }

  /** The library sort: any order on distinct ids has one sorted arrangement. */
  function Insert(before: (Request, Request) -> bool, r: Request, rs: seq<Request>): seq<Request> {
    if rs == [] || before(r, rs[0]) then [r] + rs else [rs[0]] + Insert(before, r, rs[1..])
  }

  function SortBy(before: (Request, Request) -> bool, rs: seq<Request>): seq<Request> {
    if rs == [] then [] else Insert(before, rs[0], SortBy(before, rs[1..]))
  }

  /** Another spelling of the inbox order, as far as these requests go. */
  ghost predicate IsInboxOrder(before: (Request, Request) -> bool, rs: seq<Request>) {
    forall a, b :: a in rs && b in rs ==> (before(a, b) <==> Before(a, b))
  }

  lemma InboxOrderPart(before: (Request, Request) -> bool, rs: seq<Request>, part: seq<Request>)
    requires IsInboxOrder(before, rs) && forall q :: q in part ==> q in rs
    ensures IsInboxOrder(before, part)
  {
  }

  lemma {:induction false} InsertSorted(before: (Request, Request) -> bool, r: Request, rs: seq<Request>)
    requires IsInboxOrder(before, [r] + rs) && Sorted(rs)
    requires forall q :: q in rs ==> q.id != r.id
    ensures Sorted(Insert(before, r, rs))
    ensures Elements(Insert(before, r, rs)) == Elements(rs) + {r}
  {
    if rs == [] {
      return;
    }
    assert r in [r] + rs && rs[0] in [r] + rs;
    assert before(r, rs[0]) <==> Before(r, rs[0]);
    InboxOrderPart(before, [r] + rs, [r] + rs[1..]);
    ElementsHeadTail(rs);
    hide IsInboxOrder;
    if Before(r, rs[0]) {
      hide Sorted;
      FirstOfSorted(r, rs);
    } else {
      BeforeTotal(r, rs[0]);
      var rest := Insert(before, r, rs[1..]);
      InsertSorted(before, r, rs[1..]);
      hide Sorted, Before;
      forall q | q in rest ensures Before(rs[0], q) {
        assert q in Elements(rest);
      }
      SortedCons(rs[0], rest);
    }
  }

  /** What comes before the first of a sorted sequence comes before all of it. */
  lemma FirstOfSorted(r: Request, rs: seq<Request>)
    requires rs != [] && Sorted(rs) && Before(r, rs[0])
    ensures Sorted([r] + rs)
  {
    ElementsHeadTail(rs);
    hide Sorted;
    forall q | q in rs ensures Before(r, q) {
      assert q in Elements(rs);
      if q != rs[0] { BeforeTransitive(r, rs[0], q); }
    }
    SortedCons(r, rs);
  }

  lemma SortedCons(r: Request, s: seq<Request>)
    requires Sorted(s) && forall q :: q in s ==> Before(r, q)
    ensures Sorted([r] + s)
  {
    assert forall j :: 0 <= j < |s| ==> s[j] in s;
  }

  lemma {:induction false} SortBySorted(before: (Request, Request) -> bool, rs: seq<Request>)
    requires IsInboxOrder(before, rs)
    requires forall i, j :: 0 <= i < j < |rs| ==> rs[i].id != rs[j].id
    ensures Sorted(SortBy(before, rs)) && Elements(SortBy(before, rs)) == Elements(rs)
  {
    if rs != [] {
      SortBySorted(before, rs[1..]);
      forall q | q in SortBy(before, rs[1..]) ensures q in rs && q.id != rs[0].id {
        assert q in Elements(rs[1..]);
      }
      InsertSorted(before, rs[0], SortBy(before, rs[1..]));
      assert rs == [rs[0]] + rs[1..];
    }
  }

  /** In a sorted arrangement the requests before index `i` are exactly the ones
      that come `Before` the i-th. */
  lemma NewerHandledIsPrefix(sorted: seq<Request>, i: nat)
    requires Sorted(sorted) && i < |sorted|
    ensures NewerHandled(Elements(sorted), sorted[i]) == HandledIn(sorted[..i])
    ensures sorted[i] !in sorted[..i]
    ensures forall q :: q in sorted[..i] ==> Before(q, sorted[i])
  {
    SortedIndices(sorted);
    forall q | q in sorted && Before(q, sorted[i]) ensures q in sorted[..i] {
      var k :| 0 <= k < |sorted| && sorted[k] == q;
      assert q == sorted[..i][k];
    }
  }

  lemma SortedSnoc(s: seq<Request>, r: Request)
    requires Sorted(s) && forall q :: q in s ==> Before(q, r)
    ensures Sorted(s + [r])
  {
    assert forall i :: 0 <= i < |s| ==> s[i] in s;
  }

  /** The value of the filter's counter after `i` requests. */
  function HandledBefore(sorted: seq<Request>, i: nat): nat
    requires i <= |sorted|
  {
    if i == 0 then 0 else HandledBefore(sorted, i - 1) + StatusRank(sorted[i - 1].status)
  }

  /** What the counting filter has let through after `i` requests. */
  function Capped(sorted: seq<Request>, limit: nat, i: nat): seq<Request>
    requires i <= |sorted|
  {
    if i == 0 then []
    else Capped(sorted, limit, i - 1)
         + if sorted[i - 1].status.Pending? || HandledBefore(sorted, i) <= limit then [sorted[i - 1]] else []
  }

  lemma {:induction false} HandledBeforeCounts(sorted: seq<Request>, i: nat)
    requires Sorted(sorted) && i <= |sorted|
    ensures HandledBefore(sorted, i) == |HandledIn(sorted[..i])|
  {
    hide HandledIn, Sorted;
    HandledInEmpty();
    if i == 0 {
      assert sorted[..0] == [];
    } else {
      HandledBeforeCounts(sorted, i - 1);
      NoRepeat(sorted, i - 1);
      assert sorted[..i] == sorted[..i - 1] + [sorted[i - 1]];
      HandledInSnocSize(sorted[..i - 1], sorted[i - 1]);
    }
  }

  lemma NoRepeat(sorted: seq<Request>, i: nat)
    requires Sorted(sorted) && i < |sorted|
    ensures sorted[i] !in sorted[..i]
  {
    SortedIndices(sorted);
  }

  lemma HandledInSnoc(s: seq<Request>, r: Request)
    ensures HandledIn(s + [r]) == HandledIn(s) + (if Handled(r) then {r} else {})
  {
    assert forall q :: q in s + [r] <==> q in s || q == r;
  }

  lemma HandledInSnocSize(s: seq<Request>, r: Request)
    requires r !in s
    ensures |HandledIn(s + [r])| == |HandledIn(s)| + StatusRank(r.status)
  {
    HandledInSnoc(s, r);
  }

  lemma HandledInEmpty()
    ensures HandledIn([]) == {}
  {
  }

  lemma PassesIffCounted(sorted: seq<Request>, limit: nat, i: nat)
    requires Sorted(sorted) && i < |sorted|
    ensures Passes(Elements(sorted), limit, sorted[i])
       <==> sorted[i].status.Pending? || HandledBefore(sorted, i + 1) <= limit
  {
    NewerHandledIsPrefix(sorted, i);
    HandledBeforeCounts(sorted, i);
  }

  lemma {:induction false} CappedMembers(sorted: seq<Request>, limit: nat, i: nat)
    requires Sorted(sorted) && i <= |sorted|
    ensures forall q :: q in Capped(sorted, limit, i) <==> q in sorted[..i] && Passes(Elements(sorted), limit, q)
  {
    if i > 0 {
      CappedMembers(sorted, limit, i - 1);
      PassesIffCounted(sorted, limit, i - 1);
      assert sorted[..i] == sorted[..i - 1] + [sorted[i - 1]];
    }
  }

  lemma {:induction false} CappedSorted(sorted: seq<Request>, limit: nat, i: nat)
    requires Sorted(sorted) && i <= |sorted|
    ensures Sorted(Capped(sorted, limit, i))
  {
    if i > 0 {
      CappedSorted(sorted, limit, i - 1);
      CappedMembers(sorted, limit, i - 1);
      NewerHandledIsPrefix(sorted, i - 1);
      SortedSnoc(Capped(sorted, limit, i - 1), sorted[i - 1]);
      assert Capped(sorted, limit, i - 1) + [] == Capped(sorted, limit, i - 1);
    }
  }

  lemma CappedIsVisible(sorted: seq<Request>, limit: nat)
    requires Sorted(sorted)
    ensures IsVisibleList(Capped(sorted, limit, |sorted|), Elements(sorted), limit)
  {
    CappedSorted(sorted, limit, |sorted|);
    CappedMembers(sorted, limit, |sorted|);
    assert sorted[..|sorted|] == sorted;
  }

  /** The counting filter over the sorted list: every pending request and the
      first `limit` handled ones pass. */
  method CapHandled(sorted: seq<Request>, limit: nat) returns (shown: seq<Request>)
    requires Sorted(sorted)
    ensures IsVisibleList(shown, Elements(sorted), limit)
  {
    CappedIsVisible(sorted, limit);
    var handled := 0;
    shown := [];
    for i := 0 to |sorted|
      invariant handled == HandledBefore(sorted, i)
      invariant shown == Capped(sorted, limit, i)
    {
      if !sorted[i].status.Pending? {
        handled := handled + 1;
      }
      if sorted[i].status.Pending? || handled <= limit {
        shown := shown + [sorted[i]];
      }
    }
  }

  /** `visible_requests` of the runtime. */
  method VisibleRequests(requests: seq<Request>) returns (shown: seq<Request>)
    requires forall i, j :: 0 <= i < j < |requests| ==> requests[i].id != requests[j].id
    ensures IsVisibleList(shown, Elements(requests), HANDLED_REQUEST_DISPLAY_LIMIT)
  {
    SortBySorted(Before, requests);
    shown := CapHandled(SortBy(Before, requests), HANDLED_REQUEST_DISPLAY_LIMIT);
  }

  /** Swift orders the ids that break ties as the scalar values do; ASCII ids are so. */
  ghost predicate TiesAlike(less: (string, string) -> bool, requests: seq<Request>) {
    forall a, b ::
      (a in requests && b in requests && a.createdAt == b.createdAt && StatusRank(a.status) == StatusRank(b.status))
      ==> (less(b.id, a.id) <==> Less(b.id, a.id))
  }

  /** `NodRequestInbox.visibleRequests` of the Apple client. */
  method SwiftVisibleRequests(requests: seq<Request>, handledLimit: nat, less: (string, string) -> bool)
    returns (shown: seq<Request>)
    requires forall i, j :: 0 <= i < j < |requests| ==> requests[i].id != requests[j].id
    requires TiesAlike(less, requests)
    ensures IsVisibleList(shown, Elements(requests), handledLimit)
  {
    var before := (a, b) => SwiftBefore(less, a, b);
    SortBySorted(before, requests);
    shown := CapHandled(SortBy(before, requests), handledLimit);
  }

  /** Exactly min(limit, n) of the n handled requests are shown. */
  lemma HandledShown(shown: seq<Request>, sorted: seq<Request>, limit: nat)
    requires Sorted(sorted) && IsVisibleList(shown, Elements(sorted), limit)
    ensures |HandledIn(shown)| == if |HandledIn(sorted)| < limit then |HandledIn(sorted)| else limit
  {
    CappedIsVisible(sorted, limit);
    SortedUnique(shown, Capped(sorted, limit, |sorted|));
    CappedHandledCount(sorted, limit, |sorted|);
    HandledBeforeCounts(sorted, |sorted|);
    assert sorted[..|sorted|] == sorted;
    HandledBeforeCounts(shown, |shown|);
    assert shown[..|shown|] == shown;
  }

  lemma {:induction false} CappedHandledCount(sorted: seq<Request>, limit: nat, i: nat)
    requires i <= |sorted|
    ensures var shown, n := Capped(sorted, limit, i), HandledBefore(sorted, i);
            HandledBefore(shown, |shown|) == if n < limit then n else limit
  {
    if i > 0 {
      CappedHandledCount(sorted, limit, i - 1);
      var before := Capped(sorted, limit, i - 1);
      HandledBeforePrefix(before, [sorted[i - 1]], |before|);
      assert before + [] == before;
    }
  }

  lemma {:induction false} HandledBeforePrefix(s: seq<Request>, t: seq<Request>, i: nat)
    requires i <= |s|
    ensures HandledBefore(s + t, i) == HandledBefore(s, i)
  {
    if i > 0 { HandledBeforePrefix(s, t, i - 1); }
  }

  ghost predicate OnePerId(rs: set<Request>) {
    forall a, b :: a in rs && b in rs && a.id == b.id ==> a == b
  }

  lemma {:induction false} ListedOnce(rs: set<Request>) returns (s: seq<Request>)
    requires OnePerId(rs)
    ensures Elements(s) == rs && forall i, j :: 0 <= i < j < |s| ==> s[i].id != s[j].id
    decreases rs
  {
    s := [];
    if rs != {} {
      var r :| r in rs;
      var rest := ListedOnce(rs - {r});
      forall i | 0 <= i < |rest| ensures rest[i].id != r.id { assert rest[i] in Elements(rest); }
      s := rest + [r];
      assert Elements(s) == Elements(rest) + {r};
    }
  }

  /** The list in plain terms: pending requests before handled ones, later created ones
      first in each part, and of the same time the greater id first; every pending
      request; and as many handled ones as the limit allows, none of them created before
      one that is left out. */
  lemma VisibleListReads(shown: seq<Request>, rs: set<Request>, limit: nat)
    requires IsVisibleList(shown, rs, limit) && OnePerId(rs)
    ensures forall i, j :: 0 <= i < j < |shown| ==>
              var (a, b) := (shown[i], shown[j]);
              && (b.status.Pending? ==> a.status.Pending?)
              && ((a.status.Pending? <==> b.status.Pending?) ==>
                    a.createdAt > b.createdAt || (a.createdAt == b.createdAt && Less(b.id, a.id)))
    ensures forall r :: r in shown ==> r in rs
    ensures forall r :: r in rs && r.status.Pending? ==> r in shown
    ensures var (n, k) := (|set r | r in rs && !r.status.Pending?|, |set r | r in shown && !r.status.Pending?|);
            k == if n < limit then n else limit
    ensures forall r, q :: r in rs && r !in shown && q in shown && !q.status.Pending? ==>
              q.createdAt > r.createdAt || (q.createdAt == r.createdAt && Less(r.id, q.id))
  {
    forall r ensures r in shown <==> r in rs && Passes(rs, limit, r) { InVisibleList(shown, rs, limit, r); }
    var s := ListedOnce(rs);
    SortBySorted(Before, s);
    HandledShown(shown, SortBy(Before, s), limit);
    forall r ensures r in SortBy(Before, s) <==> r in rs {
      assert r in SortBy(Before, s) <==> r in Elements(SortBy(Before, s));
    }
    assert HandledIn(SortBy(Before, s)) == set r | r in rs && !r.status.Pending?;
    assert HandledIn(shown) == set r | r in shown && !r.status.Pending?;
    hide SortBy, IsVisibleList, Passes;
    forall r, q | r in rs && r !in shown && q in shown && !q.status.Pending?
      ensures q.createdAt > r.createdAt || (q.createdAt == r.createdAt && Less(r.id, q.id))
    {
      CutComesAfter(rs, limit, r, q);
    }
  }

  lemma CutComesAfter(rs: set<Request>, limit: nat, r: Request, q: Request)
    requires OnePerId(rs) && r in rs && q in rs && Handled(q) && Passes(rs, limit, q) && !Passes(rs, limit, r)
    ensures Handled(r) && Before(q, r)
  {
    BeforeTotal(q, r);
    if Before(r, q) {
      forall t | t in NewerHandled(rs, r) ensures t in NewerHandled(rs, q) { BeforeTransitive(t, r, q); }
      SubsetSize(NewerHandled(rs, r), NewerHandled(rs, q));
    }
  }

  /** Everything in a part of a visible list passes within that part too. */
  lemma PartIsVisible(part: seq<Request>, shown: seq<Request>, rs: set<Request>, limit: nat, again: seq<Request>)
    requires IsVisibleList(shown, rs, limit)
    requires Sorted(part) && Elements(part) <= Elements(shown)
    requires IsVisibleList(again, Elements(part), limit)
    ensures again == part
  {
    var kept := Elements(part);
    forall r | r in kept ensures r in VisibleSet(kept, limit) {
      assert r in VisibleSet(rs, limit);
      SubsetSize(NewerHandled(kept, r), NewerHandled(rs, r));
    }
    assert VisibleSet(kept, limit) == kept;
    SortedUnique(again, part);
  }

  /** Applying the visible-list rule to its own output changes nothing, so the
      Swift layer that re-sorts and re-caps the runtime's list shows that list. */
  lemma ReapplyIsIdentity(shown: seq<Request>, rs: set<Request>, limit: nat, again: seq<Request>)
    requires IsVisibleList(shown, rs, limit)
    requires IsVisibleList(again, Elements(shown), limit)
    ensures again == shown
  {
    PartIsVisible(shown, shown, rs, limit, again);
  }

  // ----- The channel filter of the Apple client -----

  function OfChannel(rs: seq<Request>, channel: string): seq<Request> {
    if rs == [] then []
    else if rs[0].channelId == channel then [rs[0]] + OfChannel(rs[1..], channel)
    else OfChannel(rs[1..], channel)
  }

  lemma {:induction false} OfChannelMembers(rs: seq<Request>, channel: string)
    ensures forall r :: r in OfChannel(rs, channel) <==> r in rs && r.channelId == channel
  {
    if rs != [] {
      OfChannelMembers(rs[1..], channel);
      assert rs == [rs[0]] + rs[1..];
    }
  }

  lemma {:induction false} OfChannelSorted(rs: seq<Request>, channel: string)
    requires Sorted(rs)
    ensures Sorted(OfChannel(rs, channel))
  {
    if rs != [] {
      OfChannelSorted(rs[1..], channel);
      OfChannelMembers(rs[1..], channel);
      assert forall i :: 1 <= i < |rs| ==> rs[i] == rs[1..][i - 1];
      forall r | r in OfChannel(rs[1..], channel) ensures Before(rs[0], r) {
        assert r in rs[1..];
      }
    }
  }

  /** Re-sorting and re-capping any channel of the runtime's list shows just that
      part of it. */
  lemma ReapplyToChannel(shown: seq<Request>, rs: set<Request>, limit: nat, channel: string, again: seq<Request>)
    requires IsVisibleList(shown, rs, limit)
    requires IsVisibleList(again, Elements(OfChannel(shown, channel)), limit)
    ensures again == OfChannel(shown, channel)
  {
    OfChannelSorted(shown, channel);
    OfChannelMembers(shown, channel);
    PartIsVisible(OfChannel(shown, channel), shown, rs, limit, again);
  }

  /** No handled request of the channel fell to the cap of the whole list. */
  ghost predicate NothingCutOff(shown: seq<Request>, requests: seq<Request>, channel: string) {
    forall r :: r in requests && r.channelId == channel && Handled(r) ==> r in shown
  }

  /** When the Apple client's channel view is the runtime's own list of that
      channel: exactly if the cap cut nothing of the channel, or the channel alone
      fills it. */
  lemma ChannelViewIff(shown: seq<Request>, requests: seq<Request>, limit: nat, channel: string, own: seq<Request>)
    requires forall i, j :: 0 <= i < j < |requests| ==> requests[i].id != requests[j].id
    requires IsVisibleList(shown, Elements(requests), limit)
    requires IsVisibleList(own, Elements(OfChannel(requests, channel)), limit)
    ensures OfChannel(shown, channel) == own
       <==> NothingCutOff(shown, requests, channel) || |HandledIn(OfChannel(shown, channel))| == limit
  {
    var view := OfChannel(shown, channel);
    if view == own && !NothingCutOff(shown, requests, channel) {
      var r :| r in requests && r.channelId == channel && Handled(r) && r !in shown;
      OfChannelMembers(shown, channel);
      OwnFillsCap(requests, limit, channel, own, r);
    }
    if NothingCutOff(shown, requests, channel) || |HandledIn(view)| == limit {
      ViewSorted(shown, requests, limit, channel);
      forall r ensures r in view <==> r in own {
        ViewMember(shown, requests, limit, channel, own, r);
      }
      hide Sorted, VisibleSet, NothingCutOff, HandledIn, OfChannel;
      SortedUnique(view, own);
    }
  }

  lemma ViewSorted(shown: seq<Request>, requests: seq<Request>, limit: nat, channel: string)
    requires IsVisibleList(shown, Elements(requests), limit)
    ensures Sorted(OfChannel(shown, channel))
  {
    OfChannelSorted(shown, channel);
  }

  lemma InVisibleList(shown: seq<Request>, rs: set<Request>, limit: nat, r: Request)
    requires IsVisibleList(shown, rs, limit)
    ensures r in shown <==> r in rs && Passes(rs, limit, r)
  {
    assert r in shown <==> r in Elements(shown);
  }

  /** The view never shows more of a channel than the channel's own list. */
  lemma ViewMember(shown: seq<Request>, requests: seq<Request>, limit: nat, channel: string, own: seq<Request>,
                   r: Request)
    requires forall i, j :: 0 <= i < j < |requests| ==> requests[i].id != requests[j].id
    requires IsVisibleList(shown, Elements(requests), limit)
    requires IsVisibleList(own, Elements(OfChannel(requests, channel)), limit)
    ensures r in OfChannel(shown, channel) ==> r in own
    ensures NothingCutOff(shown, requests, channel) || |HandledIn(OfChannel(shown, channel))| == limit ==>
              (r in OfChannel(shown, channel) <==> r in own)
  {
    var (all, part) := (Elements(requests), Elements(OfChannel(requests, channel)));
    OfChannelMembers(shown, channel);
    OfChannelMembers(requests, channel);
    InVisibleList(shown, all, limit, r);
    InVisibleList(own, part, limit, r);
    SubsetSize(NewerHandled(part, r), NewerHandled(all, r));
    hide IsVisibleList;
    if r in own && r !in shown && Handled(r) {
      CutIsBehind(shown, requests, part, limit, channel, r);
    }
  }

  /** A list that leaves out a handled request shows as many as it may. */
  lemma OwnFillsCap(requests: seq<Request>, limit: nat, channel: string, own: seq<Request>, r: Request)
    requires forall i, j :: 0 <= i < j < |requests| ==> requests[i].id != requests[j].id
    requires IsVisibleList(own, Elements(OfChannel(requests, channel)), limit)
    requires r in requests && r.channelId == channel && Handled(r) && r !in own
    ensures |HandledIn(own)| == limit
  {
    var sorted := OfChannel(SortBy(Before, requests), channel);
    SortBySorted(Before, requests);
    OfChannelSorted(SortBy(Before, requests), channel);
    OfChannelMembers(SortBy(Before, requests), channel);
    OfChannelMembers(requests, channel);
    assert forall q :: q in SortBy(Before, requests) <==> q in Elements(requests);
    assert Elements(sorted) == Elements(OfChannel(requests, channel));
    HandledShown(own, sorted, limit);
    assert forall q :: q in own ==> q in Elements(own);
    assert HandledIn(own) <= HandledIn(sorted);
    assert r in HandledIn(sorted) && r !in HandledIn(own);
    SubsetSize(HandledIn(own), HandledIn(sorted));
  }

  /** What the cap of the whole list cut off lies behind every handled request of
      the channel that is shown. */
  lemma CutIsBehind(shown: seq<Request>, requests: seq<Request>, part: set<Request>, limit: nat, channel: string,
                    r: Request)
    requires forall i, j :: 0 <= i < j < |requests| ==> requests[i].id != requests[j].id
    requires IsVisibleList(shown, Elements(requests), limit)
    requires forall q :: q in part <==> q in requests && q.channelId == channel
    requires r in requests && Handled(r) && r !in shown
    requires |NewerHandled(part, r)| < limit
    ensures |HandledIn(OfChannel(shown, channel))| < limit
  {
    var (view, all) := (OfChannel(shown, channel), Elements(requests));
    OfChannelMembers(shown, channel);
    InVisibleList(shown, all, limit, r);
    forall q | q in HandledIn(view) ensures q in NewerHandled(part, r) {
      InVisibleList(shown, all, limit, q);
      assert q.id != r.id;
      if !Before(q, r) {
        BeforeTotal(q, r);
        forall t | t in NewerHandled(all, r) ensures t in NewerHandled(all, q) { BeforeTransitive(t, r, q); }
        SubsetSize(NewerHandled(all, r), NewerHandled(all, q));
      }
    }
    SubsetSize(HandledIn(view), NewerHandled(part, r));
  }
}
