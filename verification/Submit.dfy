/** Submitting an answer: the retry loop of the HTTP client and the steps from
    reading a request to posting a signed decision. */
module Submit {
  import opened Common
  import opened Requests
  import opened Texts
  import opened Digests
  import opened Signer
  import opened VisibleList
  import opened PlainInbox
  import opened Reducer
  import opened Connection
  import opened NewestWins
  import opened Receipt
  import opened ReceiptTheorems

  // ----- The HTTP client -----

  datatype Outgoing =
    | Read(id: string)
    | Post(id: string, optionId: string, answer: Option<AnswerValue>, text: Option<string>,
           signature: DecisionSignature)

  /** `body` is absent when the response is interrupted, empty or not a request. */
  datatype Reply = TransportFailure | Answer(status: nat, body: Option<Request>)

  datatype Sent = Sent(outgoing: Outgoing, reply: Reply)

  const MAX_ATTEMPTS: nat := 3

  predicate Unavailable(r: Reply) {
    r.Answer? && (r.status == 502 || r.status == 503 || r.status == 504)
  }

  /** The request a reply delivers. */
  function Delivered(r: Reply): Option<Request> {
    if r.Answer? && 200 <= r.status < 300 then r.body else None
  }

  /** The sends of one call: only fetches are repeated, only after a gateway answered
      for the server, and never more than three times in all; the last reply is one that
      is not to be repeated, unless the attempts ran out. */
  ghost predicate IsExchange(sends: seq<Sent>, outgoing: Outgoing) {
    && 0 < |sends| <= (if outgoing.Read? then 3 else 1)
    && (forall i :: 0 <= i < |sends| ==> sends[i].outgoing == outgoing)
    && (forall i :: 0 <= i < |sends| - 1 ==> sends[i].reply.Answer? && sends[i].reply.status in {502, 503, 504})
    && (outgoing.Read? && |sends| < 3 ==>
          var last := sends[|sends| - 1].reply; !(last.Answer? && last.status in {502, 503, 504}))
  }

  /** The network: what was sent so far, and the reply to each send to come. */
  class Network {
    const reply: nat -> Reply
    var log: seq<Sent>

    constructor (reply: nat -> Reply)
      ensures this.reply == reply && log == []
    {
      this.reply := reply;
      log := [];
    }

    /** `NodApi::request`. */
    method Request(outgoing: Outgoing) returns (result: Option<Request>, ghost sends: seq<Sent>)
      modifies this
      ensures log == old(log) + sends && IsExchange(sends, outgoing)
      ensures forall i :: 0 <= i < |sends| ==> sends[i].reply == reply(|old(log)| + i)
      ensures result == Delivered(sends[|sends| - 1].reply)
    {
      sends := [];
      var attempts := 0;
      while true
        invariant attempts == |sends| < (if outgoing.Read? then MAX_ATTEMPTS else 1)
        invariant log == old(log) + sends
        invariant forall i :: 0 <= i < |sends| ==>
                    sends[i] == Sent(outgoing, reply(|old(log)| + i)) && Unavailable(sends[i].reply)
        decreases MAX_ATTEMPTS - attempts
      {
        attempts := attempts + 1;
        var answer := reply(|log|);
        log := log + [Sent(outgoing, answer)];
        sends := sends + [Sent(outgoing, answer)];
        if answer.TransportFailure? { return None, sends; }
        if outgoing.Read? && attempts < MAX_ATTEMPTS && Unavailable(answer) { continue; }
        if !(200 <= answer.status < 300) { return None, sends; }
        return answer.body, sends;
      }
    }
  }

  // ----- Submitting -----

  datatype Params = Params(requestId: string, optionId: string, text: Option<string>, answer: Option<AnswerValue>,
                           expected: string)

  /** The enrolled profile's identity and key, as far as they are available, with
      the nonce and the time of this call. */
  datatype Identity = Identity(userId: Option<string>, deviceId: Option<string>, keyId: Option<string>, nonce: string,
                               now: Instant)

  datatype Outcome = Submitted(request: Request) | Changed | AlreadyHandled | ReadFailed | NotSigned | Failed

  /** What is signed when `copy` is the request at hand. */
  function AskFor(a: Params, who: Identity, copy: Request): Ask
    requires who.userId.Some? && who.deviceId.Some? && who.keyId.Some?
  {
    Ask(copy, a.optionId, TrimmedText(a.text), who.userId.value, who.deviceId.value, a.answer, Some(Trim(a.expected)),
        who.keyId.value, who.nonce, who.now)
  }

  /** `decision_signature`. */
  function DecisionSignatureFor(p: Primitives, sign: string -> Option<string>, a: Params, who: Identity, copy: Request)
    : Option<DecisionSignature>
  {
    if who.keyId.None? || who.userId.None? || who.deviceId.None? then None
    else
      var s := BuildSignature(p, sign, AskFor(a, who, copy));
      if s.Ok? then Some(s.value) else None
  }

  /** A decision is signed whenever the identity is complete, the signer prepares the
      call for the trimmed text and digest, and the key signs. */
  lemma SignsWheneverItCan(p: Primitives, sign: string -> Option<string>, a: Params, who: Identity, copy: Request)
    ensures DecisionSignatureFor(p, sign, a, who, copy).Some? <==>
              && who.userId.Some? && who.deviceId.Some? && who.keyId.Some?
              && var m := Prepare(p, Ask(copy, a.optionId, TrimmedText(a.text), who.userId.value, who.deviceId.value,
                                         a.answer, Some(Trim(a.expected)), who.keyId.value, who.nonce, who.now));
                 m.Ok? && sign(m.value.payload).Some?
  {
    hide Prepare, TrimmedText, Trim;
  }

  /** The request the sends of one call delivered. */
  function LastDelivered(sends: seq<Sent>): Option<Request> {
    if sends == [] then None else Delivered(sends[|sends| - 1].reply)
  }

  /** The read delivered the request, pending, with the digest the user saw. */
  predicate PendingAsSeen(a: Params, read: Option<Request>) {
    read.Some? && read.value.status.Pending? && AssertedDigest(read.value) == Some(Trim(a.expected))
  }

  /** What a submission may send: nothing, or one read, then at most one post, then
      one more read if and only if the post failed. */
  ghost predicate Follows(p: Primitives, sign: string -> Option<string>, a: Params, who: Identity,
                          copy: Option<Request>,
                          fetches: seq<Sent>, posts: seq<Sent>, rechecks: seq<Sent>)
  {
    && (fetches == [] || IsExchange(fetches, Read(a.requestId)))
    && (posts == [] || MayPost(p, sign, a, who, copy, fetches, posts))
    && (rechecks == [] <==> posts == [] || LastDelivered(posts).Some?)
    && (rechecks == [] || IsExchange(rechecks, Read(a.requestId)))
  }

  /** A post needs a read that delivered the request, still pending and with the
      digest the user saw, and carries a signature over the copy at hand. */
  ghost predicate MayPost(p: Primitives, sign: string -> Option<string>, a: Params, who: Identity,
                          copy: Option<Request>,
                          fetches: seq<Sent>, posts: seq<Sent>)
  {
    && copy.Some? && Trim(a.expected) != "" && PendingAsSeen(a, LastDelivered(fetches))
    && var signature := DecisionSignatureFor(p, sign, a, who, copy.value);
       && signature.Some?
       && IsExchange(posts, Post(a.requestId, a.optionId, a.answer, TrimmedText(a.text), signature.value))
  }

  /** Before a post its request was read, with success, still pending and asserting the
      digest the user saw. */
  lemma PostFollowsRead(p: Primitives, sign: string -> Option<string>, a: Params, who: Identity, copy: Option<Request>,
                        fetches: seq<Sent>, posts: seq<Sent>, rechecks: seq<Sent>)
    requires Follows(p, sign, a, who, copy, fetches, posts, rechecks) && posts != []
    ensures fetches != [] && fetches[|fetches| - 1].outgoing == Read(a.requestId)
    ensures var reply := fetches[|fetches| - 1].reply;
            && reply.Answer? && 200 <= reply.status <= 299 && reply.body.Some? && reply.body.value.status.Pending?
            && var (r, seen) := (reply.body.value, Trim(a.expected));
               && seen != ""
               && (if r.signing.Some? then r.signing.value.requestDigest == seen else r.requestDigest == Some(seen))
  {
    hide DecisionSignatureFor, Trim;
  }

  function PostCount(sends: seq<Sent>): nat {
    if sends == [] then 0 else (if sends[0].outgoing.Post? then 1 else 0) + PostCount(sends[1..])
  }

  lemma {:induction false} PostCountAppend(a: seq<Sent>, b: seq<Sent>)
    ensures PostCount(a + b) == PostCount(a) + PostCount(b)
  {
    if a == [] {
      assert a + b == b;
    } else {
      assert (a + b)[1..] == a[1..] + b && (a + b)[0] == a[0];
      PostCountAppend(a[1..], b);
    }
  }

  lemma {:induction false} ReadsHaveNoPost(sends: seq<Sent>)
    requires forall i :: 0 <= i < |sends| ==> sends[i].outgoing.Read?
    ensures PostCount(sends) == 0
  {
    if sends != [] {
      ReadsHaveNoPost(sends[1..]);
    }
  }

  /** No submission posts twice. */
  lemma AtMostOnePost(p: Primitives, sign: string -> Option<string>, a: Params, who: Identity, copy: Option<Request>,
                      fetches: seq<Sent>, posts: seq<Sent>, rechecks: seq<Sent>)
    requires Follows(p, sign, a, who, copy, fetches, posts, rechecks)
    ensures PostCount(fetches + posts + rechecks) <= 1 && |fetches + posts + rechecks| <= 7
  {
    ReadsHaveNoPost(fetches);
    ReadsHaveNoPost(rechecks);
    PostCountAppend(fetches + posts, rechecks);
    PostCountAppend(fetches, posts);
    assert posts == [] || (|posts| == 1 && posts[1..] == []);
  }

  /** What a post carries: the signature is over the digest the user saw, which is
      the hash of the copy that was signed, under the user's choice. */
  lemma PostCarriesReviewedDigest(p: Primitives, sign: string -> Option<string>, a: Params, who: Identity,
                                  copy: Option<Request>, fetches: seq<Sent>, posts: seq<Sent>)
    requires posts != [] && MayPost(p, sign, a, who, copy, fetches, posts)
    ensures |posts| == 1 && posts[0].outgoing.Post? && copy.Some?
    ensures var (sent, ask) := (posts[0].outgoing, AskFor(a, who, copy.value));
            && sent.signature.requestDigest == Trim(a.expected)
            && sent.signature.requestDigest == p.sha(TextOf(EncoderFor(copy.value), p, copy.value))
            && AssertedDigest(copy.value) == Some(Trim(a.expected))
            && Prepare(p, ask).Ok? && sign(Prepare(p, ask).value.payload) == Some(sent.signature.signature)
            && sent.optionId == ask.optionId && sent.answer == ask.answer
            && sent.text == Prepare(p, ask).value.input.text
  {
    var ask := AskFor(a, who, copy.value);
    SignedAsReviewed(p, sign, ask);
    PreparedAsReviewed(p, ask);
    TrimmedTwice(a.text);
    hide BuildSignature, Prepare, TextOf, EncoderFor, TrimmedText, Trim;
    hide AssertedDigest, Recompute, OptionFor, PayloadFor;
  }

  /** From the screen to the auditor: if the decision stored for a post is the one
      that was posted, and the first pinned key for the user and key id is the
      device's, the receipt verifies against the request as created and reports the
      digest the user saw. */
  lemma PostedDecisionVerifies(p: Primitives, sign: string -> Option<string>, a: Params, who: Identity,
                               copy: Option<Request>, fetches: seq<Sent>, posts: seq<Sent>, optionLabel: string,
                               in_: ReceiptInput)
    requires posts != [] && MayPost(p, sign, a, who, copy, fetches, posts)
    requires posts[0].outgoing.Post?
    requires var (created, ask) := (in_.request, AskFor(a, who, copy.value));
             && TimeRoundTrip(p, who.now) && !in_.strictTime
             && CopyOf(p, created, copy.value) && FieldsFit(created, copy.value)
             && (created.requestId == "" || created.requestId == created.id)
             && (created.signing.Some?
                 || (created.answerField.None? && LineDigest(p, created) == LineDigest(p, copy.value)))
             && Prepare(p, ask).Ok?
             && in_.decision == Stored(p, ask, Prepare(p, ask).value, posts[0].outgoing.signature.signature,
                                       optionLabel,
                                       in_.decision.resolvedAt)
             && OwnKeyPinned(p, sign, in_.pinnedKeys, ask)
    ensures Verify(p, in_).Ok? && Verify(p, in_).value.requestDigest == Trim(a.expected)
  {
    var ask := AskFor(a, who, copy.value);
    PostCarriesReviewedDigest(p, sign, a, who, copy, fetches, posts);
    SignedAsReviewed(p, sign, ask);
    OwnKeyAccepts(p, sign, in_.pinnedKeys, ask, Prepare(p, ask).value.payload);
    SignThenVerify(p, ask, posts[0].outgoing.signature.signature, optionLabel, in_);
    hide BuildSignature, Prepare, Verify, KeyAccepts, OwnKeyPinned, TextOf, EncoderFor, Trim, AssertedDigest;
    hide CopyOf, FieldsFit;
    hide LineDigest;
  }

  /** `apply_targeted_request`, as far as the cache goes. */
  method ApplyTargeted(reducer: StateReducer, selected: bool, request: Option<Request>)
    requires reducer.Valid()
    modifies reducer
    ensures reducer.Valid() && reducer.Model() == After(old(reducer.Model()), Learned(selected, request))
  {
    if selected && request.Some? {
      var _ := reducer.ApplyRequestUpdate(request.value);
      assert [Arrival(request.value)][..0] == [];
    }
  }

  function Learned(selected: bool, request: Option<Request>): seq<Activity> {
    if selected && request.Some? then [Arrival(request.value)] else []
  }

  /** The copy that is signed: the one held for the selected server, else the one
      just read. */
  function CopyAtHand(s: Inbox, selected: bool, id: string, read: Request): Request {
    if selected && id in s.cache then s.cache[id] else read
  }

  /** What the reducer goes through from the post on; `others` is what other tasks do
      to it during the post and during the read after a lost answer. */
  function PostActivities(selected: bool, posts: seq<Sent>, rechecks: seq<Sent>, others: (seq<Activity>, seq<Activity>))
    : seq<Activity>
  {
    if LastDelivered(posts).Some? then others.0 + Learned(selected, LastDelivered(posts))
    else others.0 + others.1 + Learned(selected, LastDelivered(rechecks))
  }

  /** The end of `submit_request_option`: one post, and a read if it fails. */
  method PostAndReconcile(network: Network, reducer: StateReducer, selected: bool, id: string, post: Outgoing,
                          others: (seq<Activity>, seq<Activity>))
    returns (result: Option<Request>, ghost posts: seq<Sent>, ghost rechecks: seq<Sent>)
    requires post.Post? && reducer.Valid()
    modifies network, reducer
    ensures network.log == old(network.log) + posts + rechecks
    ensures IsExchange(posts, post) && result == LastDelivered(posts)
    ensures if result.Some? then rechecks == [] else IsExchange(rechecks, Read(id))
    ensures reducer.Valid()
    ensures reducer.Model() == After(old(reducer.Model()), PostActivities(selected, posts, rechecks, others))
  {
    hide IsExchange, Delivered, After, Learned;
    ghost var start := reducer.Model();
    result, posts := network.Request(post);
    Perform(reducer, others.0);
    rechecks := [];
    assert posts != [] by { PostsNotEmpty(posts, post); }
    if result.Some? {
      ApplyTargeted(reducer, selected, result);
      AfterAppend(start, others.0, Learned(selected, result));
    } else {
      var current;
      current, rechecks := network.Request(Read(id));
      assert rechecks != [] by { PostsNotEmpty(rechecks, Read(id)); }
      Perform(reducer, others.1);
      ApplyTargeted(reducer, selected, current);
      AfterAppend(start, others.0, others.1);
      AfterAppend(start, others.0 + others.1, Learned(selected, current));
    }
  }

  lemma PostsNotEmpty(sends: seq<Sent>, outgoing: Outgoing)
    requires IsExchange(sends, outgoing)
    ensures sends != []
  {
  }

  /** The start of `submit_request_option`: read, and refuse what is handled or
      not what the user saw. `others` is what other tasks do to the reducer while the
      read is under way. */
  method ReadPending(network: Network, reducer: StateReducer, selected: bool, a: Params, others: seq<Activity>)
    returns (refused: Option<Outcome>, copy: Option<Request>, ghost fetches: seq<Sent>)
    requires reducer.Valid() && Trim(a.expected) != ""
    modifies network, reducer
    ensures network.log == old(network.log) + fetches && IsExchange(fetches, Read(a.requestId))
    ensures refused.None? <==> copy.Some?
    ensures var read := LastDelivered(fetches);
            refused == if read.None? then Some(ReadFailed)
                       else if !read.value.status.Pending? then Some(AlreadyHandled)
                       else if AssertedDigest(read.value) != Some(Trim(a.expected)) then Some(Changed)
                       else None
    ensures refused.None? ==>
              copy == Some(CopyAtHand(reducer.Model(), selected, a.requestId, LastDelivered(fetches).value))
    ensures reducer.Valid()
    ensures reducer.Model()
            == After(old(reducer.Model()), others + Learned(selected, HandledOf(LastDelivered(fetches))))
  {
    hide IsExchange, Delivered, Trim, AssertedDigest, After, Learned;
    ghost var start := reducer.Model();
    var read;
    read, fetches := network.Request(Read(a.requestId));
    assert fetches != [] by { PostsNotEmpty(fetches, Read(a.requestId)); }
    Perform(reducer, others);
    copy := None;
    var handled := HandledOf(read);
    ApplyTargeted(reducer, selected, handled);
    AfterAppend(start, others, Learned(selected, handled));
    if read.None? { return Some(ReadFailed), None, fetches; }
    if handled.Some? { return Some(AlreadyHandled), None, fetches; }
    if AssertedDigest(read.value) != Some(Trim(a.expected)) { return Some(Changed), None, fetches; }
    refused := None;
    copy := Some(if selected && a.requestId in reducer.requestsById
                 then reducer.requestsById[a.requestId] else read.value);
  }

  function HandledOf(read: Option<Request>): Option<Request> {
    if read.Some? && !read.value.status.Pending? then read else None
  }

  /** Everything the reducer goes through during a submission. `others` is what other
      tasks do to it during the first read, the post and the last read. */
  function SubmitActivities(selected: bool, fetches: seq<Sent>, posts: seq<Sent>, rechecks: seq<Sent>,
                            others: (seq<Activity>, seq<Activity>, seq<Activity>)): seq<Activity>
  {
    if fetches == [] then []
    else
      others.0 + Learned(selected, HandledOf(LastDelivered(fetches)))
      + if posts == [] then [] else PostActivities(selected, posts, rechecks, (others.1, others.2))
  }

  /** The cache holds this version or one as new. */
  ghost predicate Reflects(cache: map<string, Request>, r: Request) {
    r.id in cache && AsNew(cache[r.id], r)
  }

  /** What a submission learned last is in the cache at its end. */
  lemma LearnedIsHeld(s: Inbox, acts: seq<Activity>, r: Request)
    ensures Reflects(After(s, acts + Learned(true, Some(r))).cache, r)
  {
    assert (acts + [Arrival(r)])[..|acts|] == acts;
    UpdateByTime(After(s, acts), r);
  }

  /** A submission for another server than the selected one leaves the reducer to the
      other tasks. */
  lemma UnselectedLearnsNothing(fetches: seq<Sent>, posts: seq<Sent>, rechecks: seq<Sent>,
                                others: (seq<Activity>, seq<Activity>, seq<Activity>))
    ensures SubmitActivities(false, fetches, posts, rechecks, others)
            == if fetches == [] then [] else if posts == [] then others.0
               else if LastDelivered(posts).Some? then others.0 + others.1 else others.0 + others.1 + others.2
  {
    hide LastDelivered;
    assert others.0 + [] + [] == others.0 && others.1 + [] == others.1;
    assert others.1 + others.2 + [] == others.1 + others.2;
    assert others.0 + (others.1 + others.2) == others.0 + others.1 + others.2;
  }

  /** What a submission for the selected server ends with having learned. */
  lemma SelectedLearns(s: Inbox, fetches: seq<Sent>, posts: seq<Sent>, rechecks: seq<Sent>,
                       others: (seq<Activity>, seq<Activity>, seq<Activity>), r: Request)
    requires fetches != []
    requires if posts == [] then HandledOf(LastDelivered(fetches)) == Some(r)
             else if LastDelivered(posts).Some? then LastDelivered(posts) == Some(r)
             else LastDelivered(rechecks) == Some(r)
    ensures Reflects(After(s, SubmitActivities(true, fetches, posts, rechecks, others)).cache, r)
  {
    var acts := SubmitActivities(true, fetches, posts, rechecks, others);
    var known := others.0 + Learned(true, HandledOf(LastDelivered(fetches)));
    hide LastDelivered, After;
    if posts == [] {
      assert acts == others.0 + Learned(true, Some(r));
      LearnedIsHeld(s, others.0, r);
    } else if LastDelivered(posts).Some? {
      assert acts == (known + others.1) + Learned(true, Some(r));
      LearnedIsHeld(s, known + others.1, r);
    } else {
      assert acts == (known + (others.1 + others.2)) + Learned(true, Some(r));
      LearnedIsHeld(s, known + (others.1 + others.2), r);
    }
  }

  /** What the reducer holds after a submission with this outcome. */
  ghost predicate Learns(start: Inbox, after: Inbox, selected: bool, fetches: seq<Sent>, posts: seq<Sent>,
                         rechecks: seq<Sent>, others: (seq<Activity>, seq<Activity>, seq<Activity>), outcome: Outcome)
  {
    && (selected && outcome.Submitted? ==> Reflects(after.cache, outcome.request))
    && (selected && outcome == AlreadyHandled && LastDelivered(fetches).Some? ==>
          Reflects(after.cache, LastDelivered(fetches).value))
    && (selected && outcome == Failed && LastDelivered(rechecks).Some? ==>
          Reflects(after.cache, LastDelivered(rechecks).value))
    && (!selected ==>
          after == After(start, if fetches == [] then [] else if posts == [] then others.0
                                else if outcome.Submitted? then others.0 + others.1
                                else others.0 + others.1 + others.2))
  }

  lemma SubmissionLearns(start: Inbox, selected: bool, fetches: seq<Sent>, posts: seq<Sent>, rechecks: seq<Sent>,
                         others: (seq<Activity>, seq<Activity>, seq<Activity>), outcome: Outcome)
    requires outcome.Submitted? ==> LastDelivered(posts) == Some(outcome.request)
    requires outcome.Submitted? <==> LastDelivered(posts).Some?
    requires outcome == AlreadyHandled ==> fetches != [] && posts == [] && HandledOf(LastDelivered(fetches)).Some?
    requires outcome == Failed || outcome.Submitted? ==> fetches != [] && posts != []
    ensures Learns(start, After(start, SubmitActivities(selected, fetches, posts, rechecks, others)), selected, fetches,
                   posts, rechecks, others, outcome)
  {
    hide LastDelivered, After, SubmitActivities, Reflects;
    if !selected {
      UnselectedLearnsNothing(fetches, posts, rechecks, others);
    } else if outcome.Submitted? {
      SelectedLearns(start, fetches, posts, rechecks, others, outcome.request);
    } else if outcome == AlreadyHandled {
      SelectedLearns(start, fetches, posts, rechecks, others, LastDelivered(fetches).value);
    } else if outcome == Failed && LastDelivered(rechecks).Some? {
      SelectedLearns(start, fetches, posts, rechecks, others, LastDelivered(rechecks).value);
    }
  }

  /** `submit_request_option`. */
  method SubmitRequestOption(p: Primitives, sign: string -> Option<string>, network: Network, reducer: StateReducer,
                             selected: bool, a: Params, who: Identity,
                             others: (seq<Activity>, seq<Activity>, seq<Activity>))
    returns (outcome: Outcome, ghost copy: Option<Request>, ghost fetches: seq<Sent>, ghost posts: seq<Sent>,
             ghost rechecks: seq<Sent>)
    requires reducer.Valid()
    modifies network, reducer
    ensures network.log == old(network.log) + fetches + posts + rechecks
    ensures Follows(p, sign, a, who, copy, fetches, posts, rechecks)
    ensures copy.Some? ==>
              var held := After(old(reducer.Model()), others.0).cache;
              LastDelivered(fetches).Some?
              && copy == if selected && a.requestId in held then Some(held[a.requestId]) else LastDelivered(fetches)
    ensures outcome.Submitted? <==> LastDelivered(posts).Some?
    ensures outcome.Submitted? ==> LastDelivered(posts) == Some(outcome.request)
    ensures outcome == Failed <==> posts != [] && LastDelivered(posts).None?
    ensures outcome == NotSigned <==> copy.Some? && posts == []
    ensures copy.Some? ==> (posts == [] <==> DecisionSignatureFor(p, sign, a, who, copy.value).None?)
    ensures outcome == ReadFailed <==> fetches != [] && LastDelivered(fetches).None?
    ensures outcome == AlreadyHandled <==>
              fetches != [] && LastDelivered(fetches).Some? && !LastDelivered(fetches).value.status.Pending?
    ensures fetches == [] <==> Trim(a.expected) == ""
    ensures Learns(old(reducer.Model()), reducer.Model(), selected, fetches, posts, rechecks, others, outcome)
    ensures reducer.Valid()
    ensures reducer.Model() == After(old(reducer.Model()), SubmitActivities(selected, fetches, posts, rechecks, others))
  {
    copy, fetches, posts, rechecks := None, [], [], [];
    if Trim(a.expected) == "" { return Changed, copy, fetches, posts, rechecks; }
    hide After, IsExchange, Delivered, Trim, TrimmedText, AssertedDigest, DecisionSignatureFor, PendingAsSeen;
    hide IsVisibleList, CountsAgree, PendingIndex, StampsOk, PostActivities, Learns;
    ghost var start := reducer.Model();
    var refused, held;
    refused, held, fetches := ReadPending(network, reducer, selected, a, others.0);
    copy := held;
    assert fetches != [] by { PostsNotEmpty(fetches, Read(a.requestId)); }
    ghost var known := others.0 + Learned(selected, HandledOf(LastDelivered(fetches)));
    assert known + [] == known;
    if refused.Some? {
      SubmissionLearns(start, selected, fetches, [], [], others, refused.value);
      return refused.value, copy, fetches, posts, rechecks;
    }
    SeenPending(a, LastDelivered(fetches));
    assert known == others.0;
    var signature := DecisionSignatureFor(p, sign, a, who, held.value);
    if signature.None? {
      SubmissionLearns(start, selected, fetches, [], [], others, NotSigned);
      return NotSigned, copy, fetches, posts, rechecks;
    }
    var result;
    var post := Post(a.requestId, a.optionId, a.answer, TrimmedText(a.text), signature.value);
    result, posts, rechecks :=
      PostAndReconcile(network, reducer, selected, a.requestId, post, (others.1, others.2));
    AfterAppend(start, known, PostActivities(selected, posts, rechecks, (others.1, others.2)));
    outcome := if result.Some? then Submitted(result.value) else Failed;
    assert posts != [] by { PostsNotEmpty(posts, post); }
    assert result.None? ==> rechecks != [] by { if result.None? { PostsNotEmpty(rechecks, Read(a.requestId)); } }
    SubmissionLearns(start, selected, fetches, posts, rechecks, others, outcome);
  }

  lemma SeenPending(a: Params, read: Option<Request>)
    requires read.Some? && read.value.status.Pending? && AssertedDigest(read.value) == Some(Trim(a.expected))
    ensures PendingAsSeen(a, read) && HandledOf(read) == None
  {
  }
}
