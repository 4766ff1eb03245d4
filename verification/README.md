# Nod: signed approvals, verified

Nod lets a program ask a person for a decision and get back an answer signed by the person's device. This
project models four connected parts of it and proves what each of them, and their combination, guarantees:

1. **The client inbox and its sync protocol.** A reducer keeps requests by id and, beside them, pending counts per
   channel, an index of pending ids, a sorted and capped list and revision stamps. HTTP snapshots race with socket
   events and submission results. `PlainInbox.dfy` is the plain meaning, `Reducer.dfy` the class that is proved to
   follow it, `CatchUp.dfy`, `NewestWins.dfy` and `Connection.dfy` the protocol, `Notifications.dfy` the sync task's
   messages, `VisibleList.dfy` the list and its second implementation on the Apple client.
2. **The signing contract and the offline verifier.** `Json.dfy`, `Spelling.dfy` and `CanonicalJson.dfy` print and
   parse JSON (sections 4 and 7 of RFC 8259), `Wire.dfy` reads the hashed texts back, `Digests.dfy` holds the five
   request digest encoders, `Payloads.dfy` the two decision payloads, `Separators.dfy` and `PayloadCuts.dfy` when the
   first of them is ambiguous, `Signer.dfy` the device side, `Receipt.dfy` the verifier, `Acceptance.dfy` when it
   accepts, `ReceiptTheorems.dfy` the results about both.
3. **The configuration store.** `ConfigMerge.dfy` is the three-way merge, `ConfigStore.dfy` the files, the processes
   and their crashes.
4. **Arithmetic and bounded loops.** `Decimal.dfy` (canonical decimals), `Calendar.dfy` (dates and instants),
   `Backoff.dfy` (reconnect pauses), `Submit.dfy` (the retry loop and the submission).

`Common.dfy`, `Requests.dfy`, `Digits.dfy`, `Texts.dfy` and `Answers.dfy` hold what these share.

SHA-256, RFC 3339 printing and parsing and P-256 verification are function-valued fields of
`Digests.Primitives`; every result holds for all of them. Where a result needs the hash not to collide, it says
for which texts (`Signer.Collide`, `Signer.NoCollision`); where it needs timestamps to survive printing and parsing,
it says for which instant (`ReceiptTheorems.TimeRoundTrip`); unforgeability is the hypothesis that a pinned key
verifies nothing but payloads of the device's own calls (`ReceiptTheorems.KeySignsOnly`); soundness also takes it that
hashes print without newlines (`ReceiptTheorems.HashesOnOneLine`) and, for the first payload, that the receipt's own
fields are not ambiguous (`ReceiptTheorems.UnambiguousReceipt`), which the verifier can check and which holds whenever
they contain no newline. Clocks, nonces, key ids and HTTP replies are parameters.

What turned out not to hold without a condition is stated with that condition:

- Updates are independent of their order exactly when no id has two different top versions
  (`CatchUp.OrderIndependence`).
- A connection catches up exactly when the last version of every id is delivered some way
  (`CatchUp.CatchUpIffDelivered`). A complete list fetched after subscribing always does; the list is cut at the
  history limit of 500 handled requests, and then every id it leaves out must be replayed
  (`CatchUp.CutListCatchesUpIff`); a list fetched before subscribing must leave no gap (`CatchUp.CatchUpIff`).
- Candidates are announced after the reducer is released. A result of the host in between leaves an announcement of a
  handled request standing exactly when it handled one of those announced (`Notifications.LateAnnouncementsStandIff`).
- The Apple client's view of one channel is that channel's own list exactly when the cap of the whole list cut nothing
  of it or the channel fills the cap (`VisibleList.ChannelViewIff`).
- The first payload format can be read in two ways exactly when one of its separators lies inside a field beside its
  own place (`PayloadCuts.PayloadV1AmbiguousIff`). A newline with no label behind it does no harm.
  `Payloads.PayloadV1NeedsOneLine` gives an ambiguous pair.
- The verifier does not ask whether a request with an answer has an answer field, and the line snapshot does not cover
  that field: an answer signed on a value card without a signing context passes for an ordinary card with its content
  (`ReceiptTheorems.AnswerPassesForOrdinaryCard`). This happens under the line snapshot and under no other encoder
  (`ReceiptTheorems.AnsweredCardIff`), that is, when the decision carries the line digest of the created request
  (`ReceiptTheorems.AnsweredCardByDigest`).
- A card without a signing context is verified against the line snapshot of the created request, so what was signed on
  a copy with filtered recipients passes only with a context, or if the two snapshots hash alike
  (`ReceiptTheorems.SignThenVerify`).
- The merge follows the pointwise rule exactly when the saved list has no two different entries of a server
  (`ConfigMerge.RuleIffUniform`). A file that already holds two breaks it: a save that edits nothing swaps the server
  that lookups see (`ConfigMerge.UneditedSaveSwaps`).
- Two saves commute exactly when no key was edited by both to different values (`ConfigMerge.SavesCommuteIff`).

## Model

| member | source | states |
|---|---|---|
| `PlainInbox.StaleIsStrictWeakOrder` | client/nod-client-core/src/state.rs:399-404 | the earlier version is stale, and of one time the pending one beside a handled one; the order is irreflexive and transitive, ties are transitive, and tied versions stand alike to every third |
| `PlainInbox.TopExists` | client/nod-client-core/src/state.rs:399-404 | among any versions of a request there is one that none of them outranks |
| `PlainInbox.ByIdLastWins` | client/nod-client-core/src/state.rs:127-130 | a response list collected by id holds exactly the last listed version of every id that occurs |
| `Reducer.TrackAgrees` | client/nod-client-core/src/state.rs:222-241 | one tracking step keeps the channel counts equal to a recount of the pending index, with no zero entry, so the saturating subtraction never saturates |
| `Reducer.CountPendingByChannel` | client/nod-client-core/src/state.rs:414-431 | the counting loop yields the number of pending requests of each channel and no other entry |
| `Reducer.Recount` | client/nod-client-core/src/state.rs:406-427 | recomputing from a cache yields its pending requests once each, its pending index and the counts of that index |
| `Reducer.StateReducer.UpdatePendingTracking` | client/nod-client-core/src/state.rs:222-241 | the index and the counts take one step, and a request is reported new exactly if it is pending and was not known |
| `Reducer.StateReducer.ApplyRequestUpdate` | client/nod-client-core/src/state.rs:181-196 | a version of earlier time than the cached one changes nothing, a later one is cached, stamped and indexed, and index, counts and list again agree with the cache |
| `Reducer.StateReducer.MergeSnapshot` | client/nod-client-core/src/state.rs:127-143 | the loop keeps exactly the cached requests that changed during the fetch and are not older than the response's |
| `Reducer.StateReducer.ApplySnapshot` | client/nod-client-core/src/state.rs:114-157 | the cache becomes the merged snapshot, everything incremental agrees with it, and after the baseline the candidates are exactly the pending requests not known before |
| `Reducer.StateReducer.ApplySyncEnvelope` | client/nod-client-core/src/state.rs:159-173 | an envelope updates channel and request; only a created, accepted, newly pending request becomes a candidate |
| `Reducer.StateReducer.SelectChannel` | client/nod-client-core/src/state.rs:204-207 | choosing a channel changes the list and the selection, never the cache, the index or the counts |
| `Reducer.StateReducer.ClearLoadedData` | client/nod-client-core/src/state.rs:263-276 | clearing empties everything but the revision counter, which a snapshot in flight still refers to |
| `Reducer.ReducerDetermined` | client/nod-client-core/src/state.rs:114-276 | index, counts and list are a function of the cache and the selected channel, whatever sequence of steps led there |
| `Reducer.ReducerShows` | client/nod-client-core/src/state.rs:198-202 | in any state the list shows every pending request of the selected channel and its newest handled ones, up to 500, pending first and the latest first in each part |
| `Reducer.ReducerCounts` | client/nod-client-core/src/state.rs:222-241 | in any state an id is indexed, with its channel, exactly if its request is cached and pending, and a channel counts its indexed ids, without zero entries |
| `Reducer.UpsertReplacesFirst` | client/nod-client-core/src/state.rs:209-220 | an upserted channel replaces the first of its id where it stands, or else is appended |
| `Reducer.SelectionIsShown` | client/nod-client-core/src/state.rs:381-397 | a request stays selected exactly while it is shown; otherwise the first shown one is selected |
| `Reducer.ChannelSelectionIff` | client/nod-client-core/src/state.rs:278-299 | a channel stays selected exactly while the new list has it subscribed |
| `NewestWins.UpdateByTime` | client/nod-client-core/src/state.rs:181-196 | an update of later time than the cached version is always cached, an earlier one changes nothing, and one of the same time is cached unless it would reopen a handled request |
| `NewestWins.NewestKept` | client/nod-client-core/src/state.rs:181-196 | after any run of updates the cached version of an id is one of those met, none of them is later, and it is handled if one of its time is |
| `NewestWins.SnapshotByTime` | client/nod-client-core/src/state.rs:127-145 | an id that did not change during the fetch is taken from the response; one that did is kept unless the response has a later version, or a handled one of the same time for a pending one |
| `NewestWins.SnapshotsKeepAccepted` | client/nod-client-core/src/state.rs:127-152 | an update accepted since a revision is not lost to any number of lists fetched since then, one after another: stamps survive with what they belong to |
| `NewestWins.ConnectionKeepsNewest` | client/nod-client-core/src/state.rs:114-196 | a whole connection ends, for every id, with a version that was listed, replayed or accepted, and than which none of those is newer |
| `NewestWins.ClearedThenListed` | client/nod-client-core/src/state.rs:263-276 | a list fetched across a clearing is taken as it is, except for what arrives after the clearing, which is not lost: the revision counter is kept |
| `CatchUp.OrderIndependence` | client/nod-client-core/src/state.rs:181-196 | any listing of a set of updates, in any order and with repetitions, ends in the same cache if and only if no id has two different top versions |
| `CatchUp.StampsMarkAccepted` | client/nod-client-core/src/state.rs:189-192 | an id carries a stamp beyond an earlier revision exactly if some update of it since then was acceptable |
| `CatchUp.SnapshotKeepsAccepted` | client/nod-client-core/src/state.rs:131-145 | an update accepted while a snapshot is in flight is neither reverted nor dropped by that snapshot |
| `CatchUp.SnapshotReplacesUntouched` | client/nod-client-core/src/state.rs:131-145 | every id not updated meanwhile is taken from the response, present or absent |
| `CatchUp.CatchUpIffDelivered` | client/nod-client-core/src/state.rs:114-196 | from any start, with a list cut or complete and fetched at any time, the cache ends equal to the server's state exactly if the last version of every id came with the list, afterwards, or during the fetch without being outranked by the start |
| `CatchUp.CatchUpExact` | client/nod-client-core/src/runtime/sync.rs:178-202 | subscribing at s, fetching at t >= s and taking all events from s to n among other genuine results ends in the server's state at n exactly if every id the list leaves out was delivered otherwise, hence always with a complete list |
| `CatchUp.CutListCatchesUpIff` | client/nod-client-core/src/runtime/snapshot.rs:13-33 | with a list cut at the history limit and only the replay, this means every id that was left out has a version in the replay |
| `CatchUp.CatchUpIff` | client/nod-client-core/src/runtime/sync.rs:178-202 | replaying from s after a list fetched at any t catches up if and only if every version published from t to s has a later one in the replay, and so has every id the list left out |
| `Connection.CatchUpWithServer` | client/nod-client-core/src/runtime/snapshot.rs:25-54 | the reducer itself ends with the server's requests exactly if the last version of each was delivered, and always with the pending index, counts and list of what it holds |
| `Connection.Perform` | client/nod-client-core/src/state.rs:114-276 | any sequence of updates, snapshots, channel choices and clears keeps the reducer valid and acts on the cache as on the plain inbox |
| `Notifications.SyncTask.Refresh` | client/nod-client-core/src/runtime/snapshot.rs:25-65 | with any host results between reading the revision and applying the snapshot, standing announcements stay within the pending ids; after the baseline the new pending ids are those before the snapshot minus the removed plus the candidates; the refresh itself sends the announcements and behind them a removal of each removed id and nothing else |
| `Notifications.SyncTask.HostResult` | client/nod-client-core/src/runtime/workflows.rs:297-312 | a targeted result updates the cache and removes the announcement of a handled request |
| `Notifications.SyncTask.ApplyEnvelope` | client/nod-client-core/src/runtime/sync.rs:226-269 | a handled request is announced as removed and nothing else is sent; a pending one is announced only if created and new |
| `Notifications.SyncTask.Revoke` | client/nod-client-core/src/runtime/sync.rs:61-86 | revocation clears the inbox and leaves no announcement standing: it sends a removal of each pending id and nothing else |
| `Notifications.AnnouncementsRespectPreferences` | client/nod-client-core/src/runtime/snapshot.rs:70-102 | a candidate is announced if and only if its channel is not muted and no snooze lasts beyond its moment, once, in order, unchanged except that title and body are gone when the device hides content |
| `Notifications.AnnounceAll` | client/nod-client-core/src/runtime/snapshot.rs:70-102 | announcing distinct requests that do not stand adds only their ids, whatever is muted or snoozed |
| `Notifications.AnnouncedAgainOnlyAfterRemoval` | client/nod-client-core/src/runtime/sync.rs:242-252 | between two announcements of one request lies its removal |
| `Notifications.LeavesFirstStep` | client/nod-client-core/src/runtime/snapshot.rs:36-56 | between two announcements of one request lies also a moment at which it was not pending: a step that announces only what was not pending before it keeps this, and every step of the sync task does |
| `Notifications.LateAnnouncementsStandIff` | client/nod-client-core/src/runtime/snapshot.rs:36-55 | announced after the reducer was released, candidates leave only pending requests standing if and only if none of those announced was handled meanwhile |
| `VisibleList.CapHandled` | client/nod-client-core/src/state.rs:447-457 | the counting filter shows every pending request and the handled ones with fewer than the limit newer handled ones, in order |
| `VisibleList.VisibleRequests` | client/nod-client-core/src/state.rs:440-458 | sorting and filtering yields the visible list of the given requests |
| `VisibleList.SwiftVisibleRequests` | client/nod-apple/Sources/NodKit/NodRequestInbox.swift:22-50 | the Apple client's sort and filter yield the same list, for every string order that ranks the ids of tied requests as their scalar values do |
| `VisibleList.VisibleListUnique` | client/nod-client-core/src/state.rs:440-458 | there is only one visible list of a set of requests |
| `VisibleList.VisibleListReads` | client/nod-client-core/src/state.rs:440-458 | a visible list has the pending requests before the handled ones, each part by creation, latest first, and then by id; all pending requests; and min(limit, n) handled ones, none of them created before one left out |
| `VisibleList.HandledShown` | client/nod-client-core/src/state.rs:447-457 | of n handled requests exactly min(limit, n) are shown |
| `VisibleList.ReapplyIsIdentity` | client/nod-apple/Sources/NodKit/NodStore.swift:395-399 | sorting and capping the runtime's list once more changes nothing |
| `VisibleList.ReapplyToChannel` | client/nod-apple/Sources/NodKit/NodStore.swift:401-403 | sorting and capping one channel of the runtime's list shows just that part of it, in its order |
| `VisibleList.ChannelViewIff` | client/nod-apple/Sources/NodKit/NodStore.swift:401-403 | that view is the runtime's own list of the channel if and only if the cap cut nothing of the channel or the channel alone fills it |
| `Json.TextParses` | nod-proto/src/value_signing.rs:53-55 | parsing the printed text of any float-free value, with any text after it that cannot extend a number, returns the value and that text |
| `Json.TextInjective` | nod-proto/src/signing.rs:263-264 | two float-free values with the same text are the same |
| `Spelling.TextShortest` | nod-proto/src/value_signing.rs:53-55 | of all texts that parse to a value the printed one is the shortest |
| `Spelling.EscapeShortest` | nod-proto/src/value_signing.rs:34 | a character is written in its shortest form, with two characters where such a form exists, and otherwise with lower-case hexadecimal digits: no other spelling of that length is free of capitals |
| `Spelling.PlainStringAsItself` | nod-proto/src/value_signing.rs:34 | a string without quotation mark, reverse solidus and control characters is written as itself, slashes included |
| `CanonicalJson.Write` | nod-proto/src/value_signing.rs:22-58 | the recursive printer appends exactly the text of the sorted value, or fails with the first error in its order of visits |
| `CanonicalJson.CanonicalValueJson` | nod-proto/src/value_signing.rs:21-63 | printing yields the canonical text or the first error |
| `CanonicalJson.CanonicalSucceedsIff` | nod-proto/src/value_signing.rs:28-52 | printing succeeds if and only if no float and no non-ASCII key occurs at any depth |
| `CanonicalJson.ErrorIsReal` | nod-proto/src/value_signing.rs:28-52 | the error named is one that occurs in the value |
| `CanonicalJson.CanonicalParses` | nod-proto/src/value_signing.rs:21-63 | parsing the canonical text returns the value with its keys sorted |
| `CanonicalJson.CanonAscending` | nod-proto/src/value_signing.rs:26-28 | keys ascend strictly at every depth of the printed value |
| `CanonicalJson.CanonicalTextIff` | nod-proto/src/value_signing.rs:21-63 | two values print alike if and only if they are equal up to the order of members at every depth |
| `Digests.EncodersDisjoint` | nod-proto/src/signing.rs:127-265 | texts hashed by different encoders differ for all requests, commitments and answer fields, although the encoders share tags |
| `Digests.PreHashInjective` | nod-proto/src/value_signing.rs:123-155 | for the four structured encoders the hashed text determines content, commitment and, for value cards, the answer field |
| `Digests.CommitmentIff` | nod-proto/src/signing.rs:239-241 | a commitment is accepted exactly if it is 64 hexadecimal digits |
| `Digests.ValueContentPrints` | nod-proto/src/value_signing.rs:133-153 | the value encoder's content never fails to print and is already in canonical order |
| `Wire.ContentReads` | nod-proto/src/signing.rs:244-261 | in the content both structured encoders hash, a reader finds each text and time of the card under its name |
| `Wire.ListsRead` | nod-proto/src/signing.rs:244-261 | and the lists of fields, links and options, element by element, and the notification |
| `Wire.PartsRead` | nod-proto/src/request.rs:15-105 | an option, a field, a link and a notification have each of their parts under its name |
| `Wire.AnswerReads` | nod-proto/src/answer.rs:15-22 | an answer has its kind and its value under their names |
| `Wire.AnswerFieldReads` | nod-proto/src/answer.rs:32-51 | an answer field has its kind, label, default and choices under their names |
| `Wire.DecisionReads` | nod-proto/src/value_signing.rs:174-190 | the second payload has each field of the decision under its name |
| `Wire.KindRoundTrip` | nod-proto/src/request.rs:45-69 | reading the printed name of an option kind gives the kind back |
| `Wire.StructuredTextReads` | nod-proto/src/signing.rs:234-265 | a structured text is its tag on a line, and the rest parses to the content |
| `Wire.ValueTextReads` | nod-proto/src/value_signing.rs:133-155 | so is the text of a value card, with the answer field among the members |
| `Wire.SnapshotLines` | nod-proto/src/signing.rs:127-186 | the line snapshot has each of its fields on a line of its own behind its label |
| `Wire.JoinedSplits` | nod-proto/src/signing.rs:167 | joined recipients can be told apart where none contains a comma |
| `Wire.FrozenPayload` | nod-proto/src/signing.rs:397-426 | the first payload of the frozen input is the frozen text, line by line |
| `Texts.TrimCuts` | client/nod-client-core/src/signing.rs:313-320 | trimming cuts off white space at both ends, all of it and nothing else |
| `Texts.TrimmedTextIff` | client/nod-client-core/src/signing.rs:313-320 | a note is absent exactly if nothing but white space was written; otherwise it is what was written, cut at both ends |
| `Texts.Utf8SizeIsLeast` | nod-proto/src/value_signing.rs:169-173 | the length of a note counts for each character the least number of bytes it fits into |
| `Payloads.PayloadV1Injective` | nod-proto/src/signing.rs:94-113 | the first payload determines every field and the hash of the text, if one of the two inputs has no newline in a field |
| `PayloadCuts.PayloadV1AmbiguousIff` | nod-proto/src/signing.rs:94-113 | the first payload of some fields is also that of other fields if and only if a separator of the payload (for the kind: its line with any kind's name and the next label) lies inside the field before or after its place |
| `PayloadCuts.PayloadV1Unambiguous` | nod-proto/src/signing.rs:94-113 | fields of which this is not so are the only ones with their payload |
| `PayloadCuts.OneLineNotAmbiguous` | nod-proto/src/signing.rs:94-113 | this is so of no fields without newlines |
| `Payloads.DecisionPrints` | nod-proto/src/value_signing.rs:174-190 | the content of the second payload always prints |
| `Payloads.PayloadV2Injective` | nod-proto/src/value_signing.rs:157-191 | the second payload determines every field, the trimmed text and the answer, without conditions |
| `Payloads.PayloadsDisjoint` | nod-proto/src/value_signing.rs:187-190 | no text is a payload of both versions |
| `Signer.RecomputedFrom` | client/nod-client-core/src/signing.rs:134-171 | the digest recomputed before signing is the hash of the copy at hand under an encoder of its own kind and tag |
| `Signer.PrepareIff` | client/nod-client-core/src/signing.rs:116-202 | a call is prepared for signing if and only if the answer is one the card asks for, the digest the user saw is not empty, is the one the copy asserts and is the hash of its content under its own kind and tag, the option is one of the card's, and the payload can be printed |
| `Signer.PrepareRefusal` | client/nod-client-core/src/signing.rs:116-202 | a refusal names the first of answer, context, reviewed digest, content and option that is not in order |
| `Signer.PreparedInput` | client/nod-client-core/src/signing.rs:179-202 | what is then signed is the call's own fields, the digest the user saw and the kind of the option chosen, in the format of the card's kind |
| `Signer.PreparedAsReviewed` | client/nod-client-core/src/signing.rs:116-202 | the digest the user saw, the digest the copy asserts and the hash of its content are one |
| `Signer.OptionForIff` | client/nod-client-core/src/signing.rs:291-311 | an option is accepted exactly if one of the card's options has its id, wherever it stands, or it is the dismissal of an ordinary card without options; the kind is that of the first with the id |
| `Signer.SignedAsReviewed` | client/nod-client-core/src/signing.rs:203-213 | a signature carries the reviewed digest and is the key's answer to the prepared payload |
| `Signer.ProjectionTellsNothing` | nod-proto/src/request.rs:283-309 | the projection of a value card is the same whatever its answer field, texts below the title, lists, picture, notification, decisions, callback, digest and options are, and keeps the rest |
| `Signer.ProjectionSignableIff` | nod-proto/src/request.rs:283-309 | a projected value card can be signed if and only if its context holds the structured digest of the projection, and only with its one option and no answer |
| `Signer.ProjectionNeverSigned` | nod-proto/src/request.rs:283-309 | if the context holds the card's digest under a value encoder, whatever its tag, the projection is never signed, for any option, answer, text or expected digest |
| `Receipt.MatchRequestDigest` | nod-proto/src/receipt.rs:354-411 | pushing candidates one by one and searching them finds the first encoder that reproduces the digest, with the source's errors in its order |
| `Receipt.CandidatesDistinct` | nod-proto/src/receipt.rs:372-401 | without collisions at most one candidate matches any digest |
| `Receipt.EncoderOrderFree` | nod-proto/src/receipt.rs:402-410 | without collisions the reported encoder does not depend on the order of candidates |
| `Receipt.MatchedFrom` | nod-proto/src/receipt.rs:354-411 | a matched digest is the hash of the created request under the reported encoder |
| `Receipt.ResolveOptionIff` | nod-proto/src/receipt.rs:415-432 | the verifier resolves an id exactly to the first option that has it, or to the implicit dismissal |
| `Receipt.OptionsAgree` | nod-proto/src/receipt.rs:415-432 | signer and verifier resolve the same option of the same kind, or none, for every request and id |
| `Receipt.VerifyDecisionReceipt` | nod-proto/src/receipt.rs:205-341 | the early returns with their reasons and the list of warnings amount to the verification function that the results below speak of |
| `Receipt.PinnedForIff` | nod-proto/src/receipt.rs:242-263 | the key is the first pinned one of the actor with the receipt's key id; it is unknown exactly if no pinned key has both, and refused exactly if it is for another device |
| `Acceptance.MatchIff` | nod-proto/src/receipt.rs:354-411 | a digest is matched if and only if it is the hash of the created request under an encoder of its kind, tag and context, and the current encoder is reported before the historical ones |
| `Acceptance.VerifyIff` | nod-proto/src/receipt.rs:205-341 | a receipt passes if and only if algorithm, ids, digest, option and its kind, actor, the first pinned key of the actor with the key id, payload, signature and, under strict time, the clock are in order |
| `Acceptance.ContentRefusal` | nod-proto/src/receipt.rs:205-232 | a refusal names the first check that fails: algorithm, ids, digest (and then why, or all the digests that would do), option, kind |
| `Acceptance.SignatureRefusal` | nod-proto/src/receipt.rs:234-303 | and then actor, key, time of signing, format, payload, signature |
| `Acceptance.UnknownKeyIff` | nod-proto/src/receipt.rs:234-249 | a receipt with content in order is refused for an unknown key exactly if the actor is named and no pinned key has both ids |
| `Acceptance.WarningsTell` | nod-proto/src/receipt.rs:305-327 | a pass warns of the clock exactly if now is further from the time of signing than the caller allows, ten minutes by default, and of the recorded time exactly if that is |
| `Acceptance.StrictTimeRefuses` | nod-proto/src/receipt.rs:305-319 | a receipt otherwise in order is refused exactly under strict time and a clock that far off |
| `ReceiptTheorems.PayloadsDetermine` | nod-proto/src/receipt.rs:284-301 | payloads of either version that agree come from the same fields and the same answer |
| `ReceiptTheorems.ReceiptSound` | nod-proto/src/receipt.rs:205-341 | a receipt that passes under a key that signed only the device's own payloads names one of the device's calls in every field; created and signed card have the same content, commitment and answer field, or, under the line snapshot, the same snapshot |
| `ReceiptTheorems.AnswerPassesForOrdinaryCard` | nod-proto/src/receipt.rs:286-295 | an answer signed on a value card without a signing context passes for the ordinary card with its content, exactly under the conditions on ids, key and time of any receipt |
| `ReceiptTheorems.AnsweredCardIff` | nod-proto/src/receipt.rs:286-295 | a passing receipt with an answer is for an ordinary card if and only if the line snapshot is the encoder |
| `ReceiptTheorems.AnsweredCardByDigest` | nod-proto/src/receipt.rs:286-295 | the same in terms of the stored decision: if and only if it carries the line digest of the created request |
| `ReceiptTheorems.RecomputedMatches` | nod-proto/src/receipt.rs:373-401 | in the request as created the verifier finds the digest the signer recomputed from the device's copy if and only if there is a context, or the card is ordinary and the two snapshots hash alike |
| `ReceiptTheorems.SignThenVerify` | nod-proto/src/receipt.rs:205-341 | the receipt of a call signed on a device's copy, with recipients filtered and the legacy digest dropped, passes for the created request if and only if the ids agree, the digest is found as above, the first pinned key for user and key id fits the device and verifies, and strict time is kept; it then reports the call |
| `ReceiptTheorems.BuiltSignatureVerifies` | client/nod-client-core/src/signing.rs:116-212 | what the signer returns for a device's copy passes for the created request under the public half of its key |
| `ConfigMerge.MergeMap` | client/nod-client-core/src/store.rs:318-331 | removing and inserting key by key yields the pointwise merge of three maps |
| `ConfigMerge.MergedEntries` | client/nod-client-core/src/store.rs:279-298 | what the two list loops leave under each id, for any three lists, with duplicates |
| `ConfigMerge.MergeKeepsUnique` | client/nod-client-core/src/store.rs:279-298 | a merge never gives a server a second entry, so its result meets the condition of the rule below |
| `ConfigMerge.MergedServer` | client/nod-client-core/src/store.rs:279-298 | an edited server takes the process's entry, any other keeps the disk's, if the saved list has no two different entries of it |
| `ConfigMerge.RuleIffUniform` | client/nod-client-core/src/store.rs:279-298 | that rule holds for every base and disk if and only if the saved list has no two different entries of the server |
| `ConfigMerge.UneditedSaveSwaps` | client/nod-client-core/src/store.rs:286-298 | a file that already holds two entries of one id shows the failure: a save that edits nothing makes lookups see the second instead of the first |
| `ConfigMerge.MergedOrder` | client/nod-client-core/src/store.rs:279-298 | what the process neither dropped nor changed comes first, as it stands on disk, and then what it changed or added, as it stands with the process |
| `ConfigMerge.MergeConfig` | client/nod-client-core/src/store.rs:274-316 | editing the configuration read from disk step by step yields the merge |
| `ConfigMerge.MergePointwise` | client/nod-client-core/src/store.rs:274-331 | every key of the merge holds the process's value if the process changed it, else the disk's |
| `ConfigMerge.SavesCommuteIff` | client/nod-client-core/src/store.rs:274-331 | two saves commute up to the order of the list if and only if no key was edited by both to different values |
| `ConfigStore.Store.Load` | client/nod-client-core/src/store.rs:83-112 | a load takes the backup only if the main file was unreadable, whatever other processes do to the files between its two reads, and then remembers the recovery |
| `ConfigStore.AbsentHoldsNothing` | client/nod-client-core/src/store.rs:223-233 | without a file there are no servers, tokens, keys or selection, and the sound is the default |
| `ConfigStore.LoadWasCurrent` | client/nod-client-core/src/store.rs:83-112 | although a load takes no lock, what it returns was the current configuration at some moment between its reads |
| `ConfigStore.Store.SaveLocked` | client/nod-client-core/src/store.rs:127-173 | after a save the main file holds the merge and the backup the main file it replaced, unless there was none or the process recovered; the files after any number of successful operations, all intermediate states, and the new baseline only if all succeeded |
| `ConfigStore.CrashSafe` | client/nod-client-core/src/store.rs:138-166 | after any number of operations a load succeeds with the old configuration before the rename and the merged one from then on; recovery never touches the backup |
| `ConfigStore.SaveBacksUp` | client/nod-client-core/src/store.rs:155-166 | from the copy on the backup is the main file the save replaces; only a crash during the copy leaves neither the old nor the new one |
| `ConfigStore.DamageRecovers` | client/nod-client-core/src/store.rs:83-173 | in any run, if the main file is damaged after a save that copied it and before another does, a load recovers the configuration that was current just before that save |
| `ConfigStore.SavesIff` | client/nod-client-core/src/store.rs:138-144 | a save goes ahead exactly if the main file is readable or the process loaded from the backup |
| `ConfigStore.AlwaysLoadable` | client/nod-client-core/src/store.rs:83-173 | no run of reads, saves, crashes and restarts of any number of processes makes the configuration unreadable, whatever is saved |
| `ConfigStore.LatestEditWins` | client/nod-client-core/src/store.rs:127-173 | in every run each key on disk holds the value of the latest save whose process had changed it |
| `ConfigStore.UneditedKeyKept` | client/nod-client-core/src/store.rs:127-173 | a key that no save edited keeps its first value |
| `ConfigStore.BaselineIsLastSeen` | client/nod-client-core/src/store.rs:105-108 | changed means changed since the process's own last load, acknowledged save or restart |
| `ConfigStore.RecoveredIff` | client/nod-client-core/src/store.rs:83-112 | in every run a process works from the backup exactly if one of its loads since its last restart took it |
| `Decimal.SwiftAgrees` | client/nod-apple/Sources/NodKit/NodAnswerValue.swift:78-79 | the Apple client's expression accepts exactly the strings the server contract accepts |
| `Decimal.RenderScaled` | nod-proto/src/answer.rs:131-154 | an accepted string is the canonical rendering of its millionths, which lie strictly within 10^18 |
| `Decimal.DecimalBijection` | nod-proto/src/answer.rs:131-154 | every whole number of millionths strictly between -10^18 and 10^18, and no other, has exactly one accepted string |
| `Calendar.DateBijection` | nod-proto/src/answer.rs:156-181 | every day from 0001-01-01 to 9999-12-31 of the Gregorian calendar, and nothing else, has exactly one accepted date |
| `Calendar.InstantBijection` | nod-proto/src/answer.rs:183-194 | every minute of those days, and nothing else, has exactly one accepted instant |
| `Answers.ValidFieldIff` | nod-proto/src/answer.rs:72-129 | a definition is accepted exactly with a visible label of up to 64 characters, at most 4096 bytes, a default of its own kind and, for a choice, two to twelve distinct ids of up to 40 letters, digits, dashes and underscores with distinct visible labels of up to 48 |
| `Backoff.DelayBounds` | client/nod-client-core/src/runtime/sync.rs:108-112 | every pause lies between one and thirty seconds for any failure count and jitter |
| `Backoff.RunSyncLoop` | client/nod-client-core/src/runtime/sync.rs:54-106 | the loop's pauses, with the counter never beyond 32 bits |
| `Backoff.PauseTells` | client/nod-client-core/src/runtime/sync.rs:97-112 | the pause after a connection is that of the number of short ones in a row since the last long one: 1, 2, 4, 8, 16 and then 30 seconds, with the jitter |
| `Backoff.BackoffHolds` | client/nod-client-core/src/runtime/sync.rs:54-112 | anywhere in a run, n >= 4 consecutive connections under twenty seconds pause at least 30 n - 90 seconds in total |
| `Backoff.BackoffTight` | client/nod-client-core/src/runtime/sync.rs:108-112 | that bound is met exactly by a fresh run without jitter |
| `Submit.Network.Request` | client/nod-client-core/src/api.rs:287-367 | only reads are repeated, at most three sends, each repeated one answered 502, 503 or 504; the result is what the last reply delivered |
| `Submit.SubmitRequestOption` | client/nod-client-core/src/runtime/workflows.rs:217-287 | what is sent, which copy is signed, what the reducer goes through among the steps of other tasks, and which outcome is returned, on every path; what the selected server answered, or reads after a lost answer, is in the cache at the end |
| `Submit.AtMostOnePost` | client/nod-client-core/src/runtime/workflows.rs:217-287 | a submission posts at most once and sends at most seven times |
| `Submit.PostFollowsRead` | client/nod-client-core/src/runtime/workflows.rs:231-252 | before a post its request was read, with success, still pending and asserting the digest the user saw |
| `Submit.SignsWheneverItCan` | client/nod-client-core/src/runtime/workflows.rs:249-262 | a decision is signed exactly if the identity is complete, the signer prepares the call and the key signs |
| `Submit.PostCarriesReviewedDigest` | client/nod-client-core/src/runtime/workflows.rs:253-268 | a post carries a signature over the digest the user saw, which is the hash of the signed copy |
| `Submit.PostedDecisionVerifies` | client/nod-client-core/src/runtime/workflows.rs:253-268 | a posted decision, stored as posted, passes the offline verifier for the request as created, which reports the digest the user saw |

## Left out

- The server and its request store, HTTP, WebSocket, TLS, the keyring, the Secure Enclave, App Attest, push relays
  and every user interface.
- SHA-256, P-256, base64, UUIDs, RFC 3339 and the Unicode tables behind trimming are parameters or are written out
  only as far as the code looks at them.
- `Digests.PreHashInjective`: does not cover the line snapshot, which joins recipients with commas and writes
  free-form fields unescaped; only its disjointness from the other encoders is proved.
- `Json.TextParses`: the parser reads no white space, floats or surrogate pairs, which the printer never writes.
- The wording of errors and warnings, which only prints the values they carry here.
- Which string order Swift implements; what the visible list needs of it is a hypothesis.
- A host result and the removal message that goes with it are one step for the sync task; opening a request, which
  updates the reducer without a removal message, and the other messages of host commands are not part of this model.
- `Notifications.SyncTask.Refresh`, `Notifications.SyncTask.ApplyEnvelope`: applying and announcing are one step,
  although the source releases the reducer in between (snapshot.rs:36-53, sync.rs:232-242 in
  client/nod-client-core/src/runtime); a host result that falls there is excluded from the class, and what it would
  do to the standing announcements is `Notifications.LateAnnouncementsStandIff`.
- In `CatchUp.dfy` the server's state is every id ever published with its last version. The server's list also leaves
  out requests the user has cleared and those past retention
  (server/nod-server/crates/nod-server/src/db/requests/read.rs:31-61); these count as ids the list leaves out, and
  that they disappear from the client again is not modelled as a change of the server's state.
- Profile lookup and messages to the host during a submission.
- The revision counter is unbounded here and 64 bits wide in the source.
- Fields the reducer copies without using them (user, devices, sound, delivery mode, errors, sync phase, last sync
  time) and its list of servers.
- The selected request as an invariant of whole runs: the host may set it freely, so it appears only in the
  postconditions of reducer steps.
- A read of the backup that meets another process's copy under way counts as a failed read.
- `ConfigStore.Store.SaveLocked`: permissions, the creation of the directory and the lock file, and the clearing of
  credentials that live in the keyring are not modelled; a crash is a crash of the process, not a loss of power.
- `Backoff.RunSyncLoop`: connection contents and phases are left out; durations and jitter are inputs.
- URL normalisation, profile ids, history queries, device management and the other endpoints.
