# TypeFerry, verified

Dafny models of the parts of TypeFerry whose correctness is hard to see in the code, with proofs
of what they promise. Each module follows one component of the system:

- **The Go runtime as a concurrent protocol.** `Runtime` holds the sections that run under the
  server's data lock, as functions on the three maps and as the methods of a class. `RuntimeProtocol`
  interleaves them: threads have program counters, `presenceMu` spans several steps, and a
  subscription is decided before it takes the lock. `Dispatcher` adds one WebSocket connection with
  its `Open` calls, authentication callbacks, timeouts and `Close`. `MethodCache` is the
  single-flight cache of `Server.Call`. `RuntimeHistory`, `DispatcherHistory` and
  `MethodCacheHistory` tell the state of any run from the calls made so far.
- **The EJSON codec.** `EjsonCodec` states what the printer and parser compute on token sequences,
  `EjsonMethods` is the code's own loops over a buffer and a decoder proved equal to it, and
  `EjsonReading`, `EjsonRoundTrip`, `EjsonTheorems` and `EjsonKeys` build up to the round trip,
  canonical text and when two texts are the same. `EjsonGrammar` and `EjsonWire` say which texts are
  accepted and how every kind of value is spelled. `Base64` is the hand-written TypeScript base64 (sections 4 and 5 of RFC 4648).
- **Refresh-token rotation.** `Sessions` is the session table and its manager; `SessionRuns` and
  `SessionTheorems` prove what holds of every run (the rotation pattern of section 4.14.2 of
  RFC 9700), and `SessionHistory` tells every session from the calls made so far.
- **The local document store.** `ValueOrder` is equality and order of values; `Path` and `Sorter`
  the sort keys built on them, which `PathExact` and `SorterExact` tell from the document;
  `Projection`, `ProjectionApply` and `ProjectionExact` the field projections; `ProjectedQuery` and
  `SortedQuery` projections and sorting as parts of a query. `DocumentStore`, `LocalCollection` and
  `CollectionExact` are the collection and its calls; `LiveCollection`, `LiveQuery`,
  `LiveQueryRuns`, `LiveQueryHistory`, `LiveQueryExact` and `LiveQueryWitnesses` its cursors and what
  a listener makes of their events.
- **The two rate limiters.** `TokenBucket` over real-valued time, `SlidingWindow` with its in-place
  pruning.

`Results`, `Text` and `Fields` are shared: optional values, decimal integers and string order,
objects as ordered fields.

Several properties turned out to hold only under a condition. Each is stated as an equivalence, or
with a lemma showing what goes wrong outside it:

- Parsing undoes printing exactly for the values `Faithful` describes. A finite float whose spelling
  looks like an integer comes back as an integer; a repeated key, unsanitized flags or an
  unregistered custom type also break it (`ParseUndoesStringify`, `IntegralFloatComesBackAsInt`).
- A presence tracker knows the connected clients and, besides, whoever it believed present when it
  was attached and who has not connected since: attaching registers clients but removes none. So it
  is right exactly when there are no such strangers (`TrackerMatchesClients`, `AttachExact`); a run
  that ends with one is given (`StaleTracker`).
- Two calls share a cache entry exactly when their parameters differ at most in numbers spelled
  alike; a run in which `1.0` installs and `1` hits is given (`KeysCollideExactly`,
  `HitsAnswerAlikeParameters`, `FloatAndIntegerShareAnEntry`).
- Every up-to-date live listener of every query that still runs is current after a call if and only
  if two things do not happen (`StaysCurrentExactly`): the call is a multi-document update that
  rewrites a match to a different document and then fails on a later one, so that the store is
  written and nobody is notified; or the change is announced but something throws on the way to the
  listener's cursor, a callback or the query of a cursor that observes ahead of it. Selectors compare
  with the order of keys, so a rewriting that only reorders keys can change a result; for queries
  that do not look at that order only changes beyond it count (`StaysCurrentExactlyRespecting`).
  If another listener of the same cursor throws during the report, ours is current exactly if it had
  been handed every event by then (`CutShortExactly`). Runs are given for a failing update, for a
  sort by two fields that throws in a cursor ahead, and for a report cut short
  (`FailedUpdateLeavesListenerBehind`, `ThrowingCursorHidesAnInsert`,
  `CutReportLeavesListenerBehind`). The next mutation the cursor hears of repairs a listener that
  holds what the cursor last saw (`NotificationResyncs`).
- `stop()` keeps the listeners, and the next listener makes the cursor observe again from a new
  result, so the old one is fed again without what happened in between. It is in step again if and
  only if what it held agrees with that result under every identity (`FedAgainExactly`); for all
  queries alike, if and only if the calls in between leave the store as it was
  (`FedAgainForEveryQuery`). A run in which it misses an insert is given
  (`StoppedListenerMissesAnInsert`).
- A listener that attaches after an unannounced change, to a cursor other listeners already keep
  observing, starts from a newer result than the cursor compares with. A listener of all documents
  is current after every next mutation its cursor hears of if and only if the two agree
  (`LateListenerExactly`), which right after a call is if and only if the call was not missed beyond
  the order of keys (`AttachAfterExactly`); a run in which it stays wrong while the cursor is up to
  date is given (`LateListenerMissesTheChange`).
- Sorting throws exactly when two or more documents match and one has no sort key
  (`SortThrowsExactly`), which arrays of different lengths in two sort fields bring about
  (`DifferentLengths`).
- `compareValues` is an order exactly on the values without NaN (`OrderedExactlyWithoutNaN`).
- A projected live query keeps documents apart exactly when the projection keeps `_id`
  (`ProjectedQueryIsProper`).
- In `documentKey`, of the three checks that throw, only the one for parallel arrays can fire
  (`DocumentKey`, `LookupSeparates`).

## Model

| member | source | states |
|---|---|---|
| Runtime.Server.constructor | typeferry-go/runtime/server.go:262-274 | A new server is open, with no clients, rooms or tracker. |
| Runtime.Server.JoinLocked | typeferry-go/runtime/events.go:230-239 | The room gains the client and the client the room; everything else is unchanged. |
| Runtime.Server.LeaveLocked | typeferry-go/runtime/events.go:241-250 | Both maps lose the pair, and no empty set is left behind. |
| Runtime.Server.LeaveAllLocked | typeferry-go/runtime/events.go:252-256 | Leaving room by room, while the set being ranged over shrinks, ends where leaving all rooms at once does. |
| Runtime.Server.AddClient | typeferry-go/runtime/events.go:98-133 | Registers the client under its UUID, empties the rooms of a different client it replaces and hands that one back; does nothing once closed. |
| Runtime.Server.DeleteClient | typeferry-go/runtime/events.go:135-151 | The client leaves every room, and is unregistered only if it is the current client of its UUID. |
| Runtime.Server.Close | typeferry-go/runtime/events.go:194-214 | Marks the server closed, empties all maps, detaches the tracker and returns every client that was connected, each once. |
| Runtime.Server.ClientSnapshot | typeferry-go/runtime/events.go:159-167 | Returns every connected client, each once, and changes nothing. |
| Runtime.Server.SetPresenceTracker | typeferry-go/runtime/events.go:39-48 | Attaches the tracker and returns every client to register with it, each once. |
| Runtime.EnumeratesEach | typeferry-go/runtime/events.go:159-167 | Such a list holds exactly the connected clients, and no two of them have the same ID. |
| Runtime.Server.CommitSubscription | typeferry-go/runtime/events.go:313-325 | A decision taken earlier is granted only if the server is open and the client still the registered one; unsubscribing always leaves. |
| Runtime.JoinKeeps | typeferry-go/runtime/events.go:230-239 | Joining keeps `rooms` and `clientRooms` exact inverses with no empty sets and only registered members, and adds exactly that one membership. |
| Runtime.LeaveRooms | typeferry-go/runtime/events.go:241-250 | After leaving, exactly that one membership is gone and the maps are still inverses. |
| Runtime.LeaveKeeps | typeferry-go/runtime/events.go:241-250 | Leaving keeps the whole invariant of the room maps. |
| Runtime.LeaveAllRooms | typeferry-go/runtime/events.go:252-256 | Exactly the memberships of that client are gone and the maps are still inverses. |
| Runtime.AddKeeps | typeferry-go/runtime/events.go:101-120 | Keeps the invariant; a replaced client is then registered nowhere and in no room. |
| Runtime.AddExactly | typeferry-go/runtime/events.go:101-120 | On an open server exactly this client and those with other UUIDs are registered afterwards, and exactly the memberships of whoever it replaced are gone; on a closed one nothing changes. |
| Runtime.DeleteKeeps | typeferry-go/runtime/events.go:135-146 | Keeps the invariant; exactly that client and its memberships are gone. |
| Runtime.SubscribeKeeps | typeferry-go/runtime/events.go:313-325 | Keeps the invariant; a subscription adds exactly the one membership, if it was allowed and the client is registered with an open server, and an unsubscription removes exactly that one. |
| Runtime.StaleDeleteKeepsReplacement | typeferry-go/runtime/events.go:98-100 | A stale close callback, run after its UUID has been taken over, changes nothing at all. |
| RuntimeProtocol.RoomsOverRuns | typeferry-go/runtime/events.go:98-256 | In every state of every interleaving the room maps are exact inverses without empty sets, every member is the registered client of its ID, and a closed server's maps are empty. |
| RuntimeProtocol.ClosedForever | typeferry-go/runtime/events.go:101-110 | Once closed, all three maps are empty in every later state: no late client and no late subscription comes back. |
| RuntimeProtocol.CommitIsTruthful | typeferry-go/runtime/events.go:288-329 | However the run went since a subscription was decided, a granted one means membership of a registered client on an open server, a refusal that nothing changed, and no other membership of anybody changes. |
| RuntimeHistory.ClosedExactly | typeferry-go/runtime/events.go:194-214 | In every state of every interleaving the server is closed if and only if `Close` has been called. |
| RuntimeHistory.TrackerExactly | typeferry-go/runtime/events.go:39-54 | The attached tracker is the one attached last, unless the server was closed since. |
| RuntimeHistory.ConnectedExactly | typeferry-go/runtime/events.go:101-151 | A client is connected if and only if it was added to an open server and has since neither been deleted nor taken over under its UUID nor retired by `Close`. |
| RuntimeHistory.DecidedExactly | typeferry-go/runtime/events.go:288-312 | What a thread is about to commit is what it decided last. |
| RuntimeHistory.MembershipExactly | typeferry-go/runtime/events.go:230-329 | A client is in a room if and only if an allowed subscription of its to that room was committed while it was connected and it has since neither unsubscribed from that room nor gone; nothing else changes a membership. |
| RuntimeHistory.AnswerExactly | typeferry-go/runtime/events.go:313-328 | A subscription is answered with true if and only if it was allowed when decided and the client is connected when committed. |
| RuntimeHistory.SocketsExactly | typeferry-go/runtime/events.go:101-214 | A socket is closed, or about to be, if and only if its client was turned away by a closed server, replaced under its UUID, or connected when the server closed. |
| RuntimeProtocol.FinalAdd | typeferry-go/runtime/events.go:117-127 | Telling the tracker of the removal before the registration leaves the shared UUID present. |
| RuntimeProtocol.PresenceOverRuns | typeferry-go/runtime/events.go:39-54 | Over every interleaving, what the tracker believes or is about to be told by the lock holder equals the connected clients and the strangers it brought along. |
| RuntimeProtocol.TrackerMatchesClients | typeferry-go/runtime/events.go:101-151 | Whenever `presenceMu` is free the attached tracker knows the keys of `clients` and the strangers it brought along, so exactly the keys if and only if there are none; the tracker detached by `Close` knows only its strangers. |
| RuntimeProtocol.CleanRunsHaveNoStrangers | typeferry-go/runtime/events.go:39-54 | If every tracker, when attached, believes only connected clients present, there never are strangers. |
| RuntimeProtocol.AttachExact | typeferry-go/runtime/events.go:39-54 | Attaching a tracker settles on the connected clients if and only if it believed nobody else present. |
| RuntimeProtocol.StaleTracker | typeferry-go/runtime/events.go:39-54 | A run in which a tracker is detached, misses a departure, is attached again and goes on believing the client present. |
| Dispatcher.ClientIdentity.SetAuthenticated | typeferry-go/runtime/server.go:109-113 | Changes the flag and nothing else. |
| Dispatcher.ClientIdentity.SetContext | typeferry-go/runtime/server.go:93-107 | Replaces the context; the user ID is the string at `user._id`, or empty. |
| Dispatcher.ClientIdentity.AcceptIdentity | typeferry-go/websocket/dispatcher.go:160-171 | Null and false are no identity; otherwise flag, context and user ID agree, and without authentication no context is left. |
| Dispatcher.AcceptConsistent | typeferry-go/websocket/dispatcher.go:160-171 | Every accepted identity leaves the three fields consistent. |
| Dispatcher.NowhereStays | typeferry-go/runtime/events.go:101-151 | No step of any other actor, including a subscription decided earlier, brings a client back that is registered nowhere. |
| Dispatcher.SoundOverRuns | typeferry-go/websocket/dispatcher.go:107-158 | Over every interleaving: `lifecycle` is held by at most one `Open`, none registers while closing, and once `Close` deletes, the client is nowhere and no callback runs. |
| Dispatcher.NoCommitAfterClosing | typeferry-go/websocket/dispatcher.go:147-156 | Once closing is set, no `Open` commits an identity again. |
| Dispatcher.ClosedIsGone | typeferry-go/websocket/dispatcher.go:274-285 | Once `Close` has returned, the client is registered nowhere, in no room, no callback of its is running, and this stays so for the rest of the run. |
| Dispatcher.CommitIsEarned | typeferry-go/websocket/dispatcher.go:131-156 | An identity is committed only by an `Open` that received its callback's success in time and before closing, and what it goes on to accept is exactly that identity. |
| Dispatcher.IdentityIsWhole | typeferry-go/websocket/dispatcher.go:147-171 | Over every interleaving flag, context and user ID agree whenever no `Open` is between its two writes, and an accepting `Open` leaves exactly the identity it committed. |
| DispatcherHistory.UserIdExactly | typeferry-go/runtime/server.go:93-107 | A non-empty user ID is carried if and only if it is the text at `user._id` of the context. |
| DispatcherHistory.AcceptExactly | typeferry-go/websocket/dispatcher.go:160-171 | Anything but null and false is accepted and becomes the context, and the user ID is read from it. |
| DispatcherHistory.OpenSteps | typeferry-go/websocket/dispatcher.go:107-156 | `Open` goes ahead if and only if the connection is not closing, registers the client if and only if the server is open, and commits its result if and only if it is a success received in time and before closing. |
| DispatcherHistory.CommittingFromOwn | typeferry-go/websocket/dispatcher.go:119-156 | Over every run, a result an `Open` is about to commit or accept was sent by the callback that very `Open` started. |
| DispatcherHistory.CarriesExactly | typeferry-go/websocket/dispatcher.go:147-171 | Over every run, context and user ID are those of the identity accepted last, and there is none before the first. |
| Dispatcher.NoDeadlock | typeferry-go/websocket/dispatcher.go:107-158 | In every reachable state, unless nothing is under way, some call that is under way can take its next step, although `Open` holds `lifecycle` while `AddClient` or `RefreshClientPresence` waits for `presenceMu` and `Close` waits for callbacks. |
| MethodCache.Cache.Admit | typeferry-go/runtime/server.go:426-444 | A young entry under the key is found and nothing changes; otherwise a new pending entry replaces it. |
| MethodCache.Cache.Finish | typeferry-go/runtime/server.go:447-453 | Completes that entry and no other. |
| MethodCache.SoundOverRuns | typeferry-go/runtime/server.go:418-458 | Over every interleaving: the map points at each key's latest entry, an entry is pending exactly while its installer runs the handler, and readers hold entries of their own key. |
| MethodCache.NoOrphans | typeferry-go/runtime/server.go:461-472 | A waiter's entry is complete or has a live owner that will complete it. |
| MethodCache.InstallsAreSpaced | typeferry-go/runtime/server.go:427-443 | Two installs under one key are at least MaxAge apart. |
| MethodCache.StepRewrites | typeferry-go/runtime/server.go:447-453 | No step rewrites an entry, except its owner completing it while it is pending. |
| MethodCache.CompletedOnce | typeferry-go/runtime/server.go:447-453 | Over a whole run an entry keeps its key, parameters and owner, and its result once it has one. |
| MethodCache.HitsAnswerAlikeParameters | typeferry-go/runtime/server.go:418-440 | Every hit returns what the handler produced, in the call that installed the entry, for parameters equal but for numbers spelled alike. |
| MethodCache.HitsAnswerTheSameParameters | typeferry-go/runtime/server.go:418-440 | Where the parameters of the hit and of the entry it found parse back from their text, they are the very same. |
| MethodCache.FloatAndIntegerShareAnEntry | typeferry-go/runtime/server.go:418-440 | A run in which a call with the float 1.0 installs an entry and a call with the integer 1 hits it. |
| MethodCache.HitsAreFresh | typeferry-go/runtime/server.go:427-429 | A waiter found its entry younger than MaxAge. |
| MethodCacheHistory.HitExactly | typeferry-go/runtime/server.go:418-444 | Over every interleaving, a call waits for another's answer if and only if an earlier call with parameters equal but for numbers spelled alike installed an entry less than MaxAge before; otherwise it runs the handler. |
| MethodCacheHistory.ResultsAreReturned | typeferry-go/runtime/server.go:446-453 | A result in the cache is what the handler of the call that installed the entry ended in. |
| MethodCacheHistory.HitsAreReturned | typeferry-go/runtime/server.go:418-472 | So every shared answer comes from the handler of an earlier call for parameters alike. |
| EjsonMethods.SanitizeRegexFlags | typeferry-go/ejson/codec.go:273-289 | The loop keeps, of the first fifty characters, the last occurrence of each valid flag, in order. |
| EjsonMethods.HasKeyNames | typeferry-go/ejson/codec.go:248-265 | True exactly when there are as many fields as names and every name is a key. |
| EjsonMethods.PutField | typeferry-go/ejson/codec.go:119-131 | A new key goes last; a repeated key keeps its first position and takes the new value. |
| EjsonMethods.ReadValue | typeferry-go/ejson/codec.go:64-140 | The recursive-descent reader computes `Read` on the tokens left, and leaves the decoder where `Read` says. |
| EjsonMethods.ReadArray | typeferry-go/ejson/codec.go:93-103 | The array loop reads the items up to the closing bracket, or fails as `ReadItems` does. |
| EjsonMethods.ReadObject | typeferry-go/ejson/codec.go:104-136 | The object loop reads the fields up to the closing brace, or fails as `ReadFields` does. |
| EjsonMethods.DecodeValue | typeferry-go/ejson/codec.go:142-182 | Decoding tags bottom-up computes `Decode`. |
| EjsonMethods.DecodeKeyed | typeferry-go/ejson/codec.go:155-178 | An escaped object is decoded one level down without reading it as a tag; any other object is decoded and then read as a tag. |
| EjsonMethods.DecodeTag | typeferry-go/ejson/codec.go:184-246 | The chain of tests on the keys decodes the tag they spell, rejects contents of the wrong kind, and leaves other objects alone. |
| EjsonMethods.TagShape | typeferry-go/ejson/codec.go:267-271 | True exactly when the keys spell one of the six tags. |
| EjsonMethods.ParseTokens | typeferry-go/ejson/codec.go:48-62 | Reads one value, rejects trailing data, decodes. |
| EjsonMethods.WriteValue | typeferry-go/ejson/codec.go:301-384 | Appends to the buffer exactly the text of the lowered value, escaping a tag-shaped object unless told it is escaped. |
| EjsonMethods.WriteTag | typeferry-go/ejson/codec.go:386-388 | Writes the fields as a plain object, never escaped. |
| EjsonMethods.WriteFields | typeferry-go/ejson/codec.go:346-363 | Writes the fields in order, or by key in canonical mode; sorting before lowering gives the same text as after. |
| EjsonMethods.StringifyValue | typeferry-go/ejson/codec.go:293-299 | Computes `Stringify`. |
| EjsonValue.TagOfPermuted | typeferry-go/ejson/codec.go:248-271 | Whether keys spell a tag, and which, does not depend on their order. |
| EjsonReading.ReadPrint | typeferry-go/ejson/codec.go:64-140 | Reading the text of any tree, followed by anything, gives the tree as it resolves (floats re-read, repeated keys collapsed) and leaves the rest untouched. |
| EjsonReading.ParsePrint | typeferry-go/ejson/codec.go:48-62 | So parsing a printed tree is resolving and decoding it, for every tree. |
| EjsonGrammar.ParseExactly | typeferry-go/ejson/codec.go:48-182 | Of all token sequences the parser accepts exactly the texts of JSON documents whose numbers can be read and whose tags can be decoded, and returns what the document means. |
| EjsonGrammar.TrailingDataFails | typeferry-go/ejson/codec.go:56-61 | Anything after a complete document is an error. |
| EjsonGrammar.NumbersRead | typeferry-go/ejson/codec.go:76-91 | A number without a point or an exponent is an integer where it fits in 64 bits; any other is a float as the library reads it, or an error. |
| EjsonGrammar.RepeatedKeys | typeferry-go/ejson/codec.go:119-131 | Of a repeated key the first position and the last value count. |
| EjsonWire.TagOfExactly | typeferry-go/ejson/codec.go:248-271 | An object spells a tag if and only if its keys are one of the six names, in either order where there are two. |
| EjsonWire.ScalarText | typeferry-go/ejson/codec.go:301-325 | The text of null, booleans, integers, finite floats and strings. |
| EjsonWire.TagText | typeferry-go/ejson/codec.go:309-368 | The text of NaN, the infinities, dates and bytes, tag names and codes written out. |
| EjsonWire.PairText | typeferry-go/ejson/codec.go:369-388 | The text of regular expressions and custom values, in both orders of keys. |
| EjsonWire.CompoundText | typeferry-go/ejson/codec.go:326-363 | An array is its items in order, an object its fields in order or sorted by key, wrapped in `$escape` if and only if its keys spell a tag. |
| EjsonWire.SingleTagsRead | typeferry-go/ejson/codec.go:192-231 | What `$date`, `$InfNaN` and `$binary` are read as for any content: integers and floats under `$InfNaN` alike, and errors for content of the wrong kind. |
| EjsonWire.PairTagsRead | typeferry-go/ejson/codec.go:198-243 | What `$regexp` with `$flags` and `$type` with `$value` are read as for any contents, in either order. |
| EjsonWire.UntaggedRead | typeferry-go/ejson/codec.go:184-188 | Any other object is left as it is. |
| EjsonWire.ObjectsRead | typeferry-go/ejson/codec.go:155-178 | An escaped object is taken as it is and anything else under `$escape` is an error; every other object is decoded field by field and then read as a tag. |
| EjsonRoundTrip.SanitizeExact | typeferry-go/ejson/codec.go:273-289 | Sanitizing leaves flags alone if and only if they are valid and distinct, and its result always is. |
| EjsonRoundTrip.SanitizeKeeps | typeferry-go/ejson/codec.go:273-289 | Of the first fifty characters each of g, i, m, u, y is kept once, in the order of their last occurrences. |
| EjsonRoundTrip.ComesBack | typeferry-go/ejson/codec.go:142-246 | Every faithful value is decoded back from its lowered tree, in both modes, tag-shaped objects at any depth included. |
| EjsonTheorems.OnlyFaithful | typeferry-go/ejson/codec.go:142-246 | A value that comes back unchanged is faithful. |
| EjsonTheorems.ParseUndoesStringify | typeferry-go/ejson/codec.go:48-388 | Parsing the text of a value returns that value if and only if the value is faithful. |
| EjsonTheorems.IntegralFloatComesBackAsInt | typeferry-go/ejson/codec.go:317-322 | A float spelled like an integer comes back as an integer. |
| EjsonTheorems.ParseCanonical | typeferry-go/ejson/codec.go:337-372 | Parsing canonical text returns the value with every object's fields sorted. |
| EjsonTheorems.SortedExact | typeferry-go/ejson/codec.go:346-352 | Two values have the same sorted form if and only if they are equal up to field order at every depth. |
| EjsonTheorems.CanonicalComplete | typeferry-go/ejson/codec.go:291-372 | Two faithful values have the same canonical text if and only if they are equal up to field order at every depth. |
| EjsonWire.CanonicalKeysRise | typeferry-go/ejson/codec.go:346-349 | What canonical text parses to has the keys of every object in ascending order, at every depth, and is the value up to that order. |
| Text.LessExactly | typeferry-go/ejson/codec.go:348-348 | A string is less than another if and only if it turns before it: at the first difference it ends or has the smaller character. |
| Text.ParseNatExactly | typeferry-go/ejson/codec.go:78-78 | A string is read as a number if and only if it is made of digits, and then they are the digits of that number, place by place. |
| Text.FormatNatExactly | typeferry-go/ejson/codec.go:308-308 | A number is spelled by its digits, without leading zeros. |
| Text.ParseInt64Exactly | typeferry-go/ejson/codec.go:78-78 | A sign may come first, and the number has to fit in 64 bits. |
| EjsonTheorems.KeysAreInjective | typeferry-go/ejson/codec.go:293-384 | Two faithful values with the same text are equal. |
| EjsonKeys.PrintUnique | typeferry-go/ejson/codec.go:301-384 | No printed tree is a proper beginning of another, and the text determines the tree but for how its numbers are represented. |
| EjsonKeys.KeysCollideExactly | typeferry-go/ejson/codec.go:301-384 | Any two values, faithful or not, have the same text if and only if they are equal at every depth but for numbers spelled alike. |
| EjsonTheorems.DecodedDistinct | typeferry-go/ejson/codec.go:142-182 | An object that comes out of decoding never repeats a key. |
| Base64.AlphabetSymbol | typeferry-ts/src/ejson/base64.ts:8-21 | The arithmetic symbol table is the alphabet, position by position. |
| Base64.EncodeBase64 | typeferry-ts/src/ejson/base64.ts:56-73 | The loop computes `Encode` of all bytes, padding included. |
| Base64.DecodeBase64 | typeferry-ts/src/ejson/base64.ts:79-120 | The loop computes `Decode` of any string, malformed ones included, with every index in range. |
| Base64.EncodedLength | typeferry-ts/src/ejson/base64.ts:56-73 | The text is four times the length over three, rounded up. |
| Base64.EncodedGroup | typeferry-ts/src/ejson/base64.ts:56-73 | The k-th four characters encode the k-th three bytes. |
| Base64.LookupExactly | typeferry-ts/src/ejson/base64.ts:8-21 | Exactly the 64 characters of the alphabet and the two URL-safe ones are read, each as its position. |
| Base64.EncodedChunk | typeferry-ts/src/ejson/base64.ts:56-73 | Each four characters spell in base 64 the number that three bytes spell in base 256; missing bytes count as zero and are written as padding. |
| Base64.DecodeThrowsExactly | typeferry-ts/src/ejson/base64.ts:23-50 | Of all strings decoding throws exactly for those whose length is no multiple of four, that begin with padding, or that have a foreign character among those decoded. |
| Base64.DecodedChunk | typeferry-ts/src/ejson/base64.ts:88-99 | For any other string each whole group spells the same number in both bases, and the length of the result is given. |
| Base64.DecodedEnd | typeferry-ts/src/ejson/base64.ts:101-118 | The bytes of a shorter last group; superfluous padding leaves two zero bytes in place of the group before it. |
| Base64.EncodedPadding | typeferry-ts/src/ejson/base64.ts:23-40 | On encoded text the decoder's lengths are exactly right: padding found, groups counted, output as long as the bytes. |
| Base64.DecodeLayout | typeferry-ts/src/ejson/base64.ts:23-40 | For any string of valid length every read lies before the padding and every write inside the output. |
| Base64.DecodeInvertsEncode | typeferry-ts/src/ejson/base64.ts:56-120 | Decoding the text of any byte sequence returns it. |
| Base64.UrlSafeDecodesAlike | typeferry-ts/src/ejson/base64.ts:8-21 | Swapping in the URL-safe characters does not change what any string decodes to. |
| Sessions.InMemorySessionManager.CreateLocked | typeferry-go/auth/session.go:67-91 | Files one new unrevoked, unreplaced session under its token and returns its pair. |
| Sessions.InMemorySessionManager.CreateSession | typeferry-go/auth/session.go:54-65 | The same for a named user; an empty user is refused and nothing changes. |
| Sessions.InMemorySessionManager.RefreshSession | typeferry-go/auth/session.go:93-118 | Refuses missing, revoked and expired tokens; rotates an unreplaced one; replays the successor within the grace period; revokes the family after it. |
| Sessions.InMemorySessionManager.RevokeFamilyLocked | typeferry-go/auth/session.go:132-147 | Revokes exactly the family's sessions and counts the live ones among them. |
| Sessions.InMemorySessionManager.RevokeAllUserSessions | typeferry-go/auth/session.go:163-174 | Revokes exactly the user's sessions outside the excepted family and counts the live ones. |
| Sessions.InMemorySessionManager.RevokeSession | typeferry-go/auth/session.go:120-130 | Revokes the session with that ID, and says whether there is one. |
| Sessions.InMemorySessionManager.UserSessions | typeferry-go/auth/session.go:149-161 | Lists exactly the user's live, unreplaced, unexpired sessions, each once, each judged by its own reading of the clock. |
| Sessions.InMemorySessionManager.CleanupExpired | typeferry-go/auth/session.go:188-199 | Drops exactly the revoked and expired sessions and counts them. |
| SessionRuns.SoundOverRuns | typeferry-go/auth/session.go:54-199 | In every reachable table each session sits at its place in its family's chain of issued tokens, its link is the next token of the chain, and links lead to later expirations. |
| SessionHistory.RefreshExactly | typeferry-go/auth/session.go:93-118 | A token that is not live is refused and changes nothing; a live unreplaced one always gets a pair of a new session of its family, linked to it; a replaced one gets a pair of its successor, with nothing changed, if and only if it was used at most the grace period ago and the successor is there and unrevoked, and revokes exactly its family if and only if it was used longer ago. |
| SessionHistory.StepTouches | typeferry-go/auth/session.go:93-205 | Every call leaves every session as it was, except that it is dropped, revoked or rotated exactly in the stated cases. |
| SessionHistory.StepIssues | typeferry-go/auth/session.go:54-80 | A call files exactly the session it issues, with its user, family, device and expiration. |
| SessionHistory.PresentExactly | typeferry-go/auth/session.go:54-205 | Over every run, a token has a session if and only if a call issued it and no cleanup has since found it revoked or expired. |
| SessionHistory.RevokedExactly | typeferry-go/auth/session.go:101-174 | Over every run, a session is revoked if and only if some call revoked it: by its ID, its family, its user, or late reuse of a token of its family. |
| SessionHistory.PairsAreTrue | typeferry-go/auth/session.go:82-118 | Over every run, a pair names the user its family was created for and an unrevoked session of that family, filed under the pair's refresh token. |
| SessionHistory.ListsExactly | typeferry-go/auth/session.go:149-161 | A listing shows exactly the user's sessions that are unrevoked, unreplaced and unexpired by their own clock reading. |
| SessionTheorems.OneHeadPerFamily | typeferry-go/auth/session.go:93-118 | At most one session of a family is unreplaced. |
| SessionTheorems.ListingShowsFamiliesOnce | typeferry-go/auth/session.go:149-161 | The list returned for a user, in any reachable state, shows no two sessions of one family and none of another user. |
| SessionTheorems.LinksStayHome | typeferry-go/auth/session.go:107-117 | A replacement link leads to the next token issued in the same family, for the same user. |
| SessionTheorems.LinksAreInjective | typeferry-go/auth/session.go:107-117 | No two sessions are replaced by the same one. |
| SessionTheorems.LinksAreAcyclic | typeferry-go/auth/session.go:107-117 | Following replacement links never comes back. |
| SessionTheorems.RevocationKills | typeferry-go/auth/session.go:100-104 | Revoking a family, and using a live token that was replaced longer ago than the grace period, leave every session of the family revoked and answer with no tokens. |
| SessionTheorems.UserRevocationKills | typeferry-go/auth/session.go:163-174 | Revoking a user's sessions revokes every family of that user but the excepted one. |
| SessionTheorems.DeadForever | typeferry-go/auth/session.go:67-80 | A revoked family stays revoked in every continuation. |
| SessionTheorems.RevocationIsPermanent | typeferry-go/auth/session.go:93-147 | No refresh with any token the family was ever issued succeeds again, cleanup or not. |
| SessionTheorems.FrozenForever | typeferry-go/auth/session.go:120-130 | Revoking only a family's newest session ends its rotation: no token is issued in it again. |
| SessionTheorems.RefreshIsAFunction | typeferry-go/auth/session.go:93-118 | Over a whole run, all successful refreshes of one token return the same successor. |
| SessionTheorems.SuccessorIsKept | typeferry-go/auth/session.go:188-199 | An unexpired replaced session still has its successor in the table unless that one was revoked. |
| ValueOrder.CompareValues | typeferry-ts/src/minimongo/value-semantics.ts:100-149 | The index loops with early return compute `Compare`. |
| ValueOrder.StrictIsIdentity | typeferry-ts/src/minimongo/value-semantics.ts:35-74 | Key-order-sensitive equality holds exactly of identical values. |
| ValueOrder.ZeroIsEqual | typeferry-ts/src/minimongo/value-semantics.ts:100-101 | Two values compare as zero exactly when key-order-sensitive equality holds. |
| ValueOrder.Antisymmetric | typeferry-ts/src/minimongo/value-semantics.ts:100-149 | Swapping the arguments negates the result. |
| ValueOrder.Transitive | typeferry-ts/src/minimongo/value-semantics.ts:100-149 | Below is transitive. |
| ValueOrder.AtMostTransitive | typeferry-ts/src/minimongo/value-semantics.ts:100-149 | Below-or-equal is transitive, with equality only between equal values. |
| ValueOrder.BelowExactly | typeferry-ts/src/minimongo/value-semantics.ts:76-146 | What less means for two numbers, NaN and infinities included, two strings, booleans, dates, byte arrays, arrays and objects, each at its first difference. |
| ValueOrder.KindsExactly | typeferry-ts/src/minimongo/value-semantics.ts:76-106 | Undefined, null, numbers, strings, objects, arrays, bytes, booleans and dates come in that order, and only equal values are neither less nor greater. |
| ValueOrder.OrderedExactlyWithoutNaN | typeferry-ts/src/minimongo/value-semantics.ts:108-108 | A value compares antisymmetrically with all NaN-free values if and only if it is NaN-free itself. |
| ValueOrder.LooseIsArranged | typeferry-ts/src/minimongo/value-semantics.ts:35-74 | Loose equality holds exactly when sorting the keys of every object makes the values identical. |
| ValueOrder.LooseIsAnEquivalence | typeferry-ts/src/minimongo/value-semantics.ts:35-74 | Loose equality is reflexive, symmetric and transitive, and follows from strict equality. |
| Path.CollectBranches | typeferry-ts/src/minimongo/path.ts:33-74 | Pushing element branches as it goes computes `BranchAt`. |
| Path.ExpandArrays | typeferry-ts/src/minimongo/path.ts:84-103 | The loop computes `Expand`. |
| Path.LookupSeparates | typeferry-ts/src/minimongo/path.ts:33-82 | A sort lookup finds either one value outside arrays, or only values at index lists none of which begins another. |
| Path.ExpandSeparates | typeferry-ts/src/minimongo/path.ts:84-103 | Expanding arrays keeps it so. |
| Path.PathTextInjective | typeferry-ts/src/minimongo/sorter.ts:121-121 | The joined text of an index list determines the list. |
| Path.PlainLookup | typeferry-ts/src/minimongo/path.ts:33-74 | Without arrays a lookup is following the keys one by one. |
| PathExact.LookupExactly | typeferry-ts/src/minimongo/path.ts:33-82 | A lookup finds exactly the values that index lists lead to, each under its list: a numeric part picks an element, and elements that are objects are searched for the remaining parts. |
| PathExact.ExpandExactly | typeferry-ts/src/minimongo/path.ts:84-103 | Expanding keeps a value, unless it is an array to be skipped, and adds the elements of every array that may be iterated, each at its position. |
| Sorter.CompareSortKeys | typeferry-ts/src/minimongo/sorter.ts:148-155 | The loop computes the mixed ascending and descending comparison. |
| Sorter.FillValues | typeferry-ts/src/minimongo/sorter.ts:112-125 | Fills the map of one part; it throws only for an array path unknown to an earlier part. |
| Sorter.DocumentKey | typeferry-ts/src/minimongo/sorter.ts:103-146 | Returns the sort key if all parts that run into arrays run into the same positions, and otherwise throws for parallel arrays and nothing else. |
| Sorter.SortKeyExactly | typeferry-ts/src/minimongo/sorter.ts:137-146 | The key is the one candidate no greater than any other under the mixed order, whatever order the candidates come in. |
| SorterExact.FoundExactly | typeferry-ts/src/minimongo/sorter.ts:106-112 | A sort part finds the values its path leads to, arrays replaced by their elements, or undefined if there are none. |
| SorterExact.ParallelExactly | typeferry-ts/src/minimongo/sorter.ts:105-132 | The arrays are parallel if and only if all parts that run into arrays run into them at the same positions. |
| SorterExact.CandidatesExactly | typeferry-ts/src/minimongo/sorter.ts:137-139 | The candidate keys are exactly the values of all parts at one position, where a part without arrays counts everywhere. |
| SorterExact.CompareKeysExactly | typeferry-ts/src/minimongo/sorter.ts:148-155 | A key comes first if and only if at the first part in which they differ it has the smaller value, or the greater one if that part descends. |
| SorterExact.KeyExactly | typeferry-ts/src/minimongo/sorter.ts:103-146 | A document has a sort key if and only if its arrays are parallel, and the key is the one candidate that no other comes before. |
| Sorter.Comparator | typeferry-ts/src/minimongo/sorter.ts:73-97 | Answers exactly when both documents have keys, with the comparison of those keys. |
| Sorter.ComparatorIsAPreorder | typeferry-ts/src/minimongo/sorter.ts:73-97 | The comparator is antisymmetric in sign, transitive, and zero exactly between documents with the same key. |
| Sorter.PlainDocuments | typeferry-ts/src/minimongo/sorter.ts:103-146 | A document without arrays sorts by the values at its paths. |
| Projection.CompileProjection | typeferry-ts/src/minimongo/projection.ts:10-54 | Validation and tree building, path by path, compute `Compile`. |
| Projection.InsertRefusesExactly | typeferry-ts/src/minimongo/projection.ts:27-50 | A path is refused exactly when the tree holds a path that it begins or that begins it. |
| Projection.InsertAdds | typeferry-ts/src/minimongo/projection.ts:27-50 | An accepted path adds itself to the tree's paths and nothing else. |
| Projection.CompileExactly | typeferry-ts/src/minimongo/projection.ts:90-108 | Compiling succeeds exactly when all settings are supported, the paths that count agree on their rule and none is a segment-prefix of another. |
| ProjectionApply.RejectsOverlapsExactly | typeferry-ts/src/minimongo/projection.ts:33-39 | A one-sided set of paths other than `_id` is rejected exactly when one is a segment-prefix of another. |
| ProjectionApply.ApplyRuleTree | typeferry-ts/src/minimongo/projection.ts:56-87 | Filling and pruning the result rule by rule computes `Apply`, arrays included. |
| ProjectionApply.ProjectId | typeferry-ts/src/minimongo/projection.ts:107-116 | The result has the document's `_id` unless the projection switches it off, and then has none. |
| ProjectionExact.SplitExactly | typeferry-ts/src/minimongo/projection.ts:27-27 | The parts of a path hold no dot, and joined with dots they are the path. |
| ProjectionExact.CompilesExactly | typeferry-ts/src/minimongo/projection.ts:10-105 | Told from the settings: a projection compiles if and only if all are supported and no two that count disagree or overlap; it includes if and only if some setting is on, and keeps `_id` if and only if that is not switched off. |
| ProjectionExact.ProjectLeaves | typeferry-ts/src/minimongo/projection.ts:56-120 | Of any document, arrays, dates and bytes included, exactly these leaves outside `_id` are left, unchanged and in place: those covered by a path when including, those neither covered nor at an inner point of a path when excluding, and at an inner point null and undefined array items, and when excluding whatever is neither date nor bytes under a key. |
| ProjectionExact.ProjectionsSplit | typeferry-ts/src/minimongo/projection.ts:56-120 | Including and excluding the same paths split the leaves outside `_id` exactly between them, each unchanged, except array items, dates and bytes at an inner point of a path. |
| ProjectedQuery.ProjectionKeepsIdentity | typeferry-ts/src/minimongo/projection.ts:107-116 | A projection keeps a document's identity, or makes all identities the same if it switches `_id` off. |
| ProjectedQuery.ProjectedQueryIsProper | typeferry-ts/src/minimongo/cursor.ts:240-246 | A query with a projection meets what live queries assume if and only if the projection keeps `_id`. |
| SortedQuery.SortThrowsExactly | typeferry-ts/src/minimongo/sorter.ts:73-97 | Sorting throws if and only if there are two or more documents and one of them has no sort key. |
| SortedQuery.SortAscends | typeferry-ts/src/minimongo/sorter.ts:73-97 | What it returns otherwise ascends under the comparator, on documents without NaN. |
| SortedQuery.SortIsStable | typeferry-ts/src/minimongo/cursor.ts:235-235 | Documents with the same key keep their order. |
| SortedQuery.SortPermutes | typeferry-ts/src/minimongo/cursor.ts:224-238 | It holds the same documents, each as often as before. |
| SortedQuery.SortedQueryIsProper | typeferry-ts/src/minimongo/cursor.ts:224-238 | A query that sorts by fields meets what live queries assume of one, if its output keeps identities. |
| SortedQuery.SortedQueryRunsExactly | typeferry-ts/src/minimongo/cursor.ts:224-238 | It runs on a store if and only if fewer than two documents match or every match has a sort key. |
| SortedQuery.DifferentLengths | typeferry-ts/src/minimongo/sorter.ts:103-155 | A document with arrays of different lengths in two sort fields has no sort key. |
| DocumentStore.MemoryDocumentStore.Set | typeferry-ts/src/minimongo/document-store.ts:41-46 | Sets in both maps, which keep the same keys in the same order; a present document keeps its place. |
| DocumentStore.MemoryDocumentStore.Delete | typeferry-ts/src/minimongo/document-store.ts:48-54 | Deletes from both maps and says whether the document was there. |
| DocumentStore.MemoryDocumentStore.Clear | typeferry-ts/src/minimongo/document-store.ts:56-59 | Empties both maps. |
| DocumentStore.MemoryDocumentStore.Entries | typeferry-ts/src/minimongo/document-store.ts:61-66 | Yields every document in insertion order: none is skipped for a missing identity. |
| LocalCollection.PerformKeepsStored | typeferry-ts/src/minimongo/local-collection.ts:104-216 | Every mutation, failed or not, keeps each document filed once, under its own identity. |
| CollectionExact.InsertExactly | typeferry-ts/src/minimongo/local-collection.ts:104-216 | An insert throws if and only if a name is bad, the identity is not 24 lowercase hexadecimal digits or it is taken, and then changes nothing; otherwise the document is filed last, with its identity supplied if it was missing, and observers are notified. |
| CollectionExact.RemoveExactly | typeferry-ts/src/minimongo/local-collection.ts:118-126 | A removal takes away exactly the matching documents, keeps the order of the rest and always notifies. |
| CollectionExact.RewrittenExactly | typeferry-ts/src/minimongo/local-collection.ts:132-155 | An update rewrites in place exactly the matches it gets to, counts them, and throws if and only if it gets to one on which the modifier fails. |
| CollectionExact.UpdateExactly | typeferry-ts/src/minimongo/local-collection.ts:157-160 | Observers hear of an update if and only if it rewrote something and did not throw. |
| CollectionExact.UpsertExactly | typeferry-ts/src/minimongo/local-collection.ts:173-193 | With a match an upsert is the update; without one it fails if there is nothing to create, and otherwise inserts that document, under the given identity if its own counts as false. |
| LocalCollection.OnlyFailedMultiUpdatesAreSilent | typeferry-ts/src/minimongo/local-collection.ts:132-163 | The store changes without notification only through a multi-document update or upsert that throws. |
| LocalCollection.RewrittenMidway | typeferry-ts/src/minimongo/local-collection.ts:141-155 | A multi-document update whose modifier first fails on the k-th match throws, and has by then changed the store if and only if some match before it is rewritten to a different document. |
| LocalCollection.SilentExactly | typeferry-ts/src/minimongo/local-collection.ts:132-163 | A call changes the store without notification if and only if it is a multi-document update that rewrites a match to a different document and then fails on a later one. |
| LocalCollection.ResultRespects | typeferry-ts/src/minimongo/cursor.ts:224-238 | A query that does not look at the order of keys gives equal results on stores that are equal up to that order. |
| LocalCollection.ResultRows | typeferry-ts/src/minimongo/cursor.ts:224-238 | A query result holds each identity once. |
| CollectionExact.ResultExactly | typeferry-ts/src/minimongo/cursor.ts:224-246 | The i-th row is what the query shows of the i-th sorted match after the skipped ones, and there are as many rows as are left, up to the limit. |
| CollectionExact.MatchingJoins | typeferry-ts/src/minimongo/cursor.ts:226-233 | Matching goes document by document, in order. |
| LiveCollection.Cursor.constructor | typeferry-ts/src/minimongo/cursor.ts:62-80 | A new cursor observes nothing and has emitted nothing. |
| LiveCollection.Cursor.Fetch | typeferry-ts/src/minimongo/cursor.ts:224-238 | Filters, sorts, pages and projects the documents, or throws exactly when the matcher, the sort or the output of the query does. |
| LiveCollection.Cursor.HandleMutation | typeferry-ts/src/minimongo/cursor.ts:187-222 | Emits exactly the report of the difference between the last result and the new one, and remembers the new one; if the query throws, nothing is emitted and the last result is kept. |
| LiveCollection.Cursor.Stop | typeferry-ts/src/minimongo/cursor.ts:168-172 | Stops observing and forgets the last result; listeners stay counted. |
| LiveCollection.Cursor.OnListenerAdded | typeferry-ts/src/minimongo/cursor.ts:174-180 | A listener of a cursor that does not observe takes a result and starts the observation, unless the query throws; on one that does it changes neither. |
| LiveCollection.Cursor.OnListenerRemoved | typeferry-ts/src/minimongo/cursor.ts:182-185 | The last listener to go stops the cursor, which leaves the collection's observers; the count never falls below zero. |
| LiveCollection.ProcessIsRewritten | typeferry-ts/src/minimongo/local-collection.ts:137-155 | Writing the matches back one by one is rewriting the store in place up to the first failure, or the first match unless multi. |
| LiveCollection.DropAllIsWithout | typeferry-ts/src/minimongo/local-collection.ts:118-126 | Deleting the matches one by one leaves exactly the documents that do not match, in order. |
| LiveCollection.Collection.NotifyObservers | typeferry-ts/src/minimongo/local-collection.ts:225-227 | The observing cursors handle the mutation in order, each once and against the same documents, up to the first whose query throws; the rest are not told and the call throws. |
| LiveCollection.Collection.Insert | typeferry-ts/src/minimongo/local-collection.ts:104-112 | Stores the document, notifies and returns its identity, or throws with nothing changed; if a cursor's query throws, the document stays stored. |
| LiveCollection.Collection.PrepareInsert | typeferry-ts/src/minimongo/local-collection.ts:203-216 | Supplies a missing identity, and refuses bad names, bad identities and duplicates before storing. |
| LiveCollection.Collection.Remove | typeferry-ts/src/minimongo/local-collection.ts:118-126 | Removes exactly the matching documents, counts them and always notifies; throws only if a cursor's query does. |
| LiveCollection.Collection.Update | typeferry-ts/src/minimongo/local-collection.ts:132-163 | Rewrites the matching documents and notifies if there were any; on a failing modifier the documents already written stay written and nobody is notified, on a throwing cursor only those after it are not. |
| LiveCollection.Collection.Upsert | typeferry-ts/src/minimongo/local-collection.ts:173-193 | Updates if anything matches and returns how many, otherwise inserts the created document and returns one and its identity, notifying once. |
| LiveQuery.ReportAppliesExactly | typeferry-ts/src/minimongo/cursor.ts:187-222 | Whatever a listener holds, the events make it a mirror of the new result if and only if it was already right under every identity where the cursor noticed no difference. |
| LiveQuery.ReportApplies | typeferry-ts/src/minimongo/cursor.ts:187-222 | So a mirror of the last result, after the events, mirrors the new one: same identities, equal documents. |
| LiveQuery.ChangeFiresExactly | typeferry-ts/src/minimongo/cursor.ts:187-222 | `change` fires exactly when the result sequence differs up to equality, and when it does not no event fires at all. |
| LiveQuery.ReportExactly | typeferry-ts/src/minimongo/cursor.ts:187-222 | Each event is reported if and only if it is right, positions and earlier versions included: removed and added documents with their place in the old and new result, changed ones with both, and `change` with the new result; removals first, then arrivals and changes, each by place, then `change`. |
| LiveQuery.CutExactly | typeferry-ts/src/minimongo/cursor.ts:187-222 | A mirror of the last result that is handed only the first events mirrors the new result if and only if those were all of them: no event is idle. |
| LiveQueryRuns.SoundOverRuns | typeferry-ts/src/minimongo/cursor.ts:168-222 | Over every run of mutations, listeners, stops and other cursors, with callbacks throwing anywhere, documents are filed under valid identities of their own and what the cursor remembers holds each identity once. |
| LiveQueryHistory.ObservesExactly | typeferry-ts/src/minimongo/cursor.ts:168-185 | A cursor observes if and only if a listener has made it start, with a query that ran, and it has neither been stopped nor lost its last listener since. |
| LiveQueryHistory.AheadExactly | typeferry-ts/src/minimongo/local-collection.ts:225-227 | It is told after exactly those cursors that observed when it started and have not left since, in their order. |
| LiveQueryHistory.ListensExactly | typeferry-ts/src/minimongo/cursor.ts:168-185 | Our listener is registered if and only if it attached, to a query that ran, and has not detached since: no stop takes it away. |
| LiveQueryRuns.StepKeepsInStep | typeferry-ts/src/minimongo/cursor.ts:187-222 | A listener that holds what the cursor last saw goes on doing so, whatever happens, for as long as the cursor observes and no report to it is cut short. |
| LiveQueryRuns.InStepCurrentExactly | typeferry-ts/src/minimongo/cursor.ts:187-238 | Such a listener holds the result of re-running the query if and only if the query runs and the cursor's last result agrees with it under every identity. |
| LiveQueryRuns.NotificationResyncs | typeferry-ts/src/minimongo/cursor.ts:187-222 | The next mutation the cursor hears of brings such a listener up to date. |
| LiveQueryRuns.ViewIsCurrent | typeferry-ts/src/minimongo/cursor.ts:168-238 | After any run a listener that does not hold the result of re-running the query is explained: a report to it was cut short since it attached; or now, when it attached or when its cursor observed again after a stop, the store had changed without the cursor hearing of it or of anything since, or the cursor had been stopped and not observed since. |
| LiveQueryExact.MissedExactly | typeferry-ts/src/minimongo/local-collection.ts:104-227 | An observing cursor misses a change if and only if the call breaks midway, is interrupted on the way to it, makes its own query throw, or its report is cut short. |
| LiveQueryExact.NextCurrentExactly | typeferry-ts/src/minimongo/cursor.ts:187-222 | One up-to-date listener is current after one call if and only if the query then runs and either the cursor hears of the call or the result stays the same under every identity. |
| LiveQueryExact.CutShortExactly | typeferry-ts/src/minimongo/cursor.ts:187-222 | If a listener of the same cursor throws during the report, an up-to-date one is current if and only if it had been handed every event by then. |
| LiveQueryExact.StaysCurrentExactly | typeferry-ts/src/minimongo/local-collection.ts:132-227 | For any store, cursors ahead and call, every up-to-date listener of every query that still runs is current afterwards if and only if the call neither rewrites a match to a different document and then fails on a later one, nor announces a change and is interrupted, by a callback or by the query of a cursor ahead. |
| LiveQueryExact.StaysCurrentExactlyRespecting | typeferry-ts/src/minimongo/local-collection.ts:132-227 | The same for queries that do not look at the order of keys, where the change must go beyond that order. |
| LiveQueryExact.StoresDiffer | typeferry-ts/src/minimongo/cursor.ts:224-238 | Two different stores are told apart by the listener of some query that runs on both. |
| LiveQueryExact.FedAgainExactly | typeferry-ts/src/minimongo/cursor.ts:168-180 | A listener kept through a stop is, once the cursor observes again, in step if and only if what it held agrees with the result taken then under every identity; it keeps holding what it held. |
| LiveQueryExact.FedAgainForEveryQuery | typeferry-ts/src/minimongo/cursor.ts:168-180 | Told from the calls between the stop and the new observation: this holds of every listener of every query if and only if together they leave the store as it was. |
| LiveQueryExact.LateListenerNext | typeferry-ts/src/minimongo/cursor.ts:174-222 | Whenever it attached, a listener is current after a mutation its cursor hears of if and only if it was right wherever the cursor notices no difference. |
| LiveQueryExact.LateListenerExactly | typeferry-ts/src/minimongo/cursor.ts:174-222 | Where the queries of the cursors ahead never throw, a listener of all documents that has just attached is current after every next mutation its cursor hears of if and only if what it fetched agrees with what the cursor remembers. |
| LiveQueryExact.AttachAfterExactly | typeferry-ts/src/minimongo/cursor.ts:174-180 | A listener of all documents that attaches to an up-to-date cursor right after a call fetches what the cursor remembers if and only if the call neither broke midway nor was interrupted with a change beyond the order of keys. |
| LiveQueryWitnesses.FailedUpdateLeavesListenerBehind | typeferry-ts/src/minimongo/local-collection.ts:141-155 | A run: two inserts, a listener, and an update that fails on the second document leave the listener with the old first document. |
| LiveQueryWitnesses.LateListenerMissesTheChange | typeferry-ts/src/minimongo/cursor.ts:174-180 | A run in which a listener attaches after such an update, the document is put back, and the listener keeps a document that is no longer stored while its cursor is up to date. |
| LiveQueryWitnesses.StoppedListenerMissesAnInsert | typeferry-ts/src/minimongo/cursor.ts:167-180 | A run: a listener, a stop, an insert, a second listener and another insert leave the first listener without the document in between while its cursor is up to date. |
| LiveQueryWitnesses.ThrowingCursorHidesAnInsert | typeferry-ts/src/minimongo/local-collection.ts:225-227 | A run: a cursor that sorts by two fields observes ahead of ours, a document with arrays of different lengths there is inserted, and our listener never hears of it although its own query runs and nothing broke midway. |
| LiveQueryWitnesses.CutReportLeavesListenerBehind | typeferry-ts/src/minimongo/cursor.ts:187-222 | A run in which another listener throws on the first event of an insert and ours is left without the document. |
| TokenBucket.RateLimiter.constructor | typeferry-go/websocket/dispatcher.go:75-79 | The bucket starts full. |
| TokenBucket.RateLimiter.Take | typeferry-go/websocket/dispatcher.go:59-73 | Refills for the time passed up to the capacity, admits and takes one token if there is one; the level stays between zero and capacity. |
| TokenBucket.RunValid | typeferry-go/websocket/dispatcher.go:51-73 | Over every run the level stays between zero and capacity. |
| TokenBucket.AdmissionsAreBounded | typeferry-go/websocket/dispatcher.go:59-73 | Between any two takes at s and t at most capacity times (1 + (t - s) / interval) are admitted. |
| TokenBucket.RefusedExactly | typeferry-go/websocket/dispatcher.go:59-73 | A take is refused if and only if admitting it would make the takes admitted since some earlier one more than capacity times (1 + elapsed / interval). |
| SlidingWindow.Limiter.constructor | typeferry-go/httptransport/http.go:72-91 | Missing or non-positive limits take the defaults, so the limit is at least one. |
| SlidingWindow.Prune | typeferry-go/httptransport/http.go:47-53 | Filtering into a prefix of the array being read keeps exactly the recent times, in order. |
| SlidingWindow.Append | typeferry-go/httptransport/http.go:58-58 | Appends in place or into a larger array, keeping what was there. |
| SlidingWindow.Renew | typeferry-go/httptransport/http.go:47-60 | One list is pruned and, if there is room, extended, in its own array or a new one, and the verdict is that of the list as it was. |
| SlidingWindow.Limiter.Consume | typeferry-go/httptransport/http.go:43-61 | Answers and stores as the pruned list says; no other key's list changes although all lists live in reused arrays. |
| SlidingWindow.PruningIsInvisible | typeferry-go/httptransport/http.go:47-53 | The pruned list answers every later request as the full history of admissions would. |
| SlidingWindow.EveryWindowIsBounded | typeferry-go/httptransport/http.go:43-61 | Every window of the configured length, wherever it starts, holds at most max admissions of a key. |
| SlidingWindow.RefusedExactly | typeferry-go/httptransport/http.go:54-57 | A request is refused if and only if the window ending with it already holds max admissions. |
| SlidingWindow.WaitIsExact | typeferry-go/httptransport/http.go:54-57 | The wait announced with a refusal is exact: whatever is requested meanwhile, requests for the key are refused until it is over and admitted once it is. |
| SlidingWindow.AllowanceIsExact | typeferry-go/httptransport/http.go:58-60 | The allowance announced with an admission is exact: of any number of requests at that moment, this one and so many more are admitted and no other; and nothing admitted so far counts any longer once the announced wait is over, and something does before. |
| SlidingWindow.KeysAreIndependent | typeferry-go/httptransport/http.go:43-61 | What is stored and admitted for a key depends only on the requests for that key. |

## Left out

- The spelling and reading of finite floats: the Go library's two conversions are parameters of the codec, and the round trip says which floats survive in terms of them.
- JSON at the character level: text is the token sequence of the library's decoder, so string escaping, separators, whitespace and UTF-8 are not modelled, and strings are sequences of characters without surrogate pairs.
- The spelling a number remembers from its source text (`numberText`): it takes no part in printing.
- Go's strict rejection of malformed base64 inside `$binary`: the codec model decodes with the TypeScript decoder; the two agree on all text that encoding produces.
- Canonical printing of a constructed object with a repeated key: Go's sort does not promise an order there, the model's sort is stable.
- A custom value without an inner value, which no constructor produces.
- Bit shifts and masks in base64 are written as division and remainder.
- How a subscription is authorized, and the splitting of a request into channels and event names: the decision is arbitrary, and each name is one decision and one commit.
- Acquiring `mu` and running the section under it are one step; `presenceMu` and `lifecycle` are modelled as held across steps.
- Login and logout over RPC, which change the same identity fields outside `lifecycle`, in two separate steps each.
- What a presence refresh tells the tracker, which changes nobody's presence; event delivery and publication; disconnecting a user's sockets.
- Sessions.InMemorySessionManager.RefreshSession: assumes the random token it is given is new to the table, and signing never fails.
- Sessions.InMemorySessionManager.RevokeSession: assumes session IDs are unique, which SoundOverRuns proves of every reachable table.
- Device records, JWT, HMAC, OAuth and cookies.
- Middleware, validation and listeners around a cached call; the uncached path.
- RegExp values, invalid dates, functions, symbols and big integers in documents, custom `equals` and `clone` methods, and collation.
- Properties inherited from `Object.prototype`, which a field path such as `constructor` would reach, and JavaScript's rule that integer-like keys come first.
- Splitting a sort path at its dots: sort paths are given as their parts. Numeric parts are exact integers.
- Sorter.DocumentKey: the two messages for parallel arrays are one error.
- Sorting by a comparison function or by distance, and geo queries.
- The rule tree of a projection is a value: the moving node that grows it in place is a recursive insertion, and aliasing inside it is not modelled.
- The order of the keys in a projected document.
- Matchers, modifiers, sorting and transforms of a query are parameters: any that may fail, keep the identity and permute. `SortedQuery` and `ProjectedQuery` fill in sorting by fields and projections.
- A mutation whose own selector throws: it does so before anything is written.
- Listeners that mutate the collection or come and go while they are being notified, and counting listeners through `onAny`.
- LiveCollection.Cursor.HandleMutation: records the events it emits, so a listener that throws is no outcome of the method; in runs it is a step's fate.
- The collection's own insert, update and remove events.
- Integer overflow of times and counters, and rounding in the token bucket: times are unbounded integers or reals.
- The other language ports, the transports, Redis and Mongo drivers, native and browser tooling, and the template application.
