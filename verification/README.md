# Photo gallery: a verified model

The photo gallery is a set of services (gallery, upload, notification), a gateway and a browser
client. This project models the parts of them that keep state while others act at the same time,
and proves what holds over whole runs and over all interleavings. `dafny verify dfyconfig.toml`
checks all of it.

Where the program updates objects in place, the model has a class with the same fields and
branches, and each method is tied to a function of the old state. Where the claim is about many
callers, replicas or sessions at once, the model has a transition system whose events are the
program's atomic steps (its critical sections, its single reads and writes of a store, its single
sends), and the theorems quantify over every legal sequence of events.

## Parts

- **Circuit breaker** (`CircuitBreaker.dfy`, `BreakerRuns.dfy`). A call takes the lock twice and
  runs in between without it, so calls overlap freely. The state turns out to be a function of the
  observed completions and admissions; a failing stretch admits calls only `resetTimeout` apart
  whatever their durations; and if calls are cut off in less than `resetTimeout`, HALF-OPEN means
  that exactly one call is in flight and it is the probe. Without that bound two probes can run at
  once: the exact step at which a second one starts is given. So are the exact steps that depart
  from the transitions the breaker documents, with a run that reaches each kind.
- **Connection registry** (`Relation.dfy`, `Registry.dfy`, `Sessions.dfy`). Three maps share
  mutable client objects and agree at all times with one flat relation from connections to users
  and galleries; every method has its plain effect on that relation.
- **Replicated fan-out** (`Consumer.dfy`, `Broadcast.dfy`, `Fanout.dfy`). The deliveries of a queue
  are shared out among replicas with caches of their own, which append notifications to one
  broadcast log; every replica applies the log to its own registry, with sessions opening,
  subscribing and closing at any point in between. The steps are the very functions that the
  consumer's and the registry's methods are proved against. Runs that differ in which replica
  handles each delivery send the same; the divided registry behaves as one, entries go to each
  connection in log order and at most once, a connection goes when its session closes or a send to
  it is refused and at no other time, and it never comes back. From end to end: each publishable
  delivery becomes one log entry that says what its event said, and reaches the connections
  registered for the event's gallery.
- **Gallery commands and cached names** (`Galleries.dfy`). Commands are a read and a later write of
  a whole row. Over every interleaving names and moderators stay as given, nothing closed opens
  again, and every cached name is the one given at creation. A gallery is deleted or closed only
  at its own moderator's request, and nobody is a member who did not ask while it was open. That a
  member can be added after a close is shown, together with exactly when a pending join does so.
- **Keyset walks** (`Paging.dfy`, `Memberships.dfy`, `GalleryLists.dfy`, `GalleryEnds.dfy`,
  `GalleryMoves.dfy`). The walk over a user's memberships ends and is complete under arbitrary
  interference; the browser's two lists, fed by two such walks, end up splitting all galleries
  between them. When loads and requests race, the
  lists are right all along if and only if every answer arrives where its list stands; a run in
  which one does not is given, and so is exactly when the lists are complete at the end of a run.
  Where a gallery is after any sequence of joins, leaves, deletions, loads and answers is given by
  the last action that moved it.
- **Offset walks** (`Uploads.dfy`). Over an in-memory repository that lists the most recent first,
  a walk misses nothing that was there at its start, and returns each photo once if and only if
  none was saved between its first page and its last; a walk that shows one twice is given. The
  walks go by the page tokens themselves, and through the operation as a client calls it.
- **Upload** (`UploadService.dfy`). The gateway's chunking and the server's assembly undo each
  other, the server accepts exactly the well-formed streams, and the effects of an upload agree
  with each other or do not happen at all; a new photo then comes first in its gallery's listing
  and no other listing changes.
- **Event stream** (`EventText.dfy`, `NotificationStream.dfy`). The browser's incremental decoder
  equals the one-shot reading of the text (the event-stream format of section 9.2.5 of the WHATWG
  HTML Standard as the client reads it), undoes the gateway's encoding, and feeds a store that
  holds the newest thirty.

## Assumptions

- Identifiers are an ordered finite type of 128 bits with a nil value; parsing and printing them
  are inverse. Identifiers drawn at random are fresh and never nil; they enter as parameters.
- The broadcast channel is lossless and ordered, and every replica reads it from the start. A
  publication that returns an error is not on the channel.
- A critical section, one query of the store and one write of a row are atomic.
- The clock does not run backwards.
- What other systems answer (the gallery service, the object store, the broker) is a parameter, so
  every theorem holds for all their answers.

## Where code and comments disagree

The model follows the code in each case.

- The breaker's comment lists four transitions. A call admitted while CLOSED that succeeds after
  the trip also takes OPEN straight to CLOSED, and a late failure takes HALF-OPEN to OPEN under a
  running probe: `DocumentedIff` says exactly when a step departs from the list and
  `DeparturesHappen` reaches both departures.
- `ListGalleries` is documented to return open galleries; its query has no filter on the status.
  `OnlyOpenListedIff` says exactly which requests happen to show open ones only, and
  `ListShowsAClosedGallery` gives one that does not.
- The broadcast envelope is documented with membership changes; `apply` handles only
  notifications and ignores other kinds. The consumer, likewise, ignores membership events.
- `uploadPhoto` means to refuse a malformed gallery identifier; the parse error is discarded and
  it goes on with whatever the parse left behind (`MalformedGalleryIsAccepted`).
- The doc comment of `UploadPhoto` puts the publishing of its event behind the breaker; only the
  membership check is.

## Model

| member | source | states |
|---|---|---|
| Breaker.CircuitBreaker.constructor | internal/upload/circuitbreaker.go:56-62 | a new breaker is CLOSED with no failures |
| Breaker.CircuitBreaker.BeginCall | internal/upload/circuitbreaker.go:68-90 | the first critical section: admission and its effect on the state |
| Breaker.CircuitBreaker.EndCall | internal/upload/circuitbreaker.go:95-116 | the second critical section: how a completion is recorded |
| Breaker.CircuitBreaker.Call | internal/upload/circuitbreaker.go:67-117 | a whole call, with any critical sections of other calls while its function runs: rejected with the state untouched, or admitted and recorded with its own outcome |
| BreakerRuns.HistoryDeterminesState | internal/upload/circuitbreaker.go:70-116 | over every run of concurrent callers: the failure count is the trailing run of failed completions, the state is CLOSED exactly while that run is below the threshold, HALF-OPEN exactly when a call was admitted since the last completion, and `probing` holds exactly in HALF-OPEN |
| BreakerRuns.CallIsARun | internal/upload/circuitbreaker.go:67-117 | a whole call with other callers' critical sections in between is a run, so the run theorems speak of `Call`: its contract gives the very state the run ends in |
| BreakerRuns.AdmissionRule | internal/upload/circuitbreaker.go:70-88 | a call is let through if and only if the run of failures is below the threshold, or the timeout has elapsed and nothing was admitted since the last completion; the re-arming branch of HALF-OPEN is never taken |
| BreakerRuns.HalfOpenAdmitsNobodyElse | internal/upload/circuitbreaker.go:82-87 | a HALF-OPEN episode admits nobody after the call that started it |
| BreakerRuns.FailingStretchLoad | internal/upload/circuitbreaker.go:70-109 | from a trip until the next success, admissions are at least `resetTimeout` apart and their number times `resetTimeout` is at most the time passed, whatever the durations of the calls |
| BreakerRuns.PromptCallsMakeProbesExclusive | internal/upload/circuitbreaker.go:67-117 | if no call runs longer than a limit below `resetTimeout`, then in every reachable state HALF-OPEN means exactly one call is in flight and it is the probe, and in any other state no probe is in flight |
| BreakerRuns.SlowCallsAllowTwoProbes | internal/upload/circuitbreaker.go:95-106 | without the limit there is a run with two probes in flight |
| BreakerRuns.SecondProbeIff | internal/upload/circuitbreaker.go:70-88 | a second probe starts if and only if a call arrives at an OPEN breaker whose timeout has elapsed while a probe is still running |
| BreakerRuns.DocumentedIff | internal/upload/circuitbreaker.go:36-42 | a step is one of the documented transitions, or none, if and only if it is not a success at an OPEN breaker nor the end of a non-probe call in HALF-OPEN |
| BreakerRuns.DeparturesHappen | internal/upload/circuitbreaker.go:98-115 | runs of concurrent calls reach both departures: a late success closes an OPEN breaker, and a late failure ends a HALF-OPEN episode whose probe is running |
| UploadService.GalleryProbesAreExclusive | internal/upload/api/grpc.go:28-30 | the service's constants (two seconds against ten) make probes exclusive |
| Relation.JoinThenLeave | internal/notification/registry.go:102-165 | a user's join adds exactly their connections to a gallery's subscribers and a leave removes exactly these; the two undo each other if and only if none was subscribed before |
| Index.InnerMap | internal/notification/registry.go:30-40 | an inner map exists if and only if some connection has its key, and holds exactly those connections, as the same objects |
| Registry.Registry.constructor | internal/notification/registry.go:42-48 | a new registry is valid and empty |
| Registry.Registry.CreateClient | internal/notification/registry.go:52-74 | adds one connection of the user with no galleries and keeps the three maps in agreement with the relation |
| Registry.Registry.Subscribe | internal/notification/registry.go:79-100 | adds the gallery to an existing connection, and does nothing for an unknown one |
| Registry.Registry.AddGalleryForClient | internal/notification/registry.go:112-131 | registers all of the user's connections for the gallery and no others |
| Registry.Registry.Unsubscribe | internal/notification/registry.go:135-165 | takes the gallery off all of the user's connections and no others |
| Registry.Registry.RemoveClient | internal/notification/registry.go:170-208 | removes exactly one connection from all three maps, leaving no empty inner map; harmless for an unknown one |
| Registry.Registry.Snapshot | internal/notification/registry.go:212-233 | the clients of a notification are exactly the gallery's subscribers, each once |
| Registry.Registry.Deliver | internal/notification/registry.go:236-247 | one send of a notification, in whatever state other steps have left the registry: the stream is handed the message once, and the connection is removed if and only if it refused, harmlessly if it is already gone |
| Registry.Registry.Notify | internal/notification/registry.go:211-248 | hands the message once to each subscriber and to no other connection, and removes exactly the subscribers whose stream refused it |
| Sessions.Server.Subscribe | internal/notification/grpc.go:32-68 | a session's connection is registered for exactly the memberships resolved; a caller without identity or a failed query leaves the registry as it was |
| Sessions.Server.Disconnect | internal/notification/grpc.go:69-73 | the deferred removal takes this connection out of the registry and no other, whatever has happened meanwhile |
| Consumer.Consumer.GalleryName | internal/notification/consumer.go:38-59 | a name comes from the cache, else from the gallery service, whose answer is kept; a failed query gives no name and keeps nothing |
| Consumer.Consumer.BuildNotification | internal/notification/consumer.go:137-203 | what is built from each kind of event, what is dropped and what is ignored |
| Consumer.PublicationTells | internal/notification/consumer.go:137-203 | exactly the events of a known type about some gallery that the channel takes are published, each about its own gallery, kind and time; a photo's with its photo, uploader and address and the upload text, an alert's with its message, a closing's with the closing text; and which name it gets |
| Consumer.CacheLearns | internal/notification/consumer.go:38-59 | a delivery adds to the cache exactly the name it had to ask for and got, and changes nothing there |
| Consumer.Consumer.Handle | internal/notification/consumer.go:108-133 | settles a delivery exactly once, acknowledging it if and only if it was ignored or its notification is on the channel, which gains nothing else |
| Consumer.Consumer.Consume | internal/notification/consumer.go:88-101 | every delivery of a queue is settled exactly once, acknowledged if it was ignored or published and refused otherwise; the channel gains one notification for each delivery that publishes, in order, each saying what its own event said |
| Consumer.NamesAreTrue | internal/notification/consumer.go:38-59 | if the gallery service answers truthfully, caches hold only true names, and a published name that is not the event's own is the true one, or empty exactly when it could not be resolved |
| Consumer.AnyReplicaPublishesTheSame | internal/notification/consumer.go:108-203 | any two replicas would publish for the same deliveries, and the same but for the random identifier, and for the name only if one of them cannot resolve it |
| Consumer.LogIsIndependentOfConsumers | internal/notification/consumer.go:108-133 | however the deliveries of a queue are shared out among any number of replicas with caches of their own, the broadcast log is the same but for random identifiers and names |
| Consumer.SharedPublicationsCorrespond | internal/notification/consumer.go:108-133 | however deliveries are shared out among replicas, the notifications are one for each that publishes, in order, each saying what its own event said |
| Broadcast.Broadcaster.Apply | internal/notification/broadcast.go:82-107 | a notification envelope is handed to the local registry's subscribers; any other payload changes nothing |
| Broadcast.Broadcaster.Run | internal/notification/broadcast.go:64-80 | after any number of payloads the registry and every stream are as applying each payload once, in order, makes them |
| Broadcast.HandedUntilRefusal | internal/notification/broadcast.go:64-107 | over a whole run each connection is handed every notification for its galleries, in order and once, up to and including the first it refuses, and stays registered if and only if it refuses none |
| Fanout.RunKeepsInv | internal/notification/registry.go:211-248 | over any interleaving of sessions, deliveries, snapshots, sends and removals: rows belong to open sessions at their own replica, and an entry was sent to a connection if and only if its replica's snapshot held it and the send is not still to do |
| Fanout.SendsDoNotDependOnConsumers | internal/notification/consumer.go:88-133 | two runs that differ only in which replica handles each delivery, and in what it is answered, are both possible and send the same entries to the same connections in the same order |
| Fanout.LogCorresponds | internal/notification/consumer.go:108-133 | over any interleaving from the start, the log is what the replicas' caches and the deliveries make of it: one entry for each delivery handled that publishes, in order, each saying what its own event said |
| Fanout.PublishedReachesSubscribers | internal/notification/consumer.go:108-133 | from a delivery to the connections: a publishable event about a gallery becomes the next log entry and says what the event said, and once a replica has served it, a connection there has been sent it if registered for that gallery throughout and not if never registered, whatever else happens |
| Fanout.OpenedIsRegistered | internal/notification/grpc.go:45-68 | a session that has subscribed everything it resolved is registered for exactly that, unless it was removed |
| Fanout.OneDeliveryIsSent | internal/notification/consumer.go:127-132 | a legal run takes any publishable delivery from the queue to a connection's stream |
| Fanout.ReplicasCanGoOn | internal/notification/broadcast.go:64-80 | a replica behind the log or in the middle of an entry always has a next step |
| Fanout.RemovedExactlyWhenRefused | internal/notification/registry.go:236-247 | over any interleaving, between states with no removal of it outstanding, a connection stays registered if and only if its session did not close and no send to it was refused |
| Fanout.EachRefusalHasItsRemoval | internal/notification/registry.go:236-247 | each refused send is followed by a removal of its connection before another send to it is refused |
| Fanout.EachRemovalHasItsRefusal | internal/notification/registry.go:236-247 | each such removal has a refused send before it that no other removal has followed |
| Fanout.SurvivesUnlessRemoved | internal/notification/registry.go:170-248 | a row goes with one of these two removals and with nothing else |
| Fanout.SurvivingRow | internal/notification/registry.go:79-100 | a surviving row keeps its user and its galleries and gains exactly those its own session has subscribed meanwhile |
| Fanout.SentInLogOrderOnce | internal/notification/broadcast.go:64-80 | each connection is sent log entries in log order, each at most once |
| Fanout.SnapshotIsServed | internal/notification/registry.go:225-248 | whatever happens after the snapshot, an entry goes to exactly the connections of the snapshot |
| Fanout.DividedRegistryIsOne | internal/notification/registry.go:52-208 | the replicas' registries together change at every step as one undivided registry would |
| Fanout.SnapshotOfOneRegistry | internal/notification/registry.go:212-233 | a replica's snapshot is the undivided registry's subscribers that live there |
| Fanout.SteadySubscriber | internal/notification/broadcast.go:82-107 | a connection registered for a gallery throughout is sent each of its entries exactly once, and one never registered none, under any interference |
| Fanout.FanoutIsOneNotify | internal/notification/broadcast.go:28-30 | with registrations steady, the replicas together send an entry to exactly the subscribers one registry would have had |
| Fanout.RemovedStaysRemoved | internal/notification/registry.go:170-248 | a removed connection never reappears in any replica |
| Fanout.NothingLeaks | internal/notification/grpc.go:58-71 | once every session has run its deferred removal, no replica's registry holds anything |
| Galleries.Repository.UpdateGallery | internal/gallery/command/repository.go:47-49 | writes the whole row; on a row deleted meanwhile it either misses or inserts it again |
| Galleries.Repository.DeleteGallery | internal/gallery/command/repository.go:50-52 | removes the row and its memberships and nothing else |
| Galleries.Repository.JoinGallery | internal/gallery/command/repository.go:53-55 | adds a membership of an existing gallery, idempotently |
| Galleries.CommandService.CreateGallery | internal/gallery/command/service.go:38-58 | refuses exactly an empty name or a missing moderator, with the store unchanged, and otherwise inserts an open gallery as given |
| Galleries.CommandService.CloseGallery | internal/gallery/command/service.go:76-107 | closes an open gallery for its moderator and for nobody else, changing only its status; which refusal answers what |
| Galleries.CommandService.DeleteGallery | internal/gallery/command/service.go:61-73 | removes a gallery with its memberships if and only if it exists and the caller is its moderator, and otherwise leaves the store as it was |
| Galleries.CommandService.JoinGallery | internal/gallery/command/service.go:110-123 | adds this membership if and only if the gallery exists and is open, and otherwise changes nothing |
| Galleries.CommandService.LeaveGallery | internal/gallery/command/service.go:126-131 | removes just this membership |
| GalleryRuns.CachedNamesAreTheGivenNames | internal/gallery/command/service.go:38-131 | over every interleaving of command halves and cache fills since an event created a gallery: its name, description and moderator are those of that event, and every cached name is the one given there |
| GalleryRuns.NothingFromNowhere | internal/gallery/command/service.go:38-131 | only galleries that some event created are stored or cached, and memberships are of existing galleries |
| GalleryRuns.OnlyTheModeratorMay | internal/gallery/command/service.go:61-107 | over every interleaving: a gallery is gone only if its own moderator has asked for its deletion since it was created, and closed only if its moderator has asked for that |
| GalleryRuns.EveryMemberWasLetIn | internal/gallery/command/service.go:110-123 | over every interleaving: whoever is a member of a gallery asked to join it at a moment when it was open |
| GalleryRuns.WritesOnce | internal/gallery/command/service.go:61-123 | a command writes at most once for each time it reads |
| GalleryRuns.DeleteTakes | internal/gallery/command/service.go:61-73 | a moderator's delete removes the gallery with all its memberships, whatever happens between its halves |
| GalleryRuns.CloseTakes | internal/gallery/command/service.go:76-107 | a moderator's close leaves the gallery closed, or gone if it was deleted meanwhile and the write does not insert |
| GalleryRuns.JoinTakes | internal/gallery/command/service.go:110-123 | a join that read an open gallery makes the user a member unless the gallery is gone by then |
| GalleryRuns.EverythingElseStays | internal/gallery/command/service.go:38-131 | a leave ends just its own membership; no event changes another gallery or its members; and only a join or a leave of a user changes their membership of a gallery that stays |
| GalleryRuns.NamesAreKept | internal/notification/consumer.go:38-59 | a name asked for, of a gallery that exists and is not cached, ends up in that replica's cache |
| GalleryRuns.ClosedNeverReopens | internal/gallery/command/service.go:75-107 | a gallery that has been closed or deleted is never open again, even if a late write inserts its row anew |
| GalleryRuns.ClosedIffWritten | internal/gallery/command/service.go:75-107 | a gallery that was not closed is closed later, if it exists, if and only if a close has written in between |
| GalleryRuns.JoinMeetsClosedIff | internal/gallery/command/service.go:111-121 | a join that read an open gallery adds a member to a closed one if and only if, when it writes, the gallery still exists, the user is not a member, and a close has written since the read |
| GalleryRuns.JoinAfterClose | internal/gallery/command/service.go:111-121 | there is a run in which a member is added to a closed gallery |
| Paging.OneListing | internal/gallery/query/repository.go:42-68 | a set of identifiers has exactly one ascending listing |
| Paging.PageIsInterval | internal/gallery/query/repository.go:42-68 | a page holds exactly the eligible identifiers after the cursor up to its own last one, in order, and is empty only when none is left |
| Paging.PageShowsIff | internal/gallery/query/repository.go:42-68 | a page shows an identifier if and only if it lies beyond the cursor and fewer eligible ones than the limit lie between; a zero limit is the default and a negative one none |
| Memberships.MembershipPage | internal/gallery/query/service.go:64-89 | a page of memberships and its token: the token is empty if and only if nothing is left, and otherwise lies beyond the cursor and bounds the page |
| Memberships.MembershipIsListedIff | internal/gallery/query/repository.go:55-68 | a list of my galleries shows a gallery if and only if the user is a member of it, it lies beyond the page token, and fewer of the user's galleries than the page size lie between |
| Memberships.RefusedIff | internal/gallery/query/service.go:32-89 | which requests are refused and how: no identity for my galleries, a page token that does not parse, a failed query |
| Memberships.ResolveMemberships | internal/notification/grpc.go:82-118 | with arbitrary joins, leaves, creations and deletions between its queries the loop ends; it returns the pages of its queries one after the other, each identifier a membership when its page was read, in ascending order, and among them, once, every gallery that was a membership throughout |
| Memberships.GalleryIsListedIff | internal/gallery/query/repository.go:42-53 | a list of all galleries shows one, open or closed, if and only if it lies beyond the page token and fewer others than the page size lie between |
| Memberships.OnlyOpenListedIff | internal/gallery/query/service.go:29-62 | for every store, page size and page token: only open galleries are listed if and only if the page size cuts off every closed one beyond the token |
| Memberships.ListShowsAClosedGallery | internal/gallery/query/service.go:29-62 | there is a store whose list of all galleries shows a closed one |
| Uploads.InMemoryRepository.Save | internal/upload/repository.go:31-41 | adds to the history of saves and stores the record; a photo is listed last in its gallery if and only if it is new, and records and index go on reflecting the whole history |
| Uploads.InMemoryRepository.Get | internal/upload/repository.go:43-53 | finds a photo if and only if it was ever saved, with the record of its last save |
| Uploads.InMemoryRepository.ListByGallery | internal/upload/repository.go:55-85 | the records of the requested window of the reversed listing, none left out, and the total |
| Uploads.ReverseCopy | internal/upload/repository.go:62-66 | the in-place loop fills the array with the reversed listing |
| Uploads.ListUploads | internal/upload/api/grpc.go:317-361 | refuses exactly a missing gallery, a token that is no number and a negative one, fails exactly when the repository does, and otherwise shows the photos of the requested gallery in the window at the token's own offset, each as its record has it, with a token to the offset behind them if and only if photos remain there |
| UploadWalks.WalkMissesNothing | internal/upload/api/grpc.go:317-361 | a client that hands tokens back misses nothing: with any number of photos saved between pages, the walk returns every photo listed at its start |
| UploadWalks.QuietWalkIsReversedOrder | internal/upload/repository.go:55-85 | with no saves the pages are together exactly the photos in reverse order of saving, in at most as many pages as photos |
| UploadWalks.TokensMakeProgress | internal/upload/api/grpc.go:356-358 | a page followed by another holds as many photos as asked for, within 1 and 100, or twenty; and its token is read as the offset behind exactly these photos |
| UploadWalks.WalkRepeatsIff | internal/upload/api/grpc.go:356-358 | a walk returns each photo once if and only if none was saved between its first fetch and its last |
| UploadWalks.OvertakenWalkRepeats | internal/upload/api/grpc.go:356-358 | a walk by ones over two photos, with a third saved after its first page, shows a photo twice |
| UploadWalks.RepeatsIff | internal/upload/api/grpc.go:356-358 | two consecutive pages repeat a photo if and only if photos were saved in between, fewer than the two pages hold together |
| UploadWalks.ListAll | internal/upload/api/grpc.go:317-372 | calling the operation again and again with the token it answered comes to an end, in at most as many calls as photos, and shows exactly the gallery's photos, most recent first |
| UploadWalks.ListWhileOthersUpload | internal/upload/api/grpc.go:317-372 | the same while others save photos before each call: a client that reaches the last page has been shown everything listed at its start, and each photo once if and only if none was added since its first page |
| UploadStream.Assembler.Take | internal/upload/api/grpc.go:134-157 | a message is taken, its data added to the buffer, if and only if the stream is still well formed with it; otherwise it is refused for the reason it offends and the buffer stays; the buffer is always the data taken so far and never more than the cap |
| UploadStream.Receive | internal/upload/api/grpc.go:119-173 | accepts exactly the streams with one metadata message, first, followed by data within the cap and of the declared size; assembles exactly their bytes; gives the first reason of refusal; and takes every message before the first wrong one, with the buffer holding their data each time |
| UploadStream.SendPhoto | internal/handlers/upload.go:94-129 | whatever the sizes of the reads, sends the metadata and then chunks that are together the file, or a prefix of them if a read or a send fails |
| UploadStream.RoundTrip | internal/upload/api/grpc.go:119-173 | the server accepts what the gateway sends if and only if the file is neither empty nor over the cap |
| UploadStream.CodeOfRefusal | internal/upload/api/grpc.go:124-173 | a refused stream is the client's fault unless receiving broke before anything was wrong |
| UploadStream.MalformedGalleryIsAccepted | internal/upload/api/grpc.go:163-178 | a stream whose gallery identifier does not parse is acceptable |
| UploadService.Server.IsMember | internal/upload/api/grpc.go:286-314 | asks about this gallery and this user; unavailable exactly when the breaker rejects, and otherwise the answer to that question with its outcome recorded, other callers using the breaker meanwhile |
| UploadService.Server.UploadPhoto | internal/upload/api/grpc.go:114-256 | succeeds exactly for an acceptable stream whose uploader is a member of the gallery it names and the gallery not closed, with the breaker admitting and the store working; then object, record, event and response are about that gallery and agree, and a new photo is listed last in it and in no other; any failure leaves none of them; and which failure gives which code |
| UploadService.Upload | internal/handlers/upload.go:94-131 | from the browser's file to the stored object: byte for byte, for every file up to 25 MiB, every way of reading it and a stream that takes all the messages, filed under the gallery it was sent for; nothing is left if a read or a send fails |
| UploadService.UploadBetweenListings | frontend/src/actions/uploadActions.ts:19-26 | a new photo that was stored and saved comes first in the next listing of its gallery, as it was uploaded, followed by what the last listing showed; no other gallery's listing changes, nor any when the upload fails |
| EventText.SplitIncrementally | frontend/src/services/notificationStream.ts:42-57 | text that arrives later does not disturb the events already complete, so decoding does not depend on how the text is cut |
| EventText.TrimKeepsIff | frontend/src/services/notificationStream.ts:87-89 | trimming keeps a text if and only if no white space begins or ends it |
| EventText.TrimIsCore | frontend/src/services/notificationStream.ts:87-89 | trimming takes away exactly the white space at the two ends |
| EventText.NameIsTheLast | frontend/src/services/notificationStream.ts:82-88 | an event's name is that of its last `event:` line, or `message` when it has none, whatever its other lines |
| EventText.DataAround | frontend/src/services/notificationStream.ts:85-91 | each `data:` line adds its own text, trimmed, in its place, and no other line adds any |
| EventText.PayloadIff | frontend/src/services/notificationStream.ts:81-96 | an event is handed over if and only if its last `event:` line names a notification and it has a `data:` line, and then with the data lines' text |
| EventText.EncodedIsOneEvent | internal/handlers/notification.go:95-96 | an encoded notification is read as exactly one event, whatever its body and whatever follows |
| EventText.DecodingUndoesEncoding | internal/handlers/notification.go:95-96 | encoding any list of notifications and decoding it leaves no text over and gives back the bodies, each line trimmed |
| EventText.RoundTripIff | internal/handlers/notification.go:90-96 | decoding the encoding of a list gives the list back if and only if no line of any body begins or ends with white space |
| EventText.BodySurvivesIff | frontend/src/services/notificationStream.ts:85-91 | a body comes back unchanged if and only if none of its lines begins or ends with white space |
| NotificationStream.NotificationStore.HandleAction | frontend/src/stores/NotificationStore.ts:35-54 | a notification goes to the front, the others follow as they were, and the list is cut at thirty; a status replaces the status and leaves the list |
| NotificationStream.HoldsTheNewest | frontend/src/stores/NotificationStore.ts:37-46 | after any arrivals the list is the newest thirty of all, newest first |
| NotificationStream.NotificationStream.HandleRawEvent | frontend/src/services/notificationStream.ts:81-101 | an event feeds the store its payload if it is a notification with data that parses, and nothing otherwise |
| NotificationStream.ParsedAround | frontend/src/services/notificationStream.ts:97-101 | every payload that parses is fed in its place among the others, and one that does not leaves nothing |
| NotificationStream.NotificationStream.OnRead | frontend/src/services/notificationStream.ts:48-56 | one read handles exactly the events it completes, in order, and keeps the rest |
| NotificationStream.NotificationStream.ReadAll | frontend/src/services/notificationStream.ts:44-57 | the store is fed the events of the one-shot reading of all the text, however it was cut |
| NotificationStream.NotificationStream.Connect | frontend/src/services/notificationStream.ts:22-70 | one attempt: the notifications fed, every status shown in its order and the one that stays, and the delay before the next attempt and the backoff after it in milliseconds |
| NotificationStream.ShownInOrder | frontend/src/services/notificationStream.ts:22-70 | the statuses of an attempt come once each and in the order connecting, open, error, closed: open exactly if it got through, error exactly if it did not or broke off, and the last two only while nobody has unsubscribed |
| NotificationStream.NotificationStream.ConnectRepeatedly | frontend/src/services/notificationStream.ts:65-72 | many attempts: the store is fed what they decode one after the other, and waits and backoff follow the attempts |
| NotificationStream.StreamDeliversTheNewest | frontend/src/services/notificationStream.ts:42-57 | receiving the encoding of a list, in any chunks, leaves an empty store with the newest thirty that parse |
| NotificationStream.BackoffIsCappedDoubling | frontend/src/services/notificationStream.ts:67-69 | the backoff after any attempts is one second doubled once per attempt since the last that opened, and at most thirty seconds |
| GalleryLists.GalleryStore.HandleAction | frontend/src/stores/GalleryStore.ts:54-282 | the new state for every action, with the two lists kept disjoint |
| GalleryLists.StaysDisjoint | frontend/src/stores/GalleryStore.ts:89-276 | under every action no gallery gets into both lists, provided a load's own lists are disjoint |
| GalleryMoves.JoiningMoves | frontend/src/stores/GalleryStore.ts:182-206 | joining moves a gallery from its place among the others to the end of my list and moves nothing else |
| GalleryMoves.LeavingMoves | frontend/src/stores/GalleryStore.ts:208-232 | leaving moves it from its place in my list to the end of the others |
| GalleryMoves.JoinThenLeave | frontend/src/stores/GalleryStore.ts:182-232 | a join and a leave undo each other but for the place among the others |
| GalleryMoves.LeaveThenJoin | frontend/src/stores/GalleryStore.ts:182-232 | a leave and a join undo each other but for the place in my list |
| GalleryMoves.DeletingFromMine | frontend/src/stores/GalleryStore.ts:252-276 | a deleted gallery goes from my list and everything else stays where it is |
| GalleryMoves.DeletingFromOthers | frontend/src/stores/GalleryStore.ts:252-276 | a deleted gallery goes from the other list and everything else stays where it is |
| GalleryMoves.IsMineIff | frontend/src/stores/GalleryStore.ts:54-282 | after any sequence of actions a gallery is in my list if and only if one brought it there, or it was there before, and none has taken it out since |
| GalleryMoves.IsAmongOthersIff | frontend/src/stores/GalleryStore.ts:54-282 | the same of the other list, where more of all galleries brings those that are not mine at that moment |
| GalleryMoves.IsShownIff | frontend/src/stores/GalleryStore.ts:54-282 | after any sequence of actions each kind of request is shown as going on if and only if one has started and none is over since |
| GalleryMoves.LastWordOnError | frontend/src/stores/GalleryStore.ts:54-282 | the last action that is not an answer with more decides about the error: a failure shows its message, anything else clears it |
| GalleryMoves.FailuresMoveNothing | frontend/src/stores/GalleryStore.ts:65-282 | no failure moves a gallery or a token |
| GalleryLists.Loaded | frontend/src/actions/galleryActions.ts:11-27 | the lists of a load are disjoint |
| GalleryLists.AnswerHolds | internal/gallery/query/service.go:32-89 | an answer's galleries are exactly those its token passes beyond the cursor |
| GalleryLists.MoreMyWalksIff | frontend/src/stores/GalleryStore.ts:127-146 | an answer with more of my galleries leaves both lists right if and only if my list stands where the request was made, or is complete and the answer empty |
| GalleryLists.MoreAvailableWalksIff | frontend/src/stores/GalleryStore.ts:158-175 | an answer with more of all galleries leaves both lists right if and only if only galleries of my list lie between the other list's place and the request's |
| GalleryLists.AlwaysWalkedIff | frontend/src/stores/GalleryStore.ts:89-175 | whatever loads, requests, answers and failures interleave, the lists hold exactly what their walks have passed all along if and only if every answer arrives in its place |
| GalleryLists.ListsAreComplete | frontend/src/actions/galleryActions.ts:11-85 | over an unchanging server any interleaving whose answers arrive in place, run to the end, leaves exactly the memberships in one list and all remaining galleries in the other, in order |
| GalleryLists.UndisturbedListsAreComplete | frontend/src/actions/galleryActions.ts:39-85 | in particular any interleaving of the two walks and of failures, with further loads answered only while no request for more is in flight |
| GalleryLists.WalksEnd | frontend/src/actions/galleryActions.ts:39-85 | between loads only a bounded number of requests for more can be answered before both walks are over |
| GalleryEnds.MyStretchIff | frontend/src/stores/GalleryStore.ts:127-146 | after a load, whatever requests, answers and failures interleave, my list ends as an initial stretch of the memberships if and only if every page added to it was empty or began at the list's own last gallery |
| GalleryEnds.AvailableStretchIff | frontend/src/stores/GalleryStore.ts:127-175 | of the other list, what my list does not take in the end is an initial stretch of the remaining galleries if and only if every page added left nothing of these or followed on what there was |
| GalleryEnds.EndsCompleteIff | frontend/src/stores/GalleryStore.ts:89-175 | from any load to the end of any run without another, both lists are complete if and only if every page added to either followed on it or was empty for it and nothing is left beyond their last galleries |
| GalleryLists.RacingLoadRepeatsThePage | frontend/src/stores/GalleryStore.ts:89-106 | answers do get out of place: a load answered during a request for more enables the button again, and the second page is then appended twice |

## Left out

- EventText.EncodedIsOneEvent: the encoder belongs to a library that may also replace carriage returns; bodies are JSON, which holds none raw, and carriage returns are not treated apart.
- Galleries.CommandService.CreateGallery: repository failures other than a missing row are not modelled, nor are timestamps and the events the commands publish afterwards.
- Galleries.CommandService.JoinGallery: adding a member to a gallery deleted meanwhile is taken to fail on the foreign key.
- Uploads.InMemoryRepository.ListByGallery: negative offsets are required away, as `parsePageToken` never yields one, and `offset + limit` does not wrap around at 64 bits.
- Uploads.InMemoryRepository.Save: saving a known photo under another gallery leaves the index as it is, as in the code; record copies are values.
- UploadService.Server.UploadPhoto: other uploads save no record and use the breaker only during the membership check; the caller's identity is a parameter, the answer is taken to reach the client, and object keys are kept as their parts rather than as text.
- UploadService.Upload: the declared size is the file's, and what the gateway answers the browser after a failed send is not modelled.
- UploadWalks.ListAll: the gateway that ships asks for one page of a hundred; this is any client that follows the tokens.
- UploadWalks.ListWhileOthersUpload: the same.
- UploadService.UploadBetweenListings: the photo's identifier is fresh, and nobody else uploads between the two listings.
- Registry.Registry.Notify: the whole call without interruption; each of its steps is under contract for any state of the registry (`Snapshot`, `Deliver`), and what may happen between them is the subject of the transition system in `Fanout.dfy`.
- Registry.Registry.AddGalleryForClient: the inner map of a gallery is made with its first connection rather than just before it.
- Sessions.Server.Subscribe: nobody else changes the registry between its registrations, which are separate critical sections; the transition system in `Fanout.dfy` interleaves them with everything else.
- Broadcast.Broadcaster.Run: sessions do not open, subscribe or close while the payloads are applied; `Fanout.dfy` covers that.
- Broadcast.HandedUntilRefusal: the same.
- Broadcast.Broadcaster.Apply: envelopes are taken as decoded; JSON and protobuf are libraries.
- Consumer.Consumer.Consume: a finite queue; the loop's end by cancellation is its end of input.
- Memberships.ResolveMemberships: identifiers returned by the gallery service are well-formed, as they are printed from identifiers.
- NotificationStream.NotificationStream.Connect: the decoding of bytes to text and the parsing of JSON are parameters; unsubscribing shows as a flag on the attempt it interrupts.
- GalleryLists.GalleryStore.HandleAction: listeners are not modelled, and the disabled "load more" button (frontend/src/pages/GalleriesPage.tsx:142-149, 183-192) becomes the enabling condition of an event.
- GalleryLists.ListsAreComplete: the server does not change during the walks; the wire between browser and query service is transparent.
- The breaker's `State` accessor and its log lines, and panics inside the protected function.
- The Postgres upload repository, whose order of equal upload times is unspecified.
- The RabbitMQ publisher and its reconnection.
- Moderator alerts as a command, member listings, gallery lookups by one identifier.
- Tokens, passwords, authorisation of requests and the authentication store.
- The remaining browser stores, pages and components, and the load generators.
