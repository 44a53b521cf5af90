# Bahamut: service discovery, balancing and messaging, modelled in Dafny

Bahamut is a Go framework for API servers and the gateway in front of them.
This project models its stateful core and proves what that core keeps over
every run:

- the push upstreamer of the gateway: a registry of services fed by hellos,
  goodbyes and timeout ticks, the index requests are routed by, the membership
  protocol by which gateways share rate limits, the latency averages, and the
  choice between two candidates under per-endpoint token buckets;
- the route table a server announces, up to the key a gateway looks it up by;
- the in-process broker, the request/reply handshake, the connection limiter
  and the websocket push session.

Where the source iterates a map, draws a random number or shuffles, every
outcome is allowed and the proofs hold for all of them. Time is an integer
clock, floats are reals, integers are unbounded.

| file | what it holds |
|---|---|
| `Wrappers.dfy` | options, sets of a sequence, arbitrary choice |
| `Paths.dfy` | request paths, routing keys, service keys |
| `Routes.dfy` | the route table of a server |
| `Registry.dfy` | the service registry and its index, as a relation between states |
| `Directory.dfy` | the same as objects: services, endpoints, limiters, the resync |
| `ServiceListener.dfy` | the service event loop over those objects |
| `Peers.dfy` | gateway membership, cached rates, the shared budget |
| `RateRace.dfy` | the rate cache at the grain of its atomic operations |
| `Readiness.dfy` | the `ready` channel |
| `MovingAverage.dfy` | the ring of samples and the latency book |
| `Selection.dfy` | two candidates, weights and the draw |
| `Balancer.dfy` | limiter rates, draw and token accounting for two candidates |
| `LimiterShares.dfy` | which of several limiters of one endpoint are up to date |
| `LimiterRace.dfy` | the adjustment of a limiter at the grain of its atomic operations |
| `Fleet.dfy` | from a routing key to an answer, with rates in line with the peers |
| `Runs.dfy` | runs that interleave service events, peer events, samples and requests |
| `Upstreamer.dfy` | the upstreamer object, and its runs |
| `EndToEnd.dfy` | from an announced route to an answered request |
| `LocalPubSub.dfy` | the in-process broker |
| `ReplyHandshake.dfy` | `Reply` against the response handler |
| `NetLimiter.dfy` | the connection limiter |
| `PushSession.dfy` | the push session |

`dafny verify dfyconfig.toml` checks the whole project.

## How the parts fit

`Registry` says what a state of the listener is and which states each event may
lead to; the main theorem there is that the index is current in every state of
every run, although pokes do not rebuild it. `Directory` and `ServiceListener`
implement this with objects: the index holds the very endpoint objects the
registry pokes, and each handler is proved to be a step of `Registry`.
`Upstreamer` adds the peers, the latency book and the requests; its invariant
says that every registered endpoint is either at the current share of its
announced rates or due for adjustment. `Upstreamer.Serve` then runs any
interleaving of all kinds of steps and shows that its states form a whole run
in the sense of `Runs`, about which further lemmas speak.

## Where the code is not what one would expect

- A tick removes one outdated endpoint, not all of them: the first removal
  switches the others off, while the latencies of all of them are forgotten
  (gateway/upstreamer/push/upstreamer.go:362-381). `Registry.TickRemovesExactlyOne`
  and `Registry.TicksDrain` state what does happen.
- A service key that starts with a slash does not survive being split and
  rebuilt, so a tick can then remove a fresh endpoint of another service:
  `Paths.KeyRoundTrip`, `Registry.TickCanRemoveFreshExactlyWhen`, and
  `Registry.FreshEndpointLost` for a run on which it does.
- An endpoint announced under such a key, say with the prefix `/api`, is not
  removed by any tick however long it is dead: `Registry.SlashedStays`,
  `Registry.TickRemovesNothingExactlyWhen`, and `Registry.OutdatedEndpointSurvives`
  for a run with any number of ticks. `Registry.TickIsRightExactlyWhen` says when
  a tick does what it is for.
- The path parser panics on paths that start with two slashes once versions are
  gone: `Paths.TargetIdentityPanicsExactlyWhen`, `Paths.DoubleSlashPanics`.
- An unprefixed service with a slash inside its name writes its keys under a
  prefix nobody asks for: `EndToEnd.LookedUpKeyIsWrittenExactlyWhen`,
  `EndToEnd.SlashedNameIsMissed`.
- With one endpoint no limiter is consulted; the adjustment date is kept per
  endpoint although limiters are per identity, so a second limited identity can
  keep its old rates: `Balancer.SecondIdentityStaysStale`, and
  `LimiterShares.ShareIsThatOfLastLead` for which identity has which rates.
- A request loads the peer count and then the date of the last change, while a
  handler changes them in that order. A change between the two loads sets the
  limiter to an old share and marks it as adjusted, until the peers change again:
  `LimiterRace.MisledExactlyWhen`, `LimiterRace.PeerBetweenTheLoads`.
- An announced burst smaller than the number of gateways leaves each of them a
  burst of zero, and the endpoint refuses everything:
  `Balancer.ShareAdmitsExactlyWhen`.
- The draw does not favour the lighter candidate when the weights are close, and
  two idle candidates are not balanced at all:
  `Selection.LighterFirstAtLeastAsOftenExactlyWhen`, `Selection.IdleCandidatesAreNotBalanced`.
- `ExtractRates` tests, loads and stores in separate steps. A peer change between
  load and store leaves an outdated cache that stays until the next change:
  `RateRace.StaleExactlyWhenOvertaken`, `RateRace.LostRaceOverspends`.
- Which identity a shared URL is announced with depends on the order in which a
  map is walked, exactly when its contributors disagree:
  `Routes.OrderMattersExactlyWhen`, `Routes.PrivacyByOrder`.
- A channel registered twice on the in-process broker can be closed while it is
  still registered, and the next use of it panics: `LocalPubSub.PanicsExactlyWhen`.
- A required service listed twice keeps `ready` open for ever:
  `Readiness.ReadyExactlyWhen`, `Readiness.RepeatedNameNeverReady`.
- A `Reply` that reaches its channel send while the handler takes the timeout
  branch blocks for ever, and the handler with it:
  `ReplyHandshake.StuckExactlyWhenDeadlocked`, `ReplyHandshake.DeadlockIsForEver`.
  The comment on `Reply` promises an error instead.
- `Reply` reports success before its response is published, so the client can be
  left without an answer: `ReplyHandshake.SuccessWithoutAnswerIsReachable`.
- The connection limit can be exceeded exactly once a connection has been closed
  twice: `NetLimiter.LimitCanFailExactlyWhen`. Sockets can exceed it during any
  close, because the counter is released first: `NetLimiter.SocketsCanExceedExactlyWhen`,
  `NetLimiter.CloseInFlightOverAdmits`.

## Model

| member | source | states |
|---|---|---|
| `Upstreamers.Upstreamer.Upstream` | gateway/upstreamer/push/upstreamer.go:87-261 | in every reachable state: no upstream exactly when no registered service exposes the key, an address only of a registered endpoint of a service that does; with two or more candidates two distinct ones are drawn between, their limiters stand at the announced rates over the current gateways (for endpoints with one limiter), the answer follows from the draw and from whether each bucket has a token under the burst just set, and a token is taken from the returned endpoint's limiter alone; the request goes on with the prefix trimmed |
| `Upstreamers.Upstreamer.Lookup` | gateway/upstreamer/push/upstreamer.go:96-261 | a request keeps the registry, the index, the dates, loads and latencies, and every other endpoint's rates sound |
| `Upstreamers.Upstreamer.Serve` | gateway/upstreamer/push/upstreamer.go:87-575 | any interleaving of service events, peer events, samples and requests on a new upstreamer keeps its invariant and is a run of the specification, each request answered from the registry of its time; `ready` is closed at most once, and exactly when the required names are distinct and all were heard |
| `Upstreamers.Upstreamer.Do` | gateway/upstreamer/push/upstreamer.go:87-575 | each kind of step changes the registry, the peers and the samples as the specification says and nothing else of them |
| `Upstreamers.Upstreamer.OnHello` | gateway/upstreamer/push/upstreamer.go:405-417 | a hello is the registry step and keeps the invariant: a new endpoint starts at its announced rates and is due for adjustment if there are peers |
| `Upstreamers.Upstreamer.DoService` | gateway/upstreamer/push/upstreamer.go:355-445 | a service event moves the registry, the samples and the names heard as the specification says |
| `Upstreamers.Upstreamer.OnGoodbye` | gateway/upstreamer/push/upstreamer.go:432-445 | a goodbye removes exactly the named endpoint and its latencies, if it was registered |
| `Upstreamers.Upstreamer.OnTick` | gateway/upstreamer/push/upstreamer.go:358-387 | a tick removes at most one outdated endpoint and forgets the latencies of every outdated address |
| `Upstreamers.Upstreamer.OnPeer` | gateway/upstreamer/push/upstreamer.go:503-550 | a peer change leaves every endpoint due for adjustment and nothing else changed |
| `Upstreamers.Upstreamer.CollectLatency` | gateway/upstreamer/push/upstreamer.go:567-575 | the sample is appended to the history of its address only |
| `Upstreamers.Upstreamer.ExtractRates` | gateway/upstreamer/push/upstreamer.go:68-84 | with n the peers and this gateway: n times the burst is at most the configured one and n times a greater one is not, and n times the limit is the configured rate |
| `Runs.WholeRunKeepsInv` | gateway/upstreamer/push/upstreamer.go:355-550 | in every state of every whole run the index is current, every service has an endpoint, the peer count is the size of the peer map and cached rates are current |
| `Runs.RegisteredWereHeard` | gateway/upstreamer/push/upstreamer.go:355-445 | a registered endpoint's last word was a hello, whose date and load it carries |
| `Runs.HeardEndpointsStay` | gateway/upstreamer/push/upstreamer.go:355-445 | conversely, unless its address was also announced with one more slash before the key, an endpoint stays until its goodbye or a tick that finds it outdated |
| `Runs.HellosAreHeard` | gateway/upstreamer/push/upstreamer.go:419-430 | the names heard are those of the hellos of the run |
| `Runs.AnswersWereAnnounced` | gateway/upstreamer/push/upstreamer.go:87-261 | on every run the address a request is given was announced and not withdrawn since, and the routes its service announced last hold the identity asked for, not private unless private ones are exposed, or its name has an event API for it |
| `Runs.NoUpstreamExactlyWhen` | gateway/upstreamer/push/utils.go:114-129 | on every run a request gets no upstream exactly when every matching route of every registered service is private while private ones are not exposed, and no event API matches |
| `Runs.RoutesWereAnnounced` | gateway/upstreamer/push/utils.go:74-76 | on every run the routes of a service are those of the last hello that registered an endpoint of it |
| `Runs.ExposedExactlyWhen` | gateway/upstreamer/push/utils.go:116-128 | a key is exposed by a route of that identity that is not private unless private ones are exposed, or by an event API, both under the service's prefix |
| `Runs.BookHoldsTheSamples` | gateway/upstreamer/push/upstreamer.go:374-374 | on every run the latency book holds, per address, the samples since it was last removed or found outdated, in order |
| `Registry.IndexIsCurrentOnEveryRun` | gateway/upstreamer/push/upstreamer.go:355-445 | in every state reachable by hellos, goodbyes and ticks the index has exactly the exposed keys, one order of the services decides which service each key belongs to, each key lists once each the endpoints of that service, and no service is empty |
| `Registry.IndexLists` | gateway/upstreamer/push/utils.go:110-132 | so each key lists exactly the endpoints of one service that exposes it |
| `Registry.StepKeepsInv` | gateway/upstreamer/push/upstreamer.go:358-445 | each kind of event keeps this |
| `Registry.PokeKeepsIndex` | gateway/upstreamer/push/utils.go:65-72 | a poke needs no rebuild |
| `Registry.TickIsRightExactlyWhen` | gateway/upstreamer/push/upstreamer.go:358-387 | every outcome of a tick removes exactly one outdated endpoint when there is one and never a fresh one, exactly when some outdated endpoint is found again under its rebuilt key, or there is none, and no outdated one hides a fresh one behind a leading slash |
| `Registry.TickRemovesNothingExactlyWhen` | gateway/upstreamer/push/upstreamer.go:363-373 | a tick removes nothing exactly when every outdated endpoint is under a key with a leading slash and not registered without it |
| `Registry.SlashedStays` | gateway/upstreamer/push/upstreamer.go:363-373 | an endpoint under a key with a leading slash survives every tick, unless it is also registered one slash deeper |
| `Registry.OutdatedEndpointSurvives` | gateway/upstreamer/push/upstreamer.go:363-373 | a run on which an outdated endpoint survives any number of ticks |
| `Registry.TickRemovesExactlyOne` | gateway/upstreamer/push/upstreamer.go:358-387 | when no outdated endpoint is under a key with a leading slash, a tick does what it is for |
| `Registry.TickTakesOne` | gateway/upstreamer/push/upstreamer.go:360-381 | in dates: a tick takes away one endpoint last seen before the date when there is one, and nothing else |
| `Registry.TickTakesNone` | gateway/upstreamer/push/upstreamer.go:360-381 | and nothing when every endpoint was seen since |
| `Registry.TicksDrain` | gateway/upstreamer/push/upstreamer.go:358-387 | while nothing newly expires, and nothing outdated is behind a leading slash, the outdated endpoints go down by one a tick until none is left |
| `Registry.RunsDrain` | gateway/upstreamer/push/upstreamer.go:355-445 | with any hellos and goodbyes between them, as many ticks as there are outdated endpoints clear them all |
| `Registry.TickCanRemoveFreshExactlyWhen` | gateway/upstreamer/push/upstreamer.go:363-373 | a tick can remove a fresh endpoint exactly when an outdated one is stored under the same key with a leading slash |
| `Registry.FreshEndpointLost` | gateway/upstreamer/push/upstreamer.go:363-373 | a run of two hellos and a tick on which it does |
| `Registry.WithoutKeepsEndpoints` | gateway/upstreamer/push/utils.go:84-108 | a removal takes one endpoint out, drops a service left empty and touches no other entry |
| `ServiceListeners.ServiceListener.OnHello` | gateway/upstreamer/push/utils.go:53-82 | a hello pokes the registered object, or registers a new object and replaces the routes of its service; the index stays current, object for object |
| `ServiceListeners.ServiceListener.HandleRemove` | gateway/upstreamer/push/utils.go:84-108 | tells whether the endpoint was registered and removes exactly it |
| `ServiceListeners.ServiceListener.OnGoodbye` | gateway/upstreamer/push/upstreamer.go:432-445 | a goodbye is the step the specification allows, with a rebuild only when something was removed |
| `ServiceListeners.ServiceListener.Sweep` | gateway/upstreamer/push/upstreamer.go:360-381 | for every order of the services and endpoints only the first successful removal takes effect, and exactly the outdated addresses are looked at |
| `ServiceListeners.ServiceListener.OnTick` | gateway/upstreamer/push/upstreamer.go:358-387 | a tick is the step the specification allows and keeps the index current |
| `ServiceListeners.ServiceListener.Listen` | gateway/upstreamer/push/upstreamer.go:355-454 | whatever a new listener receives, its states form a run of the specification |
| `Directory.ResyncRoutes` | gateway/upstreamer/push/utils.go:110-132 | the index has exactly the exposed keys, each with a permutation of the endpoint objects of the service that, in one order of all services, is the last to expose it |
| `Directory.AddService` | gateway/upstreamer/push/utils.go:114-129 | one service writes exactly the keys it exposes and leaves the others as they are |
| `Directory.GetEndpoints` | gateway/upstreamer/push/services.go:37-47 | the endpoint objects, each once |
| `Directory.OutdatedEndpoints` | gateway/upstreamer/push/services.go:86-99 | exactly the addresses not heard of since the date |
| `Directory.PokeEndpoint` | gateway/upstreamer/push/services.go:76-84 | date and load of that object change, every other endpoint keeps its own |
| `Directory.NewLimiters` | gateway/upstreamer/push/services.go:56-74 | one new limiter per announced identity, at the announced rates and with a full bucket |
| `Directory.RateLimiter.Allow` | gateway/upstreamer/push/upstreamer.go:219-224 | a token is given exactly when there is one and the burst is positive, and no more tokens count than the burst |
| `Directory.Exhaust` | gateway/upstreamer/push/upstreamer.go:219-224 | asked until it refuses, a limiter gives what it holds and never more in a row than its burst |
| `Directory.ObjectIndexShows` | gateway/upstreamer/push/utils.go:110-132 | an index of objects is an index of the addresses the specification speaks of |
| `Directory.InstalledImplements` | gateway/upstreamer/push/utils.go:74-81 | the records with the new endpoint stand for the registry after the hello |
| `Directory.RemovedImplements` | gateway/upstreamer/push/utils.go:99-107 | the records without the endpoint stand for the registry after the removal |
| `Fleets.Route` | gateway/upstreamer/push/upstreamer.go:96-261 | from a key to an answer that fits the registry |
| `Fleets.Choose` | gateway/upstreamer/push/upstreamer.go:103-261 | none, one or a draw, by the number of candidates |
| `Fleets.OneTokenOrNone` | gateway/upstreamer/push/upstreamer.go:219-260 | a request costs one token of the limiter that held it, under its burst, and no other limiter anything |
| `Fleets.AdjustRegistered` | gateway/upstreamer/push/upstreamer.go:136-178 | adjusting one endpoint brings the consulted limiter to the current share and keeps every other endpoint's rates in line |
| `Fleets.InstalledInLine` | gateway/upstreamer/push/services.go:56-74 | registering an endpoint keeps all rates in line |
| `Fleets.DueAfterChange` | gateway/upstreamer/push/upstreamer.go:515-548 | after a later change of the peers every endpoint is due for adjustment |
| `Fleets.CandidatesAre` | gateway/upstreamer/push/upstreamer.go:99-123 | the candidates for a key are registered objects with distinct addresses, none exactly when nobody exposes the key |
| `Balancer.SetRates` | gateway/upstreamer/push/upstreamer.go:136-178 | afterwards the consulted limiter runs at the current share if and only if it was due or already did, and no other limiter changes |
| `Balancer.AdjustLimiter` | gateway/upstreamer/push/upstreamer.go:136-178 | for an endpoint with one limiter, it always does |
| `Balancer.SecondIdentityStaysStale` | gateway/upstreamer/push/services.go:11-18 | with two limited identities, a request for one leaves the other at its old rates, also for the next request |
| `LimiterShares.ShareIsThatOfLastLead` | gateway/upstreamer/push/upstreamer.go:136-178 | on every sequence of peer changes and requests an identity runs at the share for the peers there were when a request for it was last the first since a change, and at its announced rates if none ever was |
| `LimiterShares.CurrentExactlyWhen` | gateway/upstreamer/push/upstreamer.go:136-178 | the identity asked for first since the last change is current, another exactly when the counts agree |
| `LimiterShares.NeverLedIsCurrentExactlyWhen` | gateway/upstreamer/push/upstreamer.go:136-178 | an identity never asked for first is current exactly when there are no peers |
| `LimiterShares.Live` | gateway/upstreamer/push/upstreamer.go:136-178 | the limiter objects of a new endpoint follow this specification through any peer changes and requests |
| `LimiterShares.Consult` | gateway/upstreamer/push/upstreamer.go:136-178 | consulting a limiter is the request step of the specification |
| `LimiterRace.MisledExactlyWhen` | gateway/upstreamer/push/upstreamer.go:136-178 | for any requests interleaved with the handlers: a limiter that is not due runs at the wrong share exactly when the last request to set it had loaded another count than the present one, and no date was stored since the last request to mark the endpoint loaded its own |
| `LimiterRace.MisledUntilPeersChange` | gateway/upstreamer/push/upstreamer.go:136-178 | with no request under way it stays so until the peers next change, whatever requests come |
| `LimiterRace.PeerBetweenTheLoads` | gateway/upstreamer/push/upstreamer.go:136-137 | a peer that comes between the two loads of a request leads there |
| `Balancer.AnnouncedBudget` | gateway/upstreamer/push/upstreamer.go:143-147 | over gateways that know each other, the rates that limiters brought in line for one announcement run at add up to at most what was announced |
| `Balancer.ShareAdmitsExactlyWhen` | gateway/upstreamer/push/upstreamer.go:143-147 | a limiter in line admits a request exactly when the announced burst is at least the number of gateways |
| `Balancer.SharesOfAnnounced` | gateway/upstreamer/push/upstreamer.go:143-147 | for n gateways, n shares fit into the announced burst, n greater ones would not, and n limits are the announced limit |
| `Balancer.Draw` | gateway/upstreamer/push/upstreamer.go:202-260 | the answer by draw order and by tokens and bursts, a panic exactly on a weight sum of minus one or less, and the token taken from the limiter of the address returned |
| `Balancer.TryRanked` | gateway/upstreamer/push/upstreamer.go:202-260 | whichever way the candidates were sorted, limiter and address go together |
| `Balancer.TryAndTake` | gateway/upstreamer/push/upstreamer.go:219-260 | a token goes from the limiter of the endpoint returned, which had one under a positive burst, and from no other; with the error, both had none |
| `Balancer.TryInOrder` | gateway/upstreamer/push/upstreamer.go:219-260 | the second candidate is asked only when the first refuses, and no token is taken when both do |
| `Balancer.RefusedExactlyWhenBothRefuse` | gateway/upstreamer/push/upstreamer.go:233-260 | the error comes exactly when both refuse, and no request goes to one that refuses |
| `Balancer.AnswerOfEachDraw` | gateway/upstreamer/push/upstreamer.go:202-260 | the answer of each draw: between two willing candidates the heavier up to the smaller weight and the lighter above it, with one willing that one, with none the error |
| `Balancer.HeavierAnswers` | gateway/upstreamer/push/upstreamer.go:202-260 | of the floor(sum) + 1 draws between two willing candidates exactly floor(least) + 1 answer with the heavier one, all others with the lighter |
| `Balancer.HeavierTriedFirst` | gateway/upstreamer/push/upstreamer.go:202-231 | of the possible draws exactly floor(least) + 1 try the heavier candidate first |
| `Balancer.EachByItsOwn` | gateway/upstreamer/push/upstreamer.go:180-200 | each candidate is weighed by its own mean when both are known and not zero, else by its own load |
| `Balancer.Weigh` | gateway/upstreamer/push/upstreamer.go:180-200 | the weights are the means of the last samples of both addresses, or both loads |
| `Selection.Pick` | gateway/upstreamer/push/utils.go:37-51 | two distinct valid indices for any sequence of swaps |
| `Selection.HeavierShare` | gateway/upstreamer/push/upstreamer.go:210-231 | for weights a <= b the heavier goes first on floor(a) + 1 of floor(a + b) + 1 draws |
| `Selection.LighterFirstAtLeastAsOftenExactlyWhen` | gateway/upstreamer/push/upstreamer.go:210-231 | the lighter goes first at least as often exactly when floor(a + b) > 2 floor(a), as it does for b >= a + 1 |
| `Selection.DrawBoundPositiveExactlyWhen` | gateway/upstreamer/push/upstreamer.go:214-214 | the randomizer gets a positive bound exactly on sums above minus one |
| `Selection.LikeIsWeighedWithLike` | gateway/upstreamer/push/upstreamer.go:195-200 | a latency is never weighed against a load |
| `Selection.LatenciesWeighWhenBothKnown` | gateway/upstreamer/push/upstreamer.go:195-200 | two known latencies that are not zero are the weights, else the loads are |
| `Selection.IdleCandidatesAreNotBalanced` | gateway/upstreamer/push/upstreamer.go:210-231 | with two zero weights every draw tries the same candidate first |
| `Latency.Append` | gateway/upstreamer/push/movingaverage.go:46-61 | the ring moves on by one sample in a fresh array, so no earlier average changes |
| `Latency.Average` | gateway/upstreamer/push/movingaverage.go:29-42 | fails exactly on fewer samples than the size, else the mean of the last ones |
| `Latency.WindowMoves` | gateway/upstreamer/push/movingaverage.go:50-58 | overwriting the next cell and stepping round moves the window of last samples by one |
| `Latency.WindowSum` | gateway/upstreamer/push/movingaverage.go:37-41 | the sum over the ring is the sum of the last samples |
| `Latency.MeanBetween` | gateway/upstreamer/push/movingaverage.go:29-42 | the mean lies between the least and the greatest of the last samples, and is the sample when they are equal |
| `Latency.OlderDoNotCount` | gateway/upstreamer/push/movingaverage.go:46-61 | older samples do not count |
| `Latency.MeanTimesCount` | gateway/upstreamer/push/movingaverage.go:37-41 | the mean times the number of samples is their sum |
| `Latency.LatencyBook.Collect` | gateway/upstreamer/push/upstreamer.go:567-575 | terminates and appends to the history of that address only |
| `Latency.LatencyBook.Weight` | gateway/upstreamer/push/upstreamer.go:182-193 | the mean of the last samples of the address, if there are enough |
| `Peers.RunKeepsInv` | gateway/upstreamer/push/upstreamer.go:487-550 | on every run the count is the size of the map, the own id is not in it, and cached rates are current |
| `Peers.PeersWereHeard` | gateway/upstreamer/push/upstreamer.go:521-550 | a peer's last word was a hello at the recorded date |
| `Peers.HeardPeersStay` | gateway/upstreamer/push/upstreamer.go:503-550 | a peer heard at t stays until t plus the timeout unless it says goodbye |
| `Peers.CleanLeavesTheRecentlyHeard` | gateway/upstreamer/push/upstreamer.go:503-519 | right after a clean tick the peers are exactly those heard within the timeout |
| `Peers.GlobalBudget` | gateway/upstreamer/push/upstreamer.go:68-84 | the rates handed out by live gateways that know each other sum to at most the configured burst and rate, stale peers allowed |
| `Peers.BudgetWhileHellosArrive` | gateway/upstreamer/push/upstreamer.go:494-550 | so they do on any runs on which the hellos arrive in time |
| `Peers.WholeBudgetIsUsed` | gateway/upstreamer/push/upstreamer.go:68-84 | gateways whose peers are exactly the others hand out exactly the configured rate, and the burst but for less than one token each |
| `Peers.StrangersOverspend` | gateway/upstreamer/push/upstreamer.go:68-84 | two gateways that have not heard each other hand out twice the budget |
| `RateRace.StaleExactlyWhenOvertaken` | gateway/upstreamer/push/upstreamer.go:70-80 | for any calls interleaved with the handlers, and no handler between its two operations: the cache is stale exactly when the count changed between the load and the store of the call that filled it, with no reset since |
| `RateRace.StaleExactlyWhenOutrun` | gateway/upstreamer/push/upstreamer.go:70-80 | in every state: stale exactly when the count its rates were computed from is not the present one |
| `RateRace.CacheStaysUntilPeersChange` | gateway/upstreamer/push/upstreamer.go:70-83 | with no call under way a stale cache stays stale until the peers next change |
| `RateRace.PeersFollowTheHandlers` | gateway/upstreamer/push/upstreamer.go:515-549 | peers, count and date do not depend on the calls |
| `RateRace.LostRaceIsStale` | gateway/upstreamer/push/upstreamer.go:70-80 | a hello between a load and its store leaves the rates of a single gateway in the cache |
| `RateRace.LostRaceOverspends` | gateway/upstreamer/push/upstreamer.go:70-80 | two gateways that know each other then hand out more than the configured rate |
| `Peers.DeleteExpired` | gateway/upstreamer/push/upstreamer.go:505-513 | exactly the expired peers go, and they are counted |
| `Peers.PeerTable.HandleHello` | gateway/upstreamer/push/upstreamer.go:530-541 | the hello step, keeping the invariant |
| `Peers.PeerTable.HandleGoodbye` | gateway/upstreamer/push/upstreamer.go:543-549 | the goodbye step, keeping the invariant |
| `Peers.PeerTable.CleanPeers` | gateway/upstreamer/push/upstreamer.go:503-519 | the clean step, keeping the invariant |
| `Peers.PeerTable.ExtractRates` | gateway/upstreamer/push/upstreamer.go:68-84 | cached or not, with n gateways: n answers fit into the configured burst, n greater ones would not, and n limits are the configured rate |
| `Readiness.ReadyExactlyWhen` | gateway/upstreamer/push/upstreamer.go:336-348 | the channel is closed at most once, and is closed exactly when the required names are distinct and all were seen in a hello |
| `Readiness.RepeatedNameNeverReady` | gateway/upstreamer/push/upstreamer.go:336-348 | with `a` required twice it is never closed |
| `Readiness.ReadyStays` | gateway/upstreamer/push/upstreamer.go:419-430 | once closed it stays so |
| `Readiness.ReadyWatch.OnHello` | gateway/upstreamer/push/upstreamer.go:419-430 | after every hello `ready` is closed at most once, and exactly when the required names are distinct and all among the hellos so far |
| `Paths.KeyRoundTrip` | gateway/upstreamer/push/utils.go:134-144 | splitting a key and rebuilding it is the identity exactly on keys without a leading slash |
| `Paths.PrefixRoundTrip` | gateway/upstreamer/push/ping.go:42-48 | prefix and name come back out of a key exactly when the prefix is slash-free and, without one, the name is |
| `Paths.TargetIdentityPanicsExactlyWhen` | gateway/upstreamer/push/utils.go:10-24 | the parser panics exactly on paths that start with two slashes once versions are gone |
| `Paths.DoubleSlashPanics` | gateway/upstreamer/push/utils.go:10-24 | as it does on `//x` |
| `Paths.RequestKey` | gateway/upstreamer/push/utils.go:10-35 | every request for an announced shape, with any version and prefix, is looked up under its prefix and category |
| `Paths.RequestTarget` | gateway/upstreamer/push/utils.go:10-35 | its identity is its category and its prefix the prefix |
| `Paths.PlainTarget` | gateway/upstreamer/push/utils.go:20-34 | for a path of any length without a prefix: the identity is the first segment, or the third when there are that many |
| `Paths.PrefixedTarget` | gateway/upstreamer/push/utils.go:20-34 | and after a prefix likewise |
| `Paths.EveryVersionGoes` | gateway/upstreamer/push/utils.go:8-16 | every version goes, wherever it stands, and nothing else |
| `Paths.RewrittenIsUnprefixed` | gateway/upstreamer/push/upstreamer.go:89-94 | every request for an announced shape goes on with its unprefixed path |
| `Paths.RewriteRestoresPath` | gateway/upstreamer/push/upstreamer.go:89-94 | trimming the prefix gives the unprefixed path |
| `Routes.BuildVersionedRoutes` | meta.go:40-133 | each table is what one order of the identities builds; so URLs strictly increasing, exactly those implied by the relationships, each with exactly its verbs in order and the identity and privacy of a contributor |
| `Routes.CollectBuilders` | meta.go:62-104 | the builders are those of the order in which the identities were walked, the first contributor to a URL giving it its identity |
| `Routes.GivenIsTable` | meta.go:40-133 | every order announces exactly the contributions |
| `Routes.VerbsAnnouncedExactlyWhen` | meta.go:71-103 | a table has a verb at a URL exactly when an identity with a processor announces it: POST for creation on the collection and under parents, GET, DELETE and PUT on the item, GET for listing at the root or under parents |
| `Routes.ShownIsUnique` | meta.go:106-130 | one order has one table |
| `Routes.AddRoute` | meta.go:42-54 | the first contributor to a URL gives it its identity, a later one only a verb |
| `Routes.AddIdentity` | meta.go:66-104 | exactly the contributions of one identity are added |
| `Routes.FlatVerbs` | meta.go:107-112 | the verbs, each once, in increasing order |
| `Routes.LessIsByteOrder` | meta.go:126-130 | the order of URLs and verbs is that of bytes |
| `Routes.SameTablesForEveryOrder` | meta.go:40-133 | for slash-free categories that agree on privacy, two builds give the same tables |
| `Routes.TableIsUnique` | meta.go:40-133 | there is one table when contributors to a URL agree |
| `Routes.OrderMattersExactlyWhen` | meta.go:40-133 | two orders of the identities give different tables exactly when contributors to one URL disagree on category or privacy |
| `Routes.PrivacyByOrder` | meta.go:40-133 | two identities that share a category, one of them private, give two tables |
| `Routes.UrlDeterminesCategory` | meta.go:71-103 | a URL of one of the announced shapes has one slash-free category |
| `EndToEnd.LookedUpKeyIsWrittenExactlyWhen` | gateway/upstreamer/push/utils.go:114-124 | for every URL filling in an announced template the key looked up is the key written for its route, exactly unless an unprefixed service has a slash inside its name |
| `EndToEnd.SlashedNameIsMissed` | gateway/upstreamer/push/utils.go:134-144 | the routes of an unprefixed service named `a/b` are not found |
| `EndToEnd.AnnouncedRoutesAreAnswered` | gateway/upstreamer/push/upstreamer.go:87-106 | on every whole run, a request for a route that a registered service announced last, not private unless private ones are exposed, is not left without an upstream, and goes on unprefixed |
| `LocalPubSub.PanicsExactlyWhen` | pubsub_local.go:103-148 | on every list of commands the broker panics exactly when an unregistration or a publication meets a channel that is still registered although an earlier unregistration closed it |
| `LocalPubSub.ReceivesOncePerRegistration` | pubsub_local.go:103-148 | on every list of commands, up to the panic if there is one, each channel receives every publication once per registration open on its topic, in order, with its topic and content and without reply machinery, and nothing else |
| `LocalPubSub.ReceivesExactlyItsWindow` | pubsub_local.go:103-148 | registered at most once each, a subscriber receives exactly the publications processed between its registration and unregistration, topic and content, once each and in order |
| `LocalPubSub.DeliveredAtIsExact` | pubsub_local.go:127-139 | the positions meant: each as often as there are open registrations, in order |
| `LocalPubSub.SubscribersAgreeOnOrder` | pubsub_local.go:127-139 | two subscribers agree on the order of what both receive |
| `LocalPubSub.NeverPanics` | pubsub_local.go:116-139 | registered at most once each, no channel is sent to or closed after it was closed |
| `LocalPubSub.DoubleRegistrationPanics` | pubsub_local.go:107-139 | with a channel registered twice one does |
| `LocalPubSub.LocalPubSubClient.HandleUnregister` | pubsub_local.go:116-125 | the first occurrence of the channel goes and is closed |
| `LocalPubSub.LocalPubSubClient.HandlePublish` | pubsub_local.go:127-139 | every subscriber of the topic gets one duplicate |
| `LocalPubSub.LocalPubSubClient.Listen` | pubsub_local.go:103-148 | the loop computes the specified run |
| `ReplyHandshake.NextKeepsInv` | publication.go:172-198 | what every step of callers and handler keeps |
| `ReplyHandshake.AtMostOneReply` | publication.go:172-198 | on every interleaving at most one reply is handed over, the client gets that one, and replied and timed out exclude each other |
| `ReplyHandshake.FinishedAnswerMatchesSuccess` | pubsub_nats.go:134-152 | at the end the client has an answer exactly when a call returned success and the publish did not fail |
| `ReplyHandshake.SuccessWithoutAnswerIsReachable` | pubsub_nats.go:141-143 | a call can return success although the client never gets an answer |
| `ReplyHandshake.LateRepliesFail` | publication.go:176-185 | a call not past its checks at expiry can only return the timeout error |
| `ReplyHandshake.OutcomesAreRight` | publication.go:176-190 | on every run a call is told of a nil response, an expiry, an earlier reply or that none is wanted only when that is so, and when none is wanted nothing else |
| `ReplyHandshake.StuckExactlyWhenDeadlocked` | pubsub_nats.go:134-152 | the only stuck unfinished states are those with the handler in the timeout branch and a reply at its send holding the lock |
| `ReplyHandshake.DeadlockEnteredExactlyWhen` | pubsub_nats.go:148-149 | the two steps that lead there |
| `ReplyHandshake.DeadlockIsForEver` | publication.go:187-197 | from there nobody returns and the publication never expires |
| `ReplyHandshake.DeadlockIsReachable` | publication.go:172-198 | one reply and the timer suffice |
| `ReplyHandshake.RunsEndFinishedOrDeadlocked` | publication.go:172-198 | without new calls every run is bounded and ends finished or in that deadlock |
| `NetLimiter.CounterAndLimit` | netlimiter.go:29-70 | on every interleaving the counter is the held connections less the repeated closes, open connections exceed the maximum by at most those, and sockets by at most the closes in flight more |
| `NetLimiter.LimitCanFailExactlyWhen` | netlimiter.go:29-70 | for every maximum and every run, the limit can be exceeded from there exactly when a connection was closed twice |
| `NetLimiter.SocketsCanExceedExactlyWhen` | netlimiter.go:67-70 | sockets can, with no further close, exactly after such a close or during any close |
| `NetLimiter.CloseInFlightOverAdmits` | netlimiter.go:67-70 | two sockets under a maximum of one, during a single close |
| `NetLimiter.CanFill` | netlimiter.go:34-56 | from every state the limiter fills up to exactly the maximum plus the repeated closes |
| `NetLimiter.LimitHolds` | netlimiter.go:34-70 | with single closes the counter is open connections plus those in flight, open ones never exceed the maximum and sockets only by the closes in flight |
| `NetLimiter.RefusedExactlyWhenFull` | netlimiter.go:43-52 | whatever happens in between, a connection is refused exactly when, as it was counted, the others held the maximum, repeated closes taken off |
| `NetLimiter.RefusedWithNoneOpen` | netlimiter.go:43-52 | which can happen while none is open |
| `NetLimiter.RepeatedCloseOverAdmits` | netlimiter.go:67-70 | one repeated close lets two connections be open under a maximum of one |
| `NetLimiter.ZeroMeansUnlimited` | netlimiter.go:43-52 | a maximum of zero refuses nothing |
| `NetLimiter.NegativeRefusesAll` | netlimiter.go:43-52 | a negative maximum refuses everything |
| `PushSession.FramesKeepOrder` | websocket_push_session.go:251-273 | frames written followed by frames queued are the accepted sends in order, and at most 64 wait |
| `PushSession.DroppedExactlyWhenFull` | websocket_push_session.go:253-263 | every frame offered is accepted or dropped, dropped exactly when 64 wait |
| `PushSession.OfferedFrames` | websocket_push_session.go:194-212 | what is offered: every frame sent, and the error event of a rejected message when error events are on |
| `PushSession.WritesDrain` | websocket_push_session.go:271-273 | a running loop writes the waiting frames out, oldest first |
| `PushSession.ErrorStateIsLastVerdict` | websocket_push_session.go:275-318 | while the loop runs the error state holds exactly when the last client message was rejected |
| `PushSession.ConfigIsLastAccepted` | websocket_push_session.go:275-318 | the push configuration is the last accepted one, none before |
| `PushSession.ErrorEventsSwitchedOn` | websocket_push_session.go:189-192 | error events are on exactly when the request or some accepted configuration asked for them |
| `PushSession.ParameterIsLastGiven` | websocket_push_session.go:225-240 | a parameter has the value last given by an accepted configuration, else the request's |
| `PushSession.LoopEndsExactlyWhen` | websocket_push_session.go:265-331 | on every run the loop has ended exactly when the connection or the context is done, or a rejected message came when neither the request nor an earlier accepted configuration had asked for error events |
| `PushSession.WsPushSession.SetCurrentPushConfig` | websocket_push_session.go:225-240 | the configuration is replaced and its parameters merged over the present ones |
| `PushSession.WsPushSession.Listen` | websocket_push_session.go:265-331 | the loop computes the specified run |

## Left out

- NATS and HTTP input and output, encoding and decoding of messages, websockets: events arrive decoded, and undecodable ones are either dropped before the model or, in the push session, an event of their own.
- The global service topic and the rewriting of endpoint addresses (gateway/upstreamer/push/upstreamer.go:292-334 and 398-403): pings arrive merged and rewritten.
- The `versions` field of a service, which nothing modelled reads.
- Floating-point rounding and integer overflow: reals and unbounded integers stand for floats and machine integers.
- Refill of the token bucket: a limiter has a number of tokens, its current limit and its current burst; nothing is claimed about when tokens come back, nor about the special treatment of a limit that is zero or infinite.
- Locking inside the upstreamer: each handler and each request is one step, as are the rate adjustments inside a request; the places studied at a finer grain are the rate cache (`RateRace.dfy`) and the adjustment of a limiter (`LimiterRace.dfy`).
- A clock that stands still: the dates of peer changes are strictly increasing and later than zero, which is the date of something that never happened.
- Services as heap objects: a service is reachable only through the map of services, so it is a record there; endpoints and limiters, which the index and the requests share, are objects.
- Endpoints with an empty address: the source then returns the same as for no upstream; the model tells the two apart.
- Order of reading weights and adjusting limiters: both happen inside one step, and neither affects the other.
- ReplyHandshake.NextKeepsInv: the mutex, channel and timer are states of interleaved steps on values rather than an updated object; the acknowledgement mode and blocking on the error channel are not modelled.
- NetLimiter.CounterAndLimit: the counter is modelled on values as interleaved atomic steps rather than as an updated object; errors of the underlying listener, and sockets that `Accept` has not answered for yet, are not modelled.
- LocalPubSub.ReceivesOncePerRegistration: the order is that of processing; the buffer of 1024 publications, subscribers that never read, calling an unsubscribe function twice, and which of the sends of the publication that panics still happen are not modelled.
- The notifier, `gateway.go`, rewriters, limiters and listeners of the gateway, dispatchers, handlers, the REST, health, profiling and metrics servers, CORS, tracing and authorizers: pipelines that would add easy members only.
