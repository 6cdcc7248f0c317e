# Agent quota gateway: routing, registry and parks

This project models the parts of the gateway that decide which backend serves a request and
keep that decision stable: each pool's controller with its sticky pointer, its recorded parks and
its worker assignments; parks mirrored between pools that share a nick; the copy-on-write pool
registry and the runtime changes to it; the shared quota store; and four machines beside them, the
preempt-back loop, the probe bookkeeping, the debounced flusher and the activity ring, with the
peek at a Codex event stream and the migration of legacy state. It proves what each of them keeps
over whole runs.

`dafny verify dfyconfig.toml` checks everything.

## How it is laid out

| file | what it holds |
|---|---|
| Common | options, instants, the byte order on names, ascending listings of sets |
| Quota | snapshots, the merge with its precision gate, concurrent observers |
| Names, Registry, RegistryEdits, RegistryBuild | normalisation; what a registry is; the mutators and their effects; the loops that build one |
| Availability, Routing, Workers, Parks, Restart, Reconcile | one controller as a value: when a member is selectable, what each locked step does, and the theorems about it |
| Controller | the controller object; every method is proved against those functions |
| Propagation | parks of one nick over several pools, one lock at a time, as a protocol |
| Mutations, Effects, Drift, Verdicts, Pools | runtime requests: what they are judged to be and the mirror they keep; what rotations and moves come to; names that do not settle; the rulings, in terms of the registry alone; the objects and loops that carry them out |
| Preempt, Reprobe, Recovery | preempt-back; probes as a protocol; the probe book, recovery passes and clears |
| Sse, Activity, Debounce, Migration, KeyOrder | the small machines; overlays that name a pool twice |

A class is proved against functions on its value (`View()`), and the properties are lemmas about
those functions. Protocols are steps that may interleave freely; a run is a sequence of steps.
What a function comes to is said again by a lemma that does not name it, in terms of the fields, the order, the
registry and the clock (names ending in `Exactly`, `Ruled`, `Lands`, `Takes` and `Reaches` for the most part).

## Conventions

- An instant is an integer number of nanoseconds. A zero `time.Time` that means "absent" is `None`.
- A locked step reads the clock and the store once: they come in as a `World`. A nil store is an empty
  one; a key the store does not know reads as the empty snapshot.
- The quota key of a member is its nick.
- Provider tests, the URL check, the validity of worker names and the verdict on a stream event's payload
  are parameters, so the theorems hold for every choice of them.
- Names are over ASCII. Bytes of a stream are characters.
- Go's maps are iterated by picking any remaining key, so a method that names its result shows that
  the order does not matter.

## What turned out false, and what holds instead

- Normalising a name is not idempotent (`Names.NotIdempotent`). Registry round trips hold exactly for
  canonical names (`Registry.RoundTripExactly`); a request that introduces a name which does not
  settle leaves registry and controllers apart, for pools (`Drift.CreateDrifts`) and for nicks
  (`Drift.AddDrifts`, `Drift.UnsettledIsLost`), and `Drift.MirrorKeptExactly` says exactly when.
  Such a nick may also pass the duplicate check and write over a member (`Drift.AddReplaces`,
  `Drift.AddGrows`). The comments take normalised names to be fixed points.
- A dry answer's wait is not always enough: a park that a fresh snapshot masks comes back when the snapshot
  ages (`Parks.DryWaitFallsShort`). `Routing.DryWaitIsEnough` gives the exact condition.
- A rejected window without a reset and without an `AsOf` never lapses (`Availability.ZeroAsOfNeverLapses`); the
  comment beside the code (internal/auto/auto.go:4113-4121) expects it to expire. `Availability.BlockLapsesExactly`
  says exactly when a block does.
- The stored reset may regress under concurrent observers (`Quota.ResetMayRegress`), exactly when
  `Quota.ResetGoesBackExactly` says; only its presence and its precision never do.
- A mirrored park keeps a sibling's older, longer entry. A z.ai park lends it its `since`; an auth rejection
  has none to lend, so in that sibling the store may still retire the longer quota park
  (`Propagation.AuthParkNotTaken`, `Propagation.GuardTakenExactly`). A later, longer fallback park likewise ends a z.ai guard
  (`Propagation.StaleParkOvertaken`, `Propagation.GuardKeptExactly`).
- A recovery pass reports a member recovered although the store, which it does not update, may go on
  blocking it (`Reprobe.HealthyProbeMayNotFree`, `Reprobe.ClearedExactly`).
- A tick of the preemptor may spend its one attempt on a recovered member that is still blocked and pass by an
  available one below it (`Preempt.TickPassesBy`). `Preempt.TickClimbsExactly` says exactly when it climbs, and
  `Preempt.ClimbsWithin` bounds how long it can fail to.
- Two keys of the legacy overlay that mean one pool can make the migration depend on map order
  (`KeyOrder.OrderShows`, exactly as `KeyOrder.OrderMattersExactly` says), and a rerun after a crash undo it
  (`KeyOrder.RerunFlips`, `KeyOrder.RerunExactly`, `KeyOrder.CrashSafeExactly`).

## Model

| member | source | states |
|---|---|---|
| Quota.Store.Restore | cmd/agent-quota-gateway/main.go:224-226 | a start puts back every persisted snapshot whole and drops none it has, in whatever order the map is walked |
| Quota.Store.Merge | internal/quota/quota.go:224-313 | filing an observation folds it into what the key holds, field by field, and leaves every other key alone |
| Quota.Store.Get | internal/quota/quota.go:318-326 | a snapshot with data was filed under that very key |
| Quota.MergeClosedForm | internal/quota/quota.go:252-313 | after any history of merges every plain field is the last present value, and each reset is the last precise one, or the first fallback if none was precise |
| Quota.MergeAssociative | internal/quota/quota.go:252-313 | folding two observations first and then a third is folding all three |
| Quota.ResetsNeverDegrade | cmd/agent-quota-gateway/main.go:94-123 | in every interleaving of observers that read, overlay and merge, a known reset stays known and a precise one precise |
| Quota.ResetGoesBackExactly | internal/quota/codex.go:115-165 | a filing moves a known reset exactly when the window it goes by (the header's, the metered one's or the one read before) is precise and differs, and back exactly when that one is earlier |
| Quota.ResetMayRegress | cmd/agent-quota-gateway/main.go:94-123 | two interleaved responses leave the older precise reset in the store: the value, unlike its precision, may go back |
| Quota.FilingLeaves | internal/quota/codex.go:115-165 | a response that says nothing of quotas leaves the key alone; else a window's use and length are the metered ones, or those said, or those read before, or the stored ones, and every other plain field is what was said, or what is stored |
| Names.NormalizeTwice | internal/backend/backend.go:996-1000 | a second normalisation changes a name exactly when the first left white space at an end, and then shortens it |
| Names.NotIdempotent | internal/backend/backend.go:996-1000 | "- a" becomes " a", which becomes "a" |
| Names.NormalizeExactly | internal/backend/backend.go:996-1000 | white space is cut from both ends, all of it; the rest is folded letter by letter, capitals to small and underscores to hyphens; then hyphens are cut from both ends, all of them |
| Registry.BuildWF | internal/backend/backend.go:476-630 | whatever is built has sorted nicks, orders over members, valid upstreams, and one credential to a nick and one nick to a credential across pools |
| Registry.RoundTrip | internal/backend/backend.go:767-797 | building the file shape of a registry with canonical names gives that registry back |
| Registry.RoundTripExactly | internal/backend/backend.go:184-296 | a built registry survives the round trip exactly when all its pool names and nicks are canonical |
| RegistryBuild.DistinctNames | internal/backend/backend.go:196-243 | the nested scan accepts a set of keys exactly when none vanishes and no two meet under normalisation |
| RegistryBuild.NormalizeOrder | internal/backend/backend.go:268-285 | a preference list is accepted exactly when its normalised entries are non-empty and distinct |
| RegistryBuild.CheckBijection | internal/backend/backend.go:515-544 | the two running tables accept the declarations exactly when nick and credential determine each other |
| RegistryBuild.ReadSpec | internal/backend/backend.go:184-296 | the syntactic pass accepts exactly the file shapes whose keys and orders are good, and lists each declaration once under normalised names |
| RegistryBuild.BuildRegistry | internal/backend/backend.go:476-630 | the checks in sequence accept exactly the buildable input, and assemble every pool from its own declarations |
| RegistryBuild.BuildFromSpec | internal/backend/backend.go:184-296 | one verdict and one registry, in whatever order the maps are walked |
| RegistryBuild.DeriveSpec | internal/backend/backend.go:767-797 | the loop over pools and members yields the file shape that `SpecOf` describes |
| RegistryBuild.SetMember | internal/backend/backend.go:805-818 | `WithMemberSet` as derive, edit one member, rebuild |
| RegistryBuild.RemoveMember | internal/backend/backend.go:823-855 | `WithMemberRemoved`, order pruned and the upstream of an emptied pool dropped |
| RegistryBuild.DisableMember | internal/backend/backend.go:860-875 | `WithMemberDisabled` as derive, edit, rebuild |
| RegistryBuild.SetPriority | internal/backend/backend.go:880-894 | `WithPriority` as derive, edit, rebuild |
| RegistryBuild.SetConcurrency | internal/backend/backend.go:900-910 | `WithPoolConcurrency` as derive, edit, rebuild |
| RegistryBuild.CreatePool | internal/backend/backend.go:915-926 | `WithPoolCreated` as derive, edit, rebuild |
| RegistryBuild.RemovePool | internal/backend/backend.go:934-942 | `WithPoolRemoved` as derive, edit, rebuild |
| RegistryBuild.RenamePool | internal/backend/backend.go:958-981 | `WithPoolRenamed` as derive, edit, rebuild |
| RegistryEdits.EditOnePool | internal/backend/backend.go:767-981 | installing a file shape under one pool changes that pool and no other, bit for bit |
| RegistryEdits.EditSaneExactly | internal/backend/backend.go:767-981 | every edit leaves the other pools alone; the result is sane exactly when the nicks it files are canonical |
| RegistryEdits.MemberSetExactly | internal/backend/backend.go:805-818 | setting a member files exactly one nick, normalised twice, with that credential, and keeps the registry sane exactly when that nick is canonical |
| RegistryEdits.EditAccepted | internal/backend/backend.go:476-630 | an edit that keeps a pool's credentials and is good in itself is never refused |
| RegistryEdits.PriorityEffect | internal/backend/backend.go:880-894 | only the order of the named pool changes |
| RegistryEdits.ConcurrencyEffect | internal/backend/backend.go:900-910 | only the concurrency of the named pool changes |
| RegistryEdits.DisabledEffect | internal/backend/backend.go:860-875 | only the flag of the named member changes |
| RegistryEdits.MemberSetEffect | internal/backend/backend.go:805-818 | only the named member is written, with the pool's upstream where it names none |
| RegistryEdits.CreatedEffect | internal/backend/backend.go:915-926 | exactly one empty pool is added |
| RegistryEdits.RemovedEffect | internal/backend/backend.go:934-942 | exactly the named pool goes; refused exactly when it is unknown |
| RegistryEdits.RemovedMemberExactly | internal/backend/backend.go:823-855 | removing a member is refused exactly when it is unknown; it goes from collection and order, an emptied pool goes back to the default upstream, nothing else changes |
| RegistryEdits.RenamedEffect | internal/backend/backend.go:958-981 | the pool moves with its members, order and flags; the rest stays |
| RegistryEdits.RenameThereAndBack | internal/backend/backend.go:958-981 | renaming a pool and renaming it back is the identity |
| RegistryEdits.AddThenRemove | internal/backend/backend.go:805-855 | adding a member under a fresh nick and removing it restores the registry |
| Availability.WaitBound | internal/auto/auto.go:3949-3988 | with no further event an enabled member is selectable from the latest of its park resets, window resets and `AsOf` + 5h on |
| Availability.BlockLapsesExactly | internal/auto/auto.go:4045-4138 | what a snapshot blocks lapses for good exactly if it has an `AsOf` or no window that counts is rejected without a reset |
| Availability.ZeroAsOfNeverLapses | internal/auto/auto.go:4102-4122 | the other case: without an `AsOf` a rejected 5h window without a reset blocks at every time, each time for five hours more |
| Availability.ReconcilingLater | internal/auto/auto.go:4003-4024 | a snapshot that masks parks masks them for as long as it is fresh, and no longer |
| Availability.SelectableFromBound | internal/auto/auto.go:3949-3988 | the reported bound is enough from then on, exactly unless a fresh snapshot now masks a quota park that outlives both the bound and that freshness |
| Availability.QuotaParkMaskedExactly | internal/auto/auto.go:4003-4024 | a live quota park is masked exactly when the member's snapshot has data and an `AsOf` at most five minutes old, and no window that counts is rejected with its reset absent or ahead, or statusless and full |
| Availability.CredentialParkMaskedExactly | internal/auto/auto.go:4032-4043 | a credential park is masked exactly when it is a quota fact and such a snapshot is later than what it was made on |
| Availability.ExhaustedUntilExactly | internal/auto/auto.go:3949-3988 | the reported bound is the last instant until which an unmasked park or a rejected window holds the member, and there is one exactly if something does |
| Availability.UnavailableExactly | internal/auto/auto.go:2352-2358 | unavailable is whoever is disabled or held by something |
| Availability.FullAloneBlocksNobody | internal/auto/auto.go:3990-3994 | a full window without a status keeps a park standing, but alone it blocks nobody |
| Availability.RejectsExactly | internal/auto/auto.go:4176-4201 | a snapshot rejects exactly if a window that counts is rejected with its reset absent or ahead, or is full without a status in a snapshot at most five minutes old |
| Availability.StoreBoundIsFirst | internal/auto/auto.go:4045-4138 | the bound is not late: with an `AsOf` the store blocks until that instant and no longer |
| Routing.AutoIsTiered | internal/auto/auto.go:2364-2421 | the answer is the available sticky member, else the highest-ranked available, else the first enabled of an auth-only pool, else the first enabled without a live park, else dry until the soonest; only the pointer and lapsed parks change |
| Routing.DryExactly | internal/auto/auto.go:2364-2421 | dry exactly when nobody is available, every enabled member is parked on record and not by auth rejections alone; otherwise an enabled member is returned |
| Routing.DryWaitIsEnough | internal/auto/auto.go:4207-4226 | from now plus the wait on the member named is selectable, exactly unless a masked quota park of it outlasts that |
| Routing.SoonestFirst | internal/auto/auto.go:4207-4226 | of the enabled members that free up first, at the same time, it is the one listed first |
| Parks.FailureFiled | internal/auto/auto.go:3634-3643 | after a failure the member's quota park is the reported reset, if that is ahead, and so is its credential park if the store cannot hold it; other live entries stand as they were |
| Parks.FailureRotates | internal/auto/auto.go:3645-3660 | a sticky member still available stays; else the pool goes to its highest-ranked available one; only if there is none is everybody reported exhausted, with the pointer and the wait of a dry pool |
| Parks.ReleaseTakes | internal/auto/auto.go:1636-1652 | a sibling's release takes the credential park, and the quota entry only if it is the same instant |
| Parks.AuthClearTakes | internal/auto/auto.go:2631-2650 | an auth clear takes a rejection and its mirror, nothing else; the pointer moves only from a member unavailable still |
| Parks.RecoveryTakes | internal/auto/preempt.go:343-357 | a recovery takes the quota park and a credential park that is a quota fact, and no rejection |
| Parks.MirrorLeaves | internal/auto/auto.go:1570-1578 | what mirroring leaves: the later of the two entries, and of a kept quota fact the later `since` |
| Parks.TwofoldReached | internal/auto/auto.go:3634-3665 | a 401, a late 429 and a healthy snapshot bring a one-member pool into such a state |
| Parks.DryWaitFallsShort | internal/auto/auto.go:4176-4226 | there the answer is dry for a minute, and the member is still not selectable after six |
| Workers.NextSlotLeast | internal/auto/auto.go:2223-2249 | a worker is reassigned to a least-loaded member of the window |
| Workers.TiesGoRound | internal/auto/auto.go:2223-2249 | every window member passed over between the cursor and the choice carries more |
| Workers.RequestMoves | internal/auto/auto.go:2453-2499 | a request leaves its worker where it is, or moves it to a least-loaded window member, and answers with where it is |
| Workers.OthersKept | internal/auto/auto.go:2429-2516 | in every state and at every concurrency a request leaves the assignment of each other worker that has not gone idle |
| Workers.RequestServed | internal/auto/auto.go:2429-2499 | in any state with somebody available, from a known worker or a new one: assignments idle for an hour go, its own stays if its member is in the window with at most one more than the least, else it takes a least-loaded member, and that member serves |
| Workers.RequestRotates | internal/auto/auto.go:2223-2249 | a worker that moves takes the first least-loaded member from the cursor on, and the cursor goes to the one after it |
| Workers.NobodyServes | internal/auto/auto.go:2502-2516 | with nobody available the caller is left unassigned; the answer is dry, until the soonest enabled member frees up, exactly unless every enabled member is kept out by rejections alone: then it is the first of those |
| Workers.WindowExactly | internal/auto/auto.go:2113-2133 | the window is the available members among the first so many of the order, as listed there, as many as the concurrency or all there are |
| Workers.OneAtATime | internal/auto/auto.go:2429-2445 | at concurrency 1 a worker is answered by the tiers like anybody and noted as seen |
| Workers.MoveShrinks | internal/auto/auto.go:2453-2499 | a request that moves a worker makes (workers outside the window, sum of squared loads) smaller |
| Workers.Balanced | internal/auto/auto.go:2206-2249 | when no request would move anyone, all workers are in the window and loads differ by at most one |
| Workers.MovesAreBounded | internal/auto/auto.go:2453-2499 | however many requests the workers send, while clocks go on and parks lapse but the window stays and nobody goes idle, the number of moves in all stays within a bound known beforehand |
| Restart.RestartKeepsParks | internal/auto/auto.go:2858-2924 | every live park of a member survives, class, reset and `since` included |
| Restart.ReanchorLands | internal/auto/auto.go:3013-3029 | a healthy pointer stays; otherwise it goes to the highest-ranked available member, or else to the one that frees up first |
| Restart.FreshLands | internal/auto/auto.go:1907-2000 | a new controller starts at its highest-ranked member that is enabled and not held by the store, or else at the first of its order |
| Restart.AutoTransparent | internal/auto/auto.go:2858-3029 | after a restart the next `ResolveAuto` has the same verdict, wait and, unless dry, backend, though the pointer is re-anchored before credential parks are back |
| Restart.RestartWorkers | internal/auto/auto.go:2929-3005 | assignments survive, less idle workers, and the cursor comes back to the same window member |
| Restart.WorkerTransparent | internal/auto/auto.go:2429-2516 | the same for the next `ResolveWorker`, at every concurrency |
| Restart.AffinityStaysGood | internal/auto/auto.go:2453-2499 | assignments name valid workers and real members, and every request keeps them so |
| Parks.AuthParkHolds | internal/auto/auto.go:3976-3981 | before its reset no sequence of merges, waiting, resolutions, preempt ticks and other members' failures makes an auth-parked member selectable in its pool |
| Parks.AuthClearReleases | internal/auto/auto.go:2631-2650 | an auth clear makes the member selectable at once, other signals aside |
| Reconcile.OrderShape | internal/auto/auto.go:2086-2103 | the order is a permutation of the members, the declared list its prefix, the tail ascending |
| Reconcile.ReconcileMirrors | internal/auto/auto.go:2011-2081 | after reconciling the controller shows the registry's pool, keeps its pointer if that member stayed, and keeps exactly the parks of current members |
| Reconcile.ReconcileLands | internal/auto/auto.go:2011-2081 | a pointer whose member left goes to the highest-ranked available one, or to nobody; assignments end at concurrency 1, and above it those of valid workers stand, with a cursor in the window |
| Controller.Controller.constructor | internal/auto/auto.go:1907-2000 | a new controller is anchored on its first healthy nick, else on the first of its order; a nick that is no member stands for the last member |
| Controller.Controller.TotalOrder | internal/auto/auto.go:2086-2103 | the two loops produce the declared nicks and then the others sorted |
| Controller.Controller.StoreBlockBound | internal/auto/auto.go:4045-4138 | the latest bound of the blocking windows, if still ahead |
| Controller.Controller.ExhaustedUntilNick | internal/auto/auto.go:3949-3988 | the latest of the three signals, each with its own way to lapse |
| Controller.Controller.IsUnavailable | internal/auto/auto.go:2352-2358 | disabled or exhausted |
| Controller.Controller.FirstHealthyNick | internal/auto/auto.go:4252-4259 | the highest-ranked available member |
| Controller.Controller.AuthOnlyNick | internal/auto/auto.go:4266-4290 | the first enabled member when every enabled one is parked by an auth rejection alone |
| Controller.Controller.NextUnparkedNick | internal/auto/auto.go:4307-4334 | the first enabled member without a live recorded park |
| Controller.Controller.SoonestNick | internal/auto/auto.go:4207-4226 | the enabled member that frees up first, the earlier on a tie |
| Controller.Controller.ClearExpiredParks | internal/auto/auto.go:3890-3902 | exactly the lapsed entries of both maps go |
| Controller.Controller.ResolveAuto | internal/auto/auto.go:2364-2421 | the locked step answers and moves the pointer as the tiers of `Routing` say |
| Controller.Controller.Record429Entry | internal/auto/auto.go:3634-3665 | the failed member is parked unconditionally; the pool rotates only if its sticky member is unavailable |
| Controller.Controller.ReanchorPointer | internal/auto/auto.go:3013-3029 | a healthy pointer stays; otherwise the first healthy, else the soonest member |
| Controller.Controller.ClearAuthPark | internal/auto/auto.go:2631-2650 | only an auth park goes, with the quota entry equal to it |
| Controller.Controller.ClearMirroredPark | internal/auto/auto.go:1636-1652 | a sibling's release, whatever the class |
| Controller.Controller.MirrorPark | internal/auto/auto.go:1570-1578 | a later reset replaces, a tie keeps the class, a kept quota park adopts a later `since` |
| Controller.Controller.NoteRecoveredNick | internal/auto/preempt.go:343-357 | a precise reset lifts quota parks and never a credential rejection |
| Controller.Controller.WorkerWindow | internal/auto/auto.go:2113-2133 | the first `concurrency` available members in order |
| Controller.Controller.NormalizeCursor | internal/auto/auto.go:2189-2202 | a cursor outside the window goes to its head |
| Controller.Controller.PruneObservations | internal/auto/auto.go:2289-2308 | exactly the workers unseen for more than an hour go |
| Controller.Controller.NextReassignment | internal/auto/auto.go:2223-2249 | the first least-loaded slot from the cursor on |
| Controller.Controller.ResolveWorker | internal/auto/auto.go:2429-2516 | the whole step for a valid worker name |
| Controller.Controller.LoadRouting | internal/auto/auto.go:2858-2896 | pointer and quota parks restored, then re-anchored |
| Controller.Controller.LoadCredentialPark | internal/auto/auto.go:2903-2924 | live credential parks of members restored |
| Controller.Controller.ReconcileWith | internal/auto/auto.go:2011-2081 | the configuration is taken over, parks and workers follow, a lost pointer moves |
| Controller.Controller.ReconcileWorkers | internal/auto/auto.go:2256-2282 | assignments end at concurrency 1, and otherwise keep valid workers and a cursor in the window |
| Controller.Controller.PreemptTo | internal/auto/preempt.go:297-317 | only upwards, only onto an available member |
| Propagation.Progress | internal/auto/auto.go:1536-1584 | each task holds one lock at most; while one is unfinished some task can advance, and each advance brings the end one step closer |
| Propagation.Completes | internal/auto/auto.go:1536-1584 | once failures stop, a number of steps known beforehand finishes every task |
| Propagation.StepParked | internal/auto/auto.go:1556-1584 | a pool's park of the nick moves only when a task writes there: unconditionally at its origin, by the later reset at a sibling |
| Propagation.DeliveryNeverShortens | internal/auto/auto.go:1570-1578 | a delivery never shortens a sibling's park and keeps its class unless it lengthens it |
| Propagation.LocalWriteMayShorten | internal/auto/auto.go:3638-3641 | the origin's own write cuts an hour's park to a minute |
| Propagation.PropagationJoins | internal/auto/auto.go:1536-1584 | in any interleaving a pool that asserted nothing ends with the latest of its initial and all asserted resets, its class kept on a tie |
| Propagation.OrderDoesNotMatter | internal/auto/auto.go:1536-1584 | two finished runs that asserted the same entries leave the same reset |
| Propagation.StaleParkHolds | internal/auto/auto.go:3130-3136 | once the z.ai park recorded at t has reached a pool, no store content as of t or earlier makes the member selectable there before the bound, older and longer entries included, whatever lapsed or was swept meanwhile |
| Propagation.GuardKeptExactly | internal/auto/auto.go:1570-1578 | a guard survives a delivery exactly unless that is longer and retirable on what was known at t |
| Propagation.GuardTakenExactly | internal/auto/auto.go:1570-1578 | a guard reaching a sibling guards there exactly unless a longer, retirable entry is already in place and the newcomer brings no `since` |
| Propagation.AuthParkNotTaken | internal/auto/auto.go:1570-1578 | an auth rejection mirrored onto a longer quota park does not take hold: a fresh snapshot retires that one and the member is selectable |
| Propagation.StaleParkOvertaken | internal/auto/auto.go:1570-1578 | a longer fallback park without `since` ends the guard |
| Mutations.CommitsAreGood | internal/auto/auto.go:569-1044 | whatever request commits, the new registry is well formed and differs only in the pools it names |
| Mutations.CommitMirrors | internal/auto/auto.go:1465-1474 | reconciling just the named controllers keeps every controller in step with the registry |
| Drift.MirrorHolds | internal/auto/auto.go:569-1044 | over any sequence of runtime requests, accepted or refused, the controllers are the registry's pools and each shows its members, flags, order and concurrency, throughout, exactly when every accepted request introduces only names that settle |
| Mutations.BootMirrors | internal/auto/auto.go:175-194 | so it is at start |
| Mutations.MirrorMeans | internal/backend/backend.go:515-545 | each order is a permutation with the declared prefix and a sorted tail, flags and concurrency are the registry's, and nick and credential determine each other across controllers |
| Mutations.OnlyNamedChange | internal/auto/auto.go:1465-1474 | a refused request changes nothing; an accepted one leaves pools it does not name, and their controllers, as they were |
| Drift.MirrorKeptExactly | internal/auto/auto.go:569-1389 | an accepted request keeps the mirror exactly when the pool name it introduces is canonical after one normalisation and the nick after the three it goes through |
| Drift.AddGrows | internal/auto/auto.go:697-829 | an accepted addition adds exactly the nick it is filed under, and can land on an existing member only if it came in unsettled |
| Drift.AddReplaces | internal/auto/auto.go:760-765 | "- a" passes the duplicate check of a pool holding "a" and writes that member over |
| Drift.UnsettledIsLost | internal/auto/auto.go:2011-2031 | a nick filed non-canonical is in the registry, but its controller never shows it with its credential |
| Drift.AddDrifts | internal/auto/auto.go:697-829 | "- - - - a" is accepted and filed as " - a", and the pool's controller stays without members |
| Effects.RotatedEffect | internal/auto/auto.go:885-905 | a rotation changes one credential and keeps every other declaration |
| Effects.MoveEffect | internal/auto/auto.go:1018-1038 | an accepted move takes the member out of its pool and puts it, with the credential and upstream it had there, into the other; all other members of both stay |
| Drift.CreateDrifts | internal/auto/auto.go:1230-1260 | a first pool asked for as "- a" is filed under "a" while its controller is under " a" |
| Verdicts.PriorityRuled | internal/auto/auto.go:573-616 | an order is taken exactly if it lists members of the pool, each once, and becomes the pool's; 404 for an unknown pool, else 400 |
| Verdicts.ConcurrencyRuled | internal/auto/auto.go:622-641 | a concurrency is taken exactly if it is at least one and the pool is known |
| Verdicts.DisableRuled | internal/auto/auto.go:652-685 | a flag is set exactly on a member the pool has; nothing else changes |
| Verdicts.AddRuled | internal/auto/auto.go:697-829 | when an addition is refused and with which status, over URL, pool, borrowed credential and upstream, duplicate, placement and contradiction with what is declared; and the new registry, whole, when it is not |
| Verdicts.BorrowRuled | internal/auto/auto.go:724-758 | an omitted credential is the one the other pools declare; an omitted upstream is theirs unless they differ; refused exactly when there is none to borrow, or they differ |
| Verdicts.UpsertRuled | internal/auto/auto.go:842-912 | an upsert of a member with the credential it has is no change, of a shared nick is refused, else a rotation to a credential not in use; of another nick an addition |
| Verdicts.RemoveRuled | internal/auto/auto.go:919-948 | a member is removed exactly if the pool has it: gone from collection and order, the rest as it was, an emptied pool back on the default upstream |
| Verdicts.MoveRuled | internal/auto/auto.go:966-1044 | a move is accepted exactly if the source has the member and the target admits it (the same upstream there, by force, or well placed); the new registry, whole |
| Verdicts.CreateRuled | internal/auto/auto.go:1147-1221 | a pool is created exactly if it is well asked for, its name is free as read and as filed, and its first member, if any, can be sourced and set |
| Verdicts.DropRuled | internal/auto/auto.go:1272-1301 | a pool is removed exactly if it is known and has no member, 404 and 409 otherwise; what is left is the registry without it |
| Verdicts.RenameRuled | internal/auto/auto.go:1324-1389 | a rename is accepted exactly if the new name is another one and free, as read and as filed; the pool keeps all it has |
| Verdicts.SetRuled | internal/backend/backend.go:805-818 | setting a member is accepted exactly if its nick is filed apart, its upstream is valid, and no nick or credential declared anywhere contradicts it; nothing else changes |
| Verdicts.RotateRuled | internal/auto/auto.go:885-905 | a rotation is accepted exactly if the credential contradicts nothing declared |
| Pools.Pools.constructor | internal/auto/auto.go:175-194 | one controller for each pool of the registry, none shared |
| Pools.Pools.ApplyRegistry | internal/auto/auto.go:1465-1474 | the named controllers reconcile one after the other, the others are not touched |
| Pools.Pools.PropagatePark | internal/auto/auto.go:1556-1584 | every other pool holding the nick takes the park, one controller at a time |
| Pools.Pools.PropagateAuthClear | internal/auto/auto.go:1590-1615 | every other pool holding the nick drops an auth park of it and nothing else |
| Pools.Pools.PropagateClear | internal/auto/auto.go:1621-1656 | every other pool holding the nick drops its park |
| Pools.Pools.ClearAuthRejected | internal/auto/auto.go:2631-2650 | the pool first, the siblings only if it had an auth park |
| Pools.Pools.CrossResolve | internal/auto/auto.go:1491-1512 | the distinct credentials and upstreams a nick has in the other pools |
| Pools.Pools.BorrowFrom | internal/auto/auto.go:724-758 | an omitted credential must be known elsewhere and alike, an omitted upstream not ambiguous |
| Pools.Pools.CheckPlacement | internal/auto/auto.go:1051-1085 | a placement is accepted exactly when the pool is ordered and it lists members and the newcomer, each once |
| Pools.Pools.SetPriority | internal/auto/auto.go:573-616 | status and new state as judged |
| Pools.Pools.SetConcurrency | internal/auto/auto.go:622-641 | status and new state as judged |
| Pools.Pools.SetMemberDisabled | internal/auto/auto.go:652-685 | status and new state as judged |
| Pools.Pools.AddMember | internal/auto/auto.go:697-829 | status and new state as judged, with borrowed credential and upstream |
| Pools.Pools.UpsertMember | internal/auto/auto.go:842-912 | status and new state as judged: a repeat is no change, a shared nick is refused |
| Pools.Pools.RemoveMember | internal/auto/auto.go:919-948 | status and new state as judged |
| Pools.Pools.MoveMember | internal/auto/auto.go:966-1044 | status and new state as judged, both halves in one new registry |
| Pools.Pools.CreatePoolWithMember | internal/auto/auto.go:1147-1221 | the pool, its first member and its controller appear together or not at all |
| Pools.Pools.RemovePool | internal/auto/auto.go:1272-1301 | only a drained pool goes, controller and all |
| Pools.Pools.RenamePool | internal/auto/auto.go:1324-1389 | the same controller under another name, its observations untouched |
| Pools.AuthClearsExactly | internal/auto/auto.go:1590-1615 | a response that is no credential rejection lifts the member's auth park in its pool and then in every pool holding the nick, and leaves every other park in every pool |
| Pools.ReachesExactly | internal/auto/auto.go:1556-1656 | a mirrored park, an auth clear and a release reach exactly the other pools that declare the nick |
| Pools.RecoveryReaches | internal/auto/preempt.go:343-357 | a recovery by the preemptor lifts a sibling's park exactly if it dropped one that was a quota fact on the credential |
| Pools.AuthClearReaches | internal/auto/auto.go:2631-2650 | an auth clear reaches the siblings exactly if there was a rejection in its own pool |
| Preempt.OneClearPerReset | internal/auto/preempt.go:124-224 | while a key's stored 5h reset keeps one value the preemptor clears its park at most once, over all ticks and pools and whatever happens between |
| Preempt.TicksClearOnce | internal/auto/preempt.go:124-224 | so it is over any sequence of whole ticks, whatever became of the pools between one and the next |
| Preempt.NoClearAfterClimb | internal/auto/preempt.go:168-181 | a member the walk has stopped at, available or not, never has a park cleared for the reset stored then |
| Preempt.WakeFor | internal/auto/preempt.go:191-202 | a parked member is looked at again at its bound, or at its stored reset if that is ahead and sooner |
| Preempt.WalkWakes | internal/auto/preempt.go:127-139 | the wake kept is the soonest instant ahead that any member asked for |
| Preempt.TickAllWakes | internal/auto/preempt.go:124-224 | over a whole tick the wake is ahead and no later than what any pool asked for |
| Preempt.WaitExactly | internal/auto/preempt.go:212-223 | the wait is the interval, or shorter, and then it ends exactly at the earliest wake; whenever that comes within the interval |
| Preempt.TickSleeps | internal/auto/preempt.go:124-224 | the sleep after a tick is positive and at most the interval; if shorter it ends at an instant some pool asked for, and nobody who asked for one ahead is kept waiting |
| Preempt.AskedExactly | internal/auto/preempt.go:147-203 | a pool asks for exactly the instants at which the members its walk passes over are due: their bound, or their stored reset if that is ahead and sooner |
| Preempt.PreemptClimbs | internal/auto/preempt.go:297-317 | a successful switch lands on an available enabled member that ranks strictly higher; a refused one moves nothing |
| Preempt.TickClimbsExactly | internal/auto/preempt.go:124-224 | a tick climbs exactly when the first member it stops at (available, or past a reset not acted on) is not held by a rejected window or a credential rejection, and then to that very member |
| Preempt.TickPassesBy | internal/auto/preempt.go:168-181 | a pool whose top member had its 5h window reset but its 7d window rejected stays where it is, although the second is available |
| Preempt.ClimbsWithin | internal/auto/preempt.go:124-224 | over whole ticks of all pools, with clocks and store moving on, a pool that could climb throughout climbs before the ticks outnumber the resets not acted on, those that pass or appear in between included |
| Preempt.PoolTickIsLocal | internal/auto/preempt.go:124-224 | a tick touches other pools only by lifting parks mirrored from a quota park it cleared |
| Preempt.Preemptor.PreemptView | internal/auto/preempt.go:248-286 | the enabled members above the active one, in order, each with its bound |
| Preempt.Preemptor.WalkView | internal/auto/preempt.go:147-203 | the inner loop with its two early exits |
| Preempt.Preemptor.Tick | internal/auto/preempt.go:124-224 | the whole tick over real controllers, in name order |
| Recovery.ProbeBook.Begin | internal/auto/auto.go:3873-3875 | one reference more on the key, none elsewhere |
| Recovery.ProbeBook.End | internal/auto/auto.go:3879-3885 | one reference less, never below none, zero not stored |
| Recovery.ProbeBook.SelectTargets | internal/auto/auto.go:3740-3793 | exactly the eligible parked members are probed, each with a fresh reference and the time of the attempt |
| Recovery.BooksStayRight | internal/auto/auto.go:3740-3885 | over any legal run of passes, reprobes and clears the books of all pools, written by these methods alone, say what the protocol's state says: references in flight and last attempts |
| Recovery.SelectIsStep | internal/auto/auto.go:3740-3793 | what the locked half does to its pool's book is a step of the protocol |
| Recovery.BeginIsStep | internal/auto/reprobe.go:155-166 | so is a reprobe taking its reference in a pool |
| Recovery.EndIsStep | internal/auto/auto.go:3862-3885 | so is a pass or a reprobe giving one back |
| Recovery.ForgetIsStep | internal/auto/auto.go:2578-2581 | so is a clear, which wipes the cooldown and no reference |
| Recovery.SeeThrough | internal/auto/auto.go:3800-3856 | one target: its parks go exactly if it is still a member and the query answered without rejecting; its reference goes in every case |
| Recovery.RecoverParked | internal/auto/auto.go:3740-3859 | a whole pass: whom it takes, what becomes of them, whom it reports, and that it keeps no reference |
| Recovery.PassFreesExactly | internal/auto/auto.go:3796-3857 | a pass lifts both parks of exactly the members it recovers, and in other pools exactly those mirrored from them |
| Recovery.RecoveredExactly | internal/auto/auto.go:3800-3848 | a target is recovered exactly if it is still a member, was answered for, and no window that counts is spent by what the answer says now |
| Recovery.ReportsFirst | internal/auto/auto.go:3796-3859 | a pass reports the first target it recovers, or nobody |
| Recovery.UnparkExactly | internal/auto/auto.go:3824-3850 | a clear of one member takes both its parks, and from the other pools that declare it those mirrored from the one on its credential |
| Recovery.ClearExhaustedNick | internal/auto/auto.go:2607-2625 | both parks of the member go, its cooldown and the mirrors with them |
| Recovery.ClearExhausted | internal/auto/auto.go:2557-2595 | every park of the pool goes, with all cooldowns and then the mirrors |
| Recovery.ClearsExactly | internal/auto/auto.go:2557-2595 | the pool is left without a park, and each sibling has lost exactly the parks mirrored from it |
| Reprobe.ReferencesConserved | internal/auto/auto.go:3740-3885 | in every interleaving a pool's in-flight count is the references held, and the probes begun less those ended |
| Reprobe.NothingLeaks | internal/auto/auto.go:3862-3885 | nothing is in flight once every pass and reprobe is through |
| Reprobe.OneProbeAtATime | internal/auto/auto.go:3780-3791 | recovery passes never probe a key in one pool twice at once |
| Reprobe.TakesExactly | internal/auto/auto.go:3740-3793 | whom a pass takes: parked, enabled, at a provider that can be asked, not the active member where that is left out, nothing in flight on its key, not tried for half a minute |
| Reprobe.ProbesAreApart | internal/auto/auto.go:3757-3791 | two passes of a run take the same key at least 30 seconds apart, unless a clear has wiped the cooldown in between |
| Reprobe.NoProbeWhileInFlight | internal/auto/auto.go:3740-3793 | at whatever point of a run, clears included, a recovery pass starts, no pass and no reprobe holds a reference on a key it takes, and all begun there have ended |
| Reprobe.QueryIsCovered | internal/auto/reprobe.go:130-142 | while a reprobe's query runs every pool found to hold the nick has a reference out |
| Reprobe.CoalescedHolds | internal/auto/reprobe.go:111-149 | the table lists exactly the running calls, one to a key, each asked once |
| Reprobe.OneQueryShared | internal/auto/reprobe.go:111-149 | concurrent reprobes of a key hold the same call, asked at most once |
| Reprobe.AnswersAreShared | internal/auto/reprobe.go:114-122 | and come back with the same answer |
| Reprobe.ReconcileReprobe | internal/auto/reprobe.go:173-201 | a healthy merged snapshot lifts the member's parks here and the mirrored ones, another changes nothing |
| Reprobe.HealthyReprobeFrees | internal/auto/reprobe.go:173-201 | a healthy verdict makes an enabled member selectable at once |
| Reprobe.ClearedExactly | internal/auto/auto.go:3824-3850 | a cleared member is selectable exactly if enabled and not blocked by the store |
| Reprobe.HealthyProbeMayNotFree | internal/auto/auto.go:3812-3848 | a recovery pass judges a snapshot it does not merge, so the store may go on blocking the member it reports recovered |
| Sse.FeedDecides | internal/auto/codex_overload.go:187-212 | the incremental scanner reaches the verdict of reading lines, then events, then the first decisive one |
| Sse.ChunkingDoesNotMatter | internal/auto/codex_overload.go:187-212 | the decision depends on the byte stream alone, not on how reads split it |
| Sse.DecisionIsFinal | internal/auto/codex_overload.go:187-212 | no later byte changes a decision |
| Sse.ParseExactly | internal/auto/codex_overload.go:187-212 | a blank line is an empty one; a data line is the bare field name, or the name, a colon, at most one space cut, and the value |
| Sse.JoinedExactly | internal/auto/codex_overload.go:197-201 | the data lines of an event are put together with one line feed between them |
| Sse.EventsReadBack | internal/auto/codex_overload.go:187-212 | whatever events a server writes, with either line break, are read back as written, and an unfinished line adds nothing |
| Sse.FirstDecisiveExactly | internal/auto/codex_overload.go:187-212 | the verdict is that of the first payload that has one |
| Sse.SseEventScanner.FeedBytes | internal/auto/codex_overload.go:187-212 | feeding goes on from the line where the previous call stopped |
| Sse.Peek | internal/auto/codex_overload.go:91-138 | unless the timer goes off, an overload within the size limit is seen, and a peek that ends undecided short of the stream's end has held a whole limit of undecided bytes; otherwise the verdict is the stream's own; on pass-through the body holds every upstream byte |
| Sse.PendingReader.Read | internal/auto/codex_overload.go:157-172 | the read in flight first, then the upstream, nothing lost or repeated, and every read brings a byte or the error |
| Sse.ReplayBody.Read | internal/auto/codex_overload.go:126-138 | held bytes first, then the rest verbatim; every read brings a byte, or the upstream's error once nothing is left |
| Sse.ReadAll | internal/auto/codex_overload.go:126-138 | reading on until an error, in portions of any size, yields exactly what was left and then the upstream's error |
| Sse.PassThrough | internal/auto/codex_overload.go:91-172 | from the peek to the last byte: without the timer a response whose overload shows within the size limit is turned into a failure, no other than an overloaded one ever is, and whatever passes reaches the client verbatim with its error |
| Activity.NoteHolds | internal/activity/activity.go:61-68 | the sample ring holds the latest 256 latencies, wrapped at the next slot |
| Activity.RetainsLatest | internal/activity/activity.go:72-84 | what percentiles are taken over is exactly the latest samples |
| Activity.NearestRank | internal/activity/activity.go:232-242 | the value at the rank index has at least pct% of the samples at or below it and fewer below |
| Activity.MaximumIs | internal/activity/activity.go:72-84 | the maximum is a sample no other exceeds |
| Activity.AddSummarises | internal/activity/activity.go:134-164 | a bucket has exact counts for the first distinct paths of its epoch, and the rest under "(other)" |
| Activity.RecordMirrors | internal/activity/activity.go:134-164 | recycling a slot loses no epoch of the window |
| Activity.SnapshotExact | internal/activity/activity.go:188-226 | for requests in time order each path's series over the window is what the plain log says: volume, errors, error rate, percentiles |
| Activity.NothingLost | internal/activity/activity.go:188-226 | volumes under paths and under "(other)" add up to the requests of the epoch |
| Activity.EpochExactly | internal/activity/activity.go:134-164 | an instant belongs to the whole number of intervals between zero and it |
| Activity.InEpochExactly | internal/activity/activity.go:188-226 | the requests of an epoch are exactly those whose instant belongs to it, in order |
| Activity.TrackedExactly | internal/activity/activity.go:145-160 | broken out are the paths that occur up to a point: the end, or where there are as many as may be |
| Activity.FailuresExactly | internal/activity/activity.go:61-68 | errors are exactly the answers outside 200 to 299 |
| Activity.PointExactly | internal/activity/activity.go:188-242 | a point has the counts, their ratio, the nearest-rank 50th and 95th percentiles and the maximum of the samples |
| Activity.ShownOnce | internal/activity/activity.go:188-226 | each request is shown once: in the point of its path, or in that of the rest under "(other)" |
| Activity.Store.constructor | internal/activity/activity.go:114-129 | sizes below one are raised to one |
| Activity.Store.File | internal/activity/activity.go:134-164 | one request changes its own slot and no other |
| Activity.Store.Snapshot | internal/activity/activity.go:188-226 | the series of every path, oldest first; quiet paths are absent |
| Debounce.NoLostFlush | internal/debounce/debounce.go:63-107 | in every run each mark completed before the shutdown drain is followed by a flush that starts after it |
| Debounce.DeadlineStands | internal/debounce/debounce.go:97-101 | a pending deadline is never postponed |
| Debounce.DeadlineIsNear | internal/debounce/debounce.go:63-107 | in every run a pending flush is due within one debounce interval from now, until the drain |
| Debounce.FlushesAreApart | internal/debounce/debounce.go:63-107 | flushes but the final one start at least one debounce interval after the one before |
| Debounce.FlushIsPossible | internal/debounce/debounce.go:72-80 | once the deadline has passed a loop not inside a flush can start it at once |
| Debounce.Flusher.MarkDirty | internal/debounce/debounce.go:49-57 | one token at most, nothing when disabled |
| Debounce.Flusher.LookAt | internal/debounce/debounce.go:70-80 | a due flush starts, else a timer is set for the deadline |
| Debounce.Flusher.OnDirty | internal/debounce/debounce.go:97-101 | the token sets a deadline only if none is pending |
| Debounce.Flusher.OnTimer | internal/debounce/debounce.go:102-104 | when the deadline has come a flush starts |
| Debounce.Flusher.AfterFlush | internal/debounce/debounce.go:72-106 | once a flush is through nothing is pending, and after the final one the loop is gone |
| Debounce.Flusher.OnDone | internal/debounce/debounce.go:83-96 | the drain takes a token not yet promoted |
| Migration.MigratePriorities | cmd/agent-quota-gateway/bootstrap.go:189-254 | the two loops come to what the apply loop makes of the keys in some order; without a change nothing is written |
| Migration.MigratedIs | cmd/agent-quota-gateway/bootstrap.go:189-254 | when keys of one pool agree: refused exactly when some order has no survivor or lists a nick twice; otherwise, in whatever order keys come up, exactly the listed pools take their filtered orders |
| Migration.FilteredExactly | cmd/agent-quota-gateway/bootstrap.go:281-298 | what survives of a legacy order: the nicks the pool has, each once, in the order in which they first come up |
| Migration.PrioritiesExactly | cmd/agent-quota-gateway/bootstrap.go:189-254 | an order comes from a key that means the pool and lists something, if there is one; nothing but orders changes |
| Migration.DisablingsExactly | cmd/agent-quota-gateway/bootstrap.go:317-372 | a member ends up disabled exactly if it was, or a key that means its pool lists it; nothing but flags changes |
| Migration.CleanedExactly | cmd/agent-quota-gateway/bootstrap.go:410-491 | keys that mean a pool lose the two lists and nothing else |
| KeyOrder.OrderMattersExactly | cmd/agent-quota-gateway/bootstrap.go:190-233 | the outcome depends on map order exactly if it is not refused and two keys of one pool list different orders of which neither is the pool's own |
| KeyOrder.OrderShows | cmd/agent-quota-gateway/bootstrap.go:190-233 | an unordered pool listed under "p" and "P" in opposite orders ends with whichever comes last |
| KeyOrder.RerunExactly | cmd/agent-quota-gateway/bootstrap.go:180-188 | a rerun after a crash leaves the priorities of the first run alone, whatever the two map orders, exactly if keys of one pool agree |
| KeyOrder.RerunFlips | cmd/agent-quota-gateway/bootstrap.go:180-188 | a pool ordered as "p" says ends as "P" says in every map order, and a rerun turns it back |
| KeyOrder.CrashSafeExactly | cmd/agent-quota-gateway/bootstrap.go:145-176 | a crash after any of the writes and a rerun end as the first start would have, in all map orders, exactly if keys of one pool agree |
| KeyOrder.RerunTouchesOrders | cmd/agent-quota-gateway/bootstrap.go:145-176 | whether they agree or not, a rerun ends with the same overlay and the same config but for the orders |
| Migration.MigrateDisabled | cmd/agent-quota-gateway/bootstrap.go:317-372 | exactly the listed current members are disabled; none is refused |
| Migration.Consume | cmd/agent-quota-gateway/bootstrap.go:410-491 | in-scope pools lose the two consumed keys and nothing else |
| Migration.CrashSafe | cmd/agent-quota-gateway/bootstrap.go:145-176 | when keys of one pool agree, a crash after any write and a rerun end as an uninterrupted run; a further run changes nothing |
| Migration.Reconcile | cmd/agent-quota-gateway/bootstrap.go:145-176 | the files end with what the priorities can come to in some map order, or as they stand after one of the writes if the process died; a refusal touches neither; when keys of one pool agree that is the one outcome |

## Left out

- HTTP handlers, middleware, the reverse proxy, path and response rewriting, header stripping, request logging, flags and the user interface: plumbing around the decisions modelled here.
- Parsing of headers, JSON and URLs, including `Extract`, `ExtractCodex` and the classification of a stream event: the results enter as values or parameters.
- How a failed response is classified (`ModifyResponse`, `statuslessFailureBound`, `resetFrom`): its outcome, a park with its class, is what the model starts from.
- The environment form of the registry (`loadFrom`) and the first bootstrap of a config file: they end in the same validation core.
- Goroutine scheduling, timers and file writes: steps interleave in any order, clocks advance by any amount, and an atomic write happens or does not.
- Display state that no decision reads: `topStatusLogged`, `poolLocalSnapshots`, `workerMember`, pool status views, log lines.
- An upstream reader that returns no byte and no error: every read brings a byte while there is one, or the error.
- Poller liveness: whether a poller is stale is the caller's, and the z.ai park is given as an entry.
- The wall-clock stamp that reading an unknown key of the store returns: it carries no window, and nothing here depends on it.
- Names outside ASCII: lower-casing and white space of other scripts are not modelled.
- Latencies in milliseconds as floating point: series are in nanoseconds, error rates are reals.
- `pathStat` as a shared object: a path's statistics are a value inside its bucket, so updating one through a pointer is not captured, only its effect on the bucket.
- `clearExpiredLocked` inside `preemptView` and the later steps of a tick use one clock reading for the whole tick.
- Restart.WorkerTransparent: takes assignments to name valid workers and members, which every request keeps (`Restart.AffinityStaysGood`).
- Propagation.StaleParkHolds: other parks of the nick in the same run must leave the guard standing; exactly which do is `Propagation.GuardKeptExactly`.
- Reprobe.OneQueryShared: a follower whose own request is cancelled stops waiting; its answer is then simply never delivered.
- Reprobe.QueryIsCovered: a reprobe without a store, or whose query fails, differs only in what is merged, which the protocol does not track.
