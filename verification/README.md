# The nmbrs metrics engine, verified

A Dafny model of the metrics windowing engine in `crates/nmbrs-metrics`, with proofs of what
it promises. `dafny verify dfyconfig.toml` checks everything.

What is modelled, in the system's own terms:

- **Snapshots** (`Snapshot`, `CoalesceLoops`, `CoalesceFacts`, `Series`, `Exemplars`): points, families
  and snapshots, the rules that combine them, and the loops of `coalesce_with_mode`, proved equal to a
  left fold of pairwise merges. Coalescing groups first and then coalescing the results is coalescing
  everything, in both modes, order of families and series included.
- **The cadence cascade** (`Windows`, `Cascade`, `CascadeKeeps`, `Partition`, `Runs`, `Retention`,
  `RingRuns`, `RingOrder`, `Conservation`, `Marks`, `WellTyped`, `WindowStore`, `LostCarry`): the window object with its
  prebuffer, latest window and ring; the cascade over a path's layers; and, for every run of ingests and closes, the
  partition of the ingest history at each layer, conservation of samples, the accounting invariant, the
  lifecycle marks and the ring as a function of the whole sealed history. `LostCarry` shows exactly when the close cascade
  can lose a window.
- **The owner task and its subscribers** (`Owner`, `OwnerRuns`, `OwnerTask`, `ReaderStates`, `Fanout`): the single writer
  that drains commands, publishes and acks, as every interleaving and as a batch over the window store;
  and the bounded fan-out to a subscriber with its delivery fibres.
- **The schedule tree** (`ScheduleTree`, `ScheduleBlocks`, `ScheduleNodes`, `ScheduleBuild`): nodes that gather
  and roll up, what they emit in closed form, the builder that chains them, and the proof that a chained tree
  and a flat one give every reporter the same snapshots.
- **Readers** (`MetricsQuery`, `Gathering`, `SessionLifetime`, `LifetimeRuns`, `IncreaseOver`, `IncreaseRuns`,
  `PublishedReads`): `session_lifetime` and `increase_over` read a published state, over any number of components,
  against what each was given by the commands that state is the fold of.
- **The planner** (`CadenceTree`, `Gaps`, `Planner`): hidden layers inserted until the fan-in is bounded, which
  durations they are, which gaps they can be put into, and exactly when the bound is reached.
- **Selectors, labels, components, controls** (`Glob`, `Texts`, `Selectors`, `SelectorSpaces`, `Labels`,
  `CanonicalLabels`, `LabelRendering`, `ComponentTree`, `ComponentLabels`, `Components`, `ControlSearch`, `Controls`,
  `ControlOutcomes`, `ControlCells`).

`Wrappers`, `Keyed` (insertion-ordered association lists), `Multiples` and `Powers` are shared groundwork.

Conventions: an `Instant` and a `Duration` are numbers of nanoseconds. An HDR reservoir is the multiset of
the buckets its samples fell in. A floating-point reading is its bit pattern; it is copied, never computed
with. A `Signature` says which metric type and which shape of point each family name stands for; `Fits`
says a snapshot respects it, which is what the source's insertion assertions enforce. Each series has one
point. Concurrency is modelled by the atomic steps the code takes, in every order its locks allow.

Where the code and its documentation differ the model follows the code:

- The close cascade throws away what folding the carried partial window into the next layer returns. When
  that fold fills the layer, a sealed window is neither carried on nor offered to subscribers. No run can
  lose a window this way if and only if each layer's interval divides the next (`NeverLosesIffDividing`);
  1s/10s/45s is a plan the validation accepts and that loses one (`PlannedLayersLose`).
- The printed selector is documented to read back as the same selector. It does if and only if no `=` key
  ends in `!` or `~` and no `?` key ends in `!` (`RoundTrip`).
- The glob matcher takes a `*` in the text for a literal match of a `*` in the pattern. It decides every
  pattern rightly on a text if and only if that text has no `*` (`RightIffNoStar`).
- The stall callback is documented to fire again only after a successful delivery. A fibre resets the flag
  before its delivery is counted, so with room for `c` deliveries it can fire `c + 1` times while none is
  (`FiringsReach`); it never exceeds the deliveries counted by more than `c + 1` (`FiringsBounded`).
  It stays within one of the deliveries if and only if there is no room or no timeout (`FiresWithDeliveriesIff`).
- The planner is documented to keep adjacent layers within the cap. It does if and only if of every two
  neighbouring declared cadences the longer is within the cap of the shorter, or is over one second and the
  shorter could feed a layer of one second (`Plan`); whole-second cadences always can (`WholeBridged`), 10ms and
  900ms cannot (`PlanTenMillis`).
- A component detached while alive keeps its claim on its label set, so the same parent refuses to take it
  back (`ReattachRefused`). It also keeps the effective labels it had: they are its path's if and only if its
  root was never given to a parent, or last to one without labels (`EffectiveLabels`, `StaleAfterDetach`).
- Coalescing is documented to sum counter totals; a counter carries a running total, and over time the code
  keeps the newest one (`FoldKeepsNewest`), summing only across components (`FoldAddsTotals`).
- Delivery to a busy subscriber is documented as dropping the window; the fibre waits its turn, and a window
  is dropped only when the subscriber is at capacity (`EveryOfferAccounted`).
- State sets are documented as most-recent-wins; the code lets the later argument win whatever its timestamp
  (`FoldedStates`).
- Live siblings are told apart by the Prometheus rendering of their labels, which escapes nothing. It tells label
  sets apart as long as no key holds `=` and no value holds `"` (`RenderingFaithful`); with a quote in a value
  two different ones can be taken for the same (`QuotesCollide`).

## Model

| member | source | states |
|---|---|---|
| Snapshot.CombineFits | crates/nmbrs-metrics/src/snapshot.rs:1061-1222 | Two points of one family always combine, and the result is a point of that family again. |
| Snapshot.CombineAssociative | crates/nmbrs-metrics/src/snapshot.rs:1061-1222 | Combining three points does not depend on grouping, for every kind of value and in both modes. |
| Snapshot.MergeSetsAssociative | crates/nmbrs-metrics/src/snapshot.rs:339-429 | Merging snapshots is associative: families, series, their order, times, partial flag and close reason. |
| Snapshot.CoalesceFits | crates/nmbrs-metrics/src/snapshot.rs:291-429 | A coalesced snapshot has unique families and series of the declared types. |
| Snapshot.CoalesceConcat | crates/nmbrs-metrics/src/snapshot.rs:329-429 | Coalescing two stretches and merging the results is coalescing the concatenation. |
| Snapshot.CoalesceGroups | crates/nmbrs-metrics/src/snapshot.rs:329-429 | Coalesce is a list homomorphism: coalescing the coalesced non-empty groups equals coalescing everything, in both modes. |
| Snapshot.StripIdempotent | crates/nmbrs-metrics/src/snapshot.rs:255-289 | Stripping distributions leaves none, changes nothing when there are none, and may be repeated. |
| Snapshot.StripKeepsOthers | crates/nmbrs-metrics/src/snapshot.rs:270-289 | Stripping keeps exactly the families that are neither histograms nor gauge histograms. |
| CoalesceLoops.MergeSeries | crates/nmbrs-metrics/src/snapshot.rs:406-420 | The inner loop folds one metric into the family being built, by equal labels, else appends it. |
| CoalesceLoops.FoldFamily | crates/nmbrs-metrics/src/snapshot.rs:382-425 | The loop over snapshots folds one family in order of time. |
| CoalesceLoops.CoalesceWithMode | crates/nmbrs-metrics/src/snapshot.rs:339-429 | The nested loops of the source compute the left fold of pairwise merges. |
| CoalesceFacts.CoalescedHeader | crates/nmbrs-metrics/src/snapshot.rs:347-368 | Capture time is the newest, interval the sum, partial if any part is, close reason the strongest; of two or more none is kept as the scheduled time. |
| CoalesceFacts.CoalescedNames | crates/nmbrs-metrics/src/snapshot.rs:370-381 | Families come in the order they are first seen. |
| CoalesceFacts.CoalescedDescriptors | crates/nmbrs-metrics/src/snapshot.rs:381-393 | A family has the type, unit and help of the first snapshot that has it. |
| CoalesceFacts.CoalescedSeries | crates/nmbrs-metrics/src/snapshot.rs:394-425 | Within a family the series come in the order they are first seen. |
| CoalesceFacts.FoldedGauge | crates/nmbrs-metrics/src/snapshot.rs:1096-1107 | A gauge keeps the newest reading in both modes. |
| CoalesceFacts.FoldedCreated | crates/nmbrs-metrics/src/snapshot.rs:1084-1088 | The creation time is the earliest any point has. |
| CoalesceFacts.FoldedTime | crates/nmbrs-metrics/src/snapshot.rs:1215-1220 | The timestamp is that of the last point among the newest. |
| CoalesceFacts.FoldedBuckets | crates/nmbrs-metrics/src/snapshot.rs:1142-1159 | Bucketed counts add bucket by bucket, saturating, under unchanged bounds. |
| CoalesceFacts.FoldedCount | crates/nmbrs-metrics/src/snapshot.rs:1159 | And the count of a bucketed point is the sum of the counts, saturating, in both modes. |
| CoalesceFacts.FoldedStates | crates/nmbrs-metrics/src/snapshot.rs:1201-1212 | A state keeps what the last point that names it says, whatever the timestamps. |
| Series.FoldKeepsNewest | crates/nmbrs-metrics/src/snapshot.rs:1066-1083 | Over time a running total is that of the last point among those with the greatest timestamp. |
| Series.FoldAddsTotals | crates/nmbrs-metrics/src/snapshot.rs:1066-1179 | Across components running totals add, saturating at 64 bits: a counter's, and the lifetime counts of histograms and bucketed histograms. |
| Series.FoldAddsSamples | crates/nmbrs-metrics/src/snapshot.rs:1108-1112 | Histogram reservoirs add, in both modes. |
| Series.SeriesOfCoalesce | crates/nmbrs-metrics/src/snapshot.rs:339-429 | One series of a coalesced snapshot is the fold of that series over the parts that have it. |
| Series.TilesConserveSamples | crates/nmbrs-metrics/src/snapshot.rs:1108-1112 | Windows that partition a history hold each of its samples exactly once. |
| Exemplars.FoldKeepsLast | crates/nmbrs-metrics/src/snapshot.rs:1237-1253 | With timestamps present and not decreasing, the exemplar is that of the last point that has one. |
| Exemplars.FoldOfGroups | crates/nmbrs-metrics/src/snapshot.rs:1237-1253 | In that case folding the folds of any groups is folding everything. |
| Exemplars.GroupingShows | crates/nmbrs-metrics/src/snapshot.rs:1237-1253 | One list out of order, and one with a time missing before a present one, where the grouping does show. |
| Windows.CadenceWindow.constructor | crates/nmbrs-metrics/src/cadence_reporter.rs:113-130 | A new window is empty, with both retention horizons derived from its cadence. |
| Windows.CadenceWindow.EvictAndCompact | crates/nmbrs-metrics/src/cadence_reporter.rs:138-167 | The three eviction passes, in place, equal their specification. |
| Windows.CadenceWindow.Ingest | crates/nmbrs-metrics/src/cadence_reporter.rs:172-196 | Fold, then seal, restamp, publish and evict when the interval is reached; every field of the window is given. |
| Windows.CadenceWindow.ForceClose | crates/nmbrs-metrics/src/cadence_reporter.rs:206-225 | Seal a non-empty prebuffer early: what is sealed is the prebuffer, partial, closed for the stronger of the reason and its own; every field of the window is given. |
| Retention.RingRefinesHistory | crates/nmbrs-metrics/src/cadence_reporter.rs:138-167 | One more sealed window: evicting the ring equals recomputing it from the whole sealed history. |
| RingRuns.RunMaintains | crates/nmbrs-metrics/src/cadence_reporter.rs:172-225 | In every run under every plan, a ring is what all the layer has sealed makes it whenever that is in capture order: the longest suffix within retention and cap, distributions stripped exactly past their horizon. |
| RingRuns.RunLatest | crates/nmbrs-metrics/src/cadence_reporter.rs:182-192 | In every run under every plan, the published latest window is the last one sealed, carried on or not. |
| RingRuns.SealedIsLogged | crates/nmbrs-metrics/src/cadence_reporter.rs:1222-1250 | As long as the layers up to it divide each other, all that a layer seals is also carried on. |
| RingOrder.SealedInOrder | crates/nmbrs-metrics/src/cadence_reporter.rs:172-225 | Under every plan, what is ingested in capture order every layer seals in capture order. |
| RingOrder.RingMatchesHistory | crates/nmbrs-metrics/src/cadence_reporter.rs:138-167 | Under every plan and with ordered ingests, every ring is at every moment the one recomputed from the whole sealed history. |
| Cascade.IngestAccounts | crates/nmbrs-metrics/src/cadence_reporter.rs:1185-1218 | Under every plan an ingest keeps every layer accounted: accumulated is the prebuffer's interval, below the cadence, a multiple of the layer below. |
| Cascade.CloseAccounts | crates/nmbrs-metrics/src/cadence_reporter.rs:1222-1250 | So does a close. |
| Cascade.CloseEmpties | crates/nmbrs-metrics/src/cadence_reporter.rs:1222-1250 | And it leaves every layer it visits empty. |
| Cascade.CloseLosesNothing | crates/nmbrs-metrics/src/cadence_reporter.rs:1228-1248 | With dividing layers a close never fills a layer with the carry, so nothing is discarded. |
| CascadeKeeps.IngestKeeps | crates/nmbrs-metrics/src/cadence_reporter.rs:1185-1218 | Any property stable under folding, restamping and marking survives an ingest at every layer. |
| CascadeKeeps.CloseKeeps | crates/nmbrs-metrics/src/cadence_reporter.rs:1222-1250 | And survives a close. |
| Runs.RunAccounted | crates/nmbrs-metrics/src/cadence_reporter.rs:172-225 | Between operations of any run of non-empty ingests and closes, under every plan, the window accounting invariant holds at every layer. |
| Runs.RunPartition | crates/nmbrs-metrics/src/cadence_reporter.rs:1185-1250 | In every run, as long as the layers up to it divide each other, a layer's sealed windows and the prebuffers open at it and below cut the ingest history into consecutive blocks, each holding the coalesce of its block. |
| Runs.RunClosedPartition | crates/nmbrs-metrics/src/cadence_reporter.rs:1222-1250 | After a close the sealed windows of such a layer alone do. |
| Conservation.RunConserves | crates/nmbrs-metrics/src/cadence_reporter.rs:1185-1250 | At every moment such a layer holds every ingested sample exactly once, sealed or open. |
| Conservation.ClosedRunConserves | crates/nmbrs-metrics/src/cadence_reporter.rs:1222-1250 | After a close its sealed total is everything ingested. |
| Marks.ForceCloseMarks | crates/nmbrs-metrics/src/cadence_reporter.rs:206-225 | A forced close seals exactly a prebuffer with families; the sealed window is partial, its reason is the stronger of the two, and all else is as it was. |
| Marks.IngestMarks | crates/nmbrs-metrics/src/cadence_reporter.rs:172-196 | What an ingest leaves or seals is partial if and only if one of its two parts is, and has the stronger of their reasons. |
| Marks.CloseSealsMarked | crates/nmbrs-metrics/src/cadence_reporter.rs:1222-1250 | In every run under every plan, each window a close seals at any layer, the discarded ones too, is partial and closed for its reason or a stronger one, but none stronger than something ingested carried. |
| Marks.RunOpenBounded | crates/nmbrs-metrics/src/cadence_reporter.rs:1185-1250 | A close leaves no mark behind: what is open after any run is marked only as much as what was ingested. |
| Marks.IngestSealsUnmarked | crates/nmbrs-metrics/src/cadence_reporter.rs:1185-1218 | So a window an ingest seals carries a mark only if something ingested did. |
| WellTyped.RunTyped | crates/nmbrs-metrics/src/cadence_reporter.rs:138-225 | In every run under every plan what a window holds open, latest and in its ring fits the signature everything ingested fits, stripped or not. |
| LostCarry.BreakLoses | crates/nmbrs-metrics/src/cadence_reporter.rs:1232-1239 | Wherever a layer is not divided, base ticks as long as it and a close lose a window. |
| LostCarry.NeverLosesIffDividing | crates/nmbrs-metrics/src/cadence_reporter.rs:1232-1239 | No run of non-empty ingests, of whatever metrics and intervals, loses a window in a close if and only if every layer divides the next. |
| LostCarry.BaseTicksLose | crates/nmbrs-metrics/src/cadence_reporter.rs:1232-1239 | If not, a run of base ticks alone does, for any base the layers are multiples of. |
| LostCarry.TenIntoFortyFive | crates/nmbrs-metrics/src/cadence_reporter.rs:1232-1239 | 1s/10s/45s, all multiples of a one-second base, loses one after 45 ticks. |
| LostCarry.PlannedLayersLose | crates/nmbrs-metrics/src/cadence.rs:302-322 | Those are the layers the validated planner returns for the three cadences. |
| WindowStore.WindowStore.Slot | crates/nmbrs-metrics/src/cadence_reporter.rs:1196-1199 | A window is made on first use under its path and layer. |
| WindowStore.WindowStore.IngestCascade | crates/nmbrs-metrics/src/cadence_reporter.rs:1185-1218 | The cascade over window objects in the map equals the cascade on values, returns what was sealed, and leaves other paths alone. |
| WindowStore.WindowStore.ClosePathCascade | crates/nmbrs-metrics/src/cadence_reporter.rs:1222-1250 | So does the close cascade. |
| Owner.FlushAnyOrder | crates/nmbrs-metrics/src/cadence_reporter.rs:1138-1153 | Flushing everything leaves the same state in whatever order the paths are visited. |
| Owner.FlushSealsAnyOrder | crates/nmbrs-metrics/src/cadence_reporter.rs:1138-1153 | And seals the same windows, each as often. |
| Owner.FoldIsRun | crates/nmbrs-metrics/src/cadence_reporter.rs:1115-1163 | Each path of the owner's state is exactly the run of that path's own ingests and closes. |
| Owner.FoldLabels | crates/nmbrs-metrics/src/cadence_reporter.rs:1123 | A path keeps the labels of its first ingest. |
| Owner.FoldBatches | crates/nmbrs-metrics/src/cadence_reporter.rs:1103-1177 | Applying batch after batch is applying all commands in order. |
| OwnerRuns.RunKeeps | crates/nmbrs-metrics/src/cadence_reporter.rs:1094-1181 | The invariant of the owner loop holds after every interleaving. |
| OwnerRuns.PublishedIsPrefix | crates/nmbrs-metrics/src/cadence_reporter.rs:1094-1181 | What readers see is the fold of a prefix of the commands; every ack fired is of a command in it, in order, once. |
| OwnerRuns.NeverShrinks | crates/nmbrs-metrics/src/cadence_reporter.rs:1094-1181 | That prefix never shrinks. |
| OwnerRuns.AckMeansVisible | crates/nmbrs-metrics/src/cadence_reporter.rs:1169-1175 | Once acked, a command and all before it are visible for good. |
| OwnerRuns.StoppedSawEverything | crates/nmbrs-metrics/src/cadence_reporter.rs:1106-1180 | When the owner stops, everything sent is published and every ack has fired. |
| OwnerTask.OwnerTask.ApplyIngest | crates/nmbrs-metrics/src/cadence_reporter.rs:1117-1129 | An ingest command in place: labels noted if new, then the cascade. |
| OwnerTask.OwnerTask.ApplyClose | crates/nmbrs-metrics/src/cadence_reporter.rs:1130-1137 | A close command in place; an unknown path is left unknown. |
| OwnerTask.OwnerTask.Paths | crates/nmbrs-metrics/src/cadence_reporter.rs:1139-1146 | The distinct paths that have windows, each once. |
| OwnerTask.OwnerTask.ApplyFlush | crates/nmbrs-metrics/src/cadence_reporter.rs:1138-1153 | The flush closes each path once and reaches the order-free result. |
| OwnerTask.OwnerTask.Publish | crates/nmbrs-metrics/src/cadence_reporter.rs:1351-1371 | The published state has the labels of every path and, for each window there is, its latest, prebuffer and ring. |
| OwnerTask.ShownAt | crates/nmbrs-metrics/src/cadence_reporter.rs:1351-1371 | A reader finds at every layer of every path the state's own latest, prebuffer and ring, published or not yet made. |
| OwnerTask.OwnerTask.RunBatch | crates/nmbrs-metrics/src/cadence_reporter.rs:1103-1175 | One turn: all commands applied, one publish after them, then exactly the asked acks; each command offers what it sealed. |
| Fanout.BoundedInFlight | crates/nmbrs-metrics/src/cadence_reporter.rs:1284-1337 | Over all interleavings no more than the channel capacity is in flight and reports never overlap. |
| Fanout.EveryOfferAccounted | crates/nmbrs-metrics/src/cadence_reporter.rs:1274-1337 | Each offer is skipped for a finished subscriber, dropped, accepted or in hand; the sink is given a window at most once per acceptance. |
| Fanout.QuietMeansReported | crates/nmbrs-metrics/src/cadence_reporter.rs:905-922 | A reader that finds pending 0 under the subscriptions lock knows that every accepted window was reported exactly once, and every other offer skipped or dropped. |
| Fanout.DroppedIffFull | crates/nmbrs-metrics/src/cadence_reporter.rs:1284-1318 | In every run an offer is dropped if and only if, when the gate was read for it, as many windows as the capacity were in flight; otherwise it is accepted. |
| Fanout.FinishedIffSaid | crates/nmbrs-metrics/src/cadence_reporter.rs:1324-1336 | A subscriber is finished exactly when one of its reports said so. |
| Fanout.FinishedStops | crates/nmbrs-metrics/src/cadence_reporter.rs:1274-1283 | From then on it accepts no window beyond the one in hand. |
| Fanout.FiresOnlyStalled | crates/nmbrs-metrics/src/cadence_reporter.rs:1289-1305 | The callback fires exactly when the flag is swapped from unset, and only after the time since the last delivery was read as at least the timeout. |
| Fanout.LastDelivery | crates/nmbrs-metrics/src/cadence_reporter.rs:378-384 | That time is counted from when a fibre last stamped its delivery, or from the subscription if none has. |
| Fanout.FiringsBounded | crates/nmbrs-metrics/src/cadence_reporter.rs:1289-1336 | In every run the stall callback has run at most once more than deliveries and the channel capacity together, at most once more than flag resets, and at most once more than deliveries while no fibre is between reset and count. |
| Fanout.FiringsReach | crates/nmbrs-metrics/src/cadence_reporter.rs:1289-1336 | The bound by capacity is reached, for every capacity and timeout: up to capacity plus one firings with none counted as delivered. |
| Fanout.FiresWithDeliveriesIff | crates/nmbrs-metrics/src/cadence_reporter.rs:1289-1336 | Firings stay within deliveries plus one in every reachable state if and only if the capacity is zero or there is no timeout. |
| ScheduleTree.FeedRolls | crates/nmbrs-metrics/src/scheduler.rs:71-87 | A node gives its reporters exactly the windows its interval rolls the stream up to, and its children the same stream. |
| ScheduleTree.RollsInStep | crates/nmbrs-metrics/src/scheduler.rs:71-87 | Fed in steps that divide its interval, a node never overshoots. |
| ScheduleTree.EmittedTwice | crates/nmbrs-metrics/src/scheduler.rs:71-87 | Rolling up through an intermediate interval that divides is rolling up once. |
| ScheduleBlocks.EmittedBlocks | crates/nmbrs-metrics/src/scheduler.rs:71-87 | For base ticks the k-th window a node emits is the k-th block of as many ticks as fill its interval, coalesced, and there is one for every full block. |
| ScheduleBlocks.TwiceIffDividing | crates/nmbrs-metrics/src/scheduler.rs:71-87 | Every stream of base ticks comes out the same through an intermediate interval as without it if and only if that interval divides. |
| ScheduleNodes.ScheduleNode.Ingest | crates/nmbrs-metrics/src/scheduler.rs:71-87 | The in-place node, its reporters and its whole subtree change as the value tree does. |
| ScheduleNodes.ScheduleNode.Deliver | crates/nmbrs-metrics/src/scheduler.rs:311-319 | A tick goes to the root's reporters and children; the root gathers nothing. |
| ScheduleBuild.BuildChain | crates/nmbrs-metrics/src/scheduler.rs:182-211 | The chain is built from the largest layer down, and refused exactly when a layer does not fit the base. |
| ScheduleBuild.Build | crates/nmbrs-metrics/src/scheduler.rs:164-236 | The builder panics exactly when a layer or a reporter interval other than the base does not fit it, and else builds the specified tree. |
| ScheduleBuild.BuiltDelivers | crates/nmbrs-metrics/src/scheduler.rs:164-236 | With the base dividing every layer and every layer the next, each reporter receives exactly what its interval promises, once. |
| ScheduleBuild.ChainedLikeFlat | crates/nmbrs-metrics/src/scheduler.rs:182-225 | A chained schedule cannot be told from a flat one by what any reporter receives. |
| MetricsQuery.WithSeriesSpec | crates/nmbrs-metrics/src/metrics_query.rs:533-576 | Inserting a metric combines it into its own series and touches no other. |
| MetricsQuery.InsertMetricWithMode | crates/nmbrs-metrics/src/metrics_query.rs:533-576 | The insert helper, as the coalesce with a one-metric snapshot. |
| MetricsQuery.Gather | crates/nmbrs-metrics/src/metrics_query.rs:585-611 | The gathering loops fold every selected metric of every source. |
| Gathering.GatherSpec | crates/nmbrs-metrics/src/metrics_query.rs:585-611 | A selected series of the result is the fold of its points over the sources; an unselected one is absent. |
| SessionLifetime.CollectSources | crates/nmbrs-metrics/src/metrics_query.rs:396-411 | A component is read, from the published state, through each layer's prebuffer and the top layer's latest window. |
| SessionLifetime.SessionLifetime | crates/nmbrs-metrics/src/metrics_query.rs:388-426 | The loops over the published components and their sources compute the specified snapshot. |
| SessionLifetime.SourcesAreRecent | crates/nmbrs-metrics/src/metrics_query.rs:396-411 | Those sources are the end of the top layer's partition, newest first. |
| SessionLifetime.LifetimeHistogram | crates/nmbrs-metrics/src/metrics_query.rs:388-426 | While the largest layer has sealed at most one window, a component's histogram holds every ingested sample exactly once. |
| SessionLifetime.LifetimeCounter | crates/nmbrs-metrics/src/metrics_query.rs:388-426 | With strictly increasing times, a component's counter is the last running total ingested. |
| LifetimeRuns.LifetimeCounters | crates/nmbrs-metrics/src/metrics_query.rs:388-426 | Over the runs of any components, the reported counter, or the lifetime count of a histogram, is the sum, saturating, of the totals last ingested for those that have the series, and absent without any. |
| LifetimeRuns.LifetimeHistograms | crates/nmbrs-metrics/src/metrics_query.rs:388-426 | Over the runs of any components, the reported histogram with what the top layers sealed before their latest is everything ingested; while none has sealed more than one window, it alone is. |
| IncreaseOver.IncreaseOver | crates/nmbrs-metrics/src/metrics_query.rs:300-331 | The loops over the published components' rings compute each one's contribution and aggregate them. |
| IncreaseOver.IncreaseIsDifference | crates/nmbrs-metrics/src/metrics_query.rs:619-647 | The increase over the last w windows is the last total minus the total just before the span, 0 if the ring is no longer than w. |
| IncreaseOver.IncreaseFromNothing | crates/nmbrs-metrics/src/metrics_query.rs:619-647 | Where the window before the span lacks the series, the increase is the whole last total; only the span's windows need carry it. |
| IncreaseOver.IncreaseTelescopes | crates/nmbrs-metrics/src/metrics_query.rs:300-331 | It equals the sum of the per-window increases. |
| IncreaseOver.DifferencesAdd | crates/nmbrs-metrics/src/metrics_query.rs:300-331 | Adjacent spans add up. |
| IncreaseRuns.IncreasesAdd | crates/nmbrs-metrics/src/metrics_query.rs:300-331 | Over several rings the reported counter is the sum, saturating, of the increases of those that carry it. |
| IncreaseRuns.RunRingRises | crates/nmbrs-metrics/src/metrics_query.rs:300-331 | Where the layers up to it divide each other and a counter rises as it is ingested, a layer's ring rises and shows what its newest sealed windows show. |
| IncreaseRuns.RunIncrease | crates/nmbrs-metrics/src/metrics_query.rs:619-647 | The increase is then the difference of two ingested totals: where the sealed windows end, and where the span's begin. |
| IncreaseRuns.RunsIncreasesAdd | crates/nmbrs-metrics/src/metrics_query.rs:300-331 | Over the runs of any components the reported counter is the sum, saturating, of such differences. |
| PublishedReads.ComponentsAreRead | crates/nmbrs-metrics/src/cadence_reporter.rs:1123 | Every path a published state names has been ingested under and is in the state it shows, so what follows holds of any of them. |
| PublishedReads.ReadsFit | crates/nmbrs-metrics/src/metrics_query.rs:388-411 | What the queries read from it is well typed, as they ask, under every plan. |
| PublishedReads.PublishedTotals | crates/nmbrs-metrics/src/metrics_query.rs:388-426 | Over a state published after any commands, the reported counter, or lifetime count, is the sum, saturating, of the totals last ingested under each path. |
| PublishedReads.PublishedSamples | crates/nmbrs-metrics/src/metrics_query.rs:388-426 | And the reported histogram, with what the top layers sealed before their latest, is everything ingested under those paths. |
| PublishedReads.PublishedIncreases | crates/nmbrs-metrics/src/metrics_query.rs:300-331 | And the reported increase is the sum, saturating, of the differences of totals ingested under each. |
| CadenceTree.NicestDuration | crates/nmbrs-metrics/src/cadence.rs:518-533 | The loop finds the nice duration nearest by ratio, the shorter of two equally near. |
| CadenceTree.NicestMonotone | crates/nmbrs-metrics/src/cadence.rs:518-533 | A larger target never has a smaller nicest duration. |
| CadenceTree.Steps | crates/nmbrs-metrics/src/cadence.rs:435 | The number of steps is the least whose power of the cap spans the gap. |
| CadenceTree.Intermediates | crates/nmbrs-metrics/src/cadence.rs:431-461 | What goes into a gap is ascending, whole seconds, and exactly the nice durations nearest its cuts that lie strictly inside; only if none does, the first cut rounded to a second; empty exactly when nothing fits. |
| CadenceTree.MiddleIsNearest | crates/nmbrs-metrics/src/cadence.rs:453-456 | That fallback is the whole number of seconds nearest the first cut, at least one. |
| CadenceTree.Pass | crates/nmbrs-metrics/src/cadence.rs:425-472 | A pass ends with every gap settled, terminates, fills gaps only as above, one after the other, and changes nothing when all are settled. |
| Gaps.SplitsAbove | crates/nmbrs-metrics/src/cadence.rs:435-461 | A gap wider than the cap that ends above one second can always be split, by the fallback or at two seconds. |
| Gaps.UnsplittableIffSubSecond | crates/nmbrs-metrics/src/cadence.rs:435-461 | A gap wider than the cap cannot be split if and only if it ends by the first second. |
| Planner.WholeBridged | crates/nmbrs-metrics/src/cadence.rs:332-357 | Whole-second cadences always meet the condition. |
| Planner.PlanTenMillis | crates/nmbrs-metrics/src/cadence.rs:332-357 | 10ms and 900ms are planned adjacent, 90 to 1 under a cap of 20. |
| Planner.Synthesize | crates/nmbrs-metrics/src/cadence.rs:413-481 | The rounds, the limit on them never reached, keep both ends and every declared cadence, and settle every gap. |
| Planner.Plan | crates/nmbrs-metrics/src/cadence.rs:332-357 | Layers strictly ascend, hold every declared cadence, hide exactly the others, strictly between declared ones, and come of filling gap after gap; with a cap of two or more every gap is settled, they keep the cap if and only if every two neighbouring declared cadences can be bridged, and a layer is added if and only if two neighbours are wider than the cap and the longer is over a second. |
| Planner.HiddenIsChosen | crates/nmbrs-metrics/src/cadence.rs:431-472 | Every hidden layer is, for some gap wider than the cap between two of the layers, a nice duration nearest a cut, or the rounded first cut where no such duration lies inside. |
| Planner.PlanOneHour | crates/nmbrs-metrics/src/cadence.rs:431-461 | 1s and 1h under the default cap are planned 1s/15s/5m/1h. |
| Planner.PlanValidated | crates/nmbrs-metrics/src/cadence.rs:302-322 | Refuses exactly the plans with a cadence below or not a multiple of the base, naming the first; otherwise plans as above. |
| Glob.NeverBehind | crates/nmbrs-metrics/src/selector.rs:212-238 | A later start cannot fall behind a literal alignment. |
| Glob.CommitToStar | crates/nmbrs-metrics/src/selector.rs:222-226 | Backtracking only to the last star loses nothing. |
| Glob.GlobMatches | crates/nmbrs-metrics/src/selector.rs:212-238 | The two-pointer loop terminates and decides the greedy meaning, for every pattern and text. |
| Glob.Sound | crates/nmbrs-metrics/src/selector.rs:212-238 | Whatever it accepts, the pattern matches. |
| Glob.Complete | crates/nmbrs-metrics/src/selector.rs:212-238 | In a text without `*` it accepts everything the pattern matches. |
| Glob.RightIffNoStar | crates/nmbrs-metrics/src/selector.rs:218-222 | It is right about every pattern if and only if the text has no `*`. |
| Selectors.Parse | crates/nmbrs-metrics/src/selector.rs:89-99 | The loop parses the pieces in order up to the first error. |
| Selectors.ClauseParsed | crates/nmbrs-metrics/src/selector.rs:244-308 | What any parsed clause satisfies. |
| Selectors.ClauseReads | crates/nmbrs-metrics/src/selector.rs:155-171 | A printed clause reads back as itself exactly when its key does not run into its operator. |
| Selectors.RoundTrip | crates/nmbrs-metrics/src/selector.rs:89-171 | Parsing the printed selector gives it back if and only if no `=` key ends in `!` or `~` and no `?` key in `!`. |
| SelectorSpaces.SpacedReads | crates/nmbrs-metrics/src/selector.rs:244-308 | A clause with white space around its operator reads as itself, as long as the key, or the space after it, keeps it apart from the operator. |
| SelectorSpaces.SpacedSelector | crates/nmbrs-metrics/src/selector.rs:86-99 | A selector written with any white space around keys, operators, values and commas reads as its clauses. |
| Labels.With | crates/nmbrs-metrics/src/labels.rs:38-49 | Overwrite in place or append. |
| Labels.Extend | crates/nmbrs-metrics/src/labels.rs:51-63 | The child's pairs merged onto the parent's. |
| Labels.ExtendedSpec | crates/nmbrs-metrics/src/labels.rs:51-63 | The child wins, other names keep the parent's value, keys stay unique and ordered. |
| CanonicalLabels.AscendingUnique | crates/nmbrs-metrics/src/labels.rs:187 | Sorting is canonical: a sorted list is determined by its elements. |
| CanonicalLabels.LessMeans | crates/nmbrs-metrics/src/labels.rs:187 | The order is that of the first character that differs, a shorter text first. |
| CanonicalLabels.ReadEscaped | crates/nmbrs-metrics/src/labels.rs:212-221 | Escaping can be undone. |
| CanonicalLabels.ToCanonicalSpec | crates/nmbrs-metrics/src/labels.rs:180-205 | The loop writes the specified text. |
| CanonicalLabels.FaithfulName | crates/nmbrs-metrics/src/labels.rs:180-221 | Under one name, with valid label names, two label sets print alike exactly when they are the same mapping once empty values and the name label are dropped. |
| CanonicalLabels.TextIsOrdered | crates/nmbrs-metrics/src/labels.rs:180-205 | The text is the name and the pairs with a value, but for the name label, each once, keys ascending. |
| CanonicalLabels.TextIsOneLine | crates/nmbrs-metrics/src/labels.rs:212-221 | It is one line, whatever the values hold, if the name and the keys are. |
| ComponentTree.AttachSound | crates/nmbrs-metrics/src/component.rs:901-957 | Attaching a parentless leaf keeps the tree invariant, accepted or refused. |
| ComponentTree.AttachedMeans | crates/nmbrs-metrics/src/component.rs:901-957 | An accepted attachment puts the child last among the parent's, gives it the parent's effective labels and then its own, makes it the sole claimant of its label set, and changes nothing else. |
| ComponentTree.DetachedMeans | crates/nmbrs-metrics/src/component.rs:962-967 | A detachment takes the child from its place among the parent's children, the others in order, clears its parent, and changes nothing else, its claim and effective labels included. |
| ComponentTree.DetachSound | crates/nmbrs-metrics/src/component.rs:962-967 | So does detaching. |
| ComponentTree.StopSound | crates/nmbrs-metrics/src/component.rs:235-240 | And stopping. |
| ComponentTree.RunSound | crates/nmbrs-metrics/src/component.rs:901-967 | The invariant holds after every run. |
| ComponentTree.LiveSiblingsDiffer | crates/nmbrs-metrics/src/component.rs:926-955 | No two live children of one parent render their own labels alike. |
| LabelRendering.RenderingFaithful | crates/nmbrs-metrics/src/labels.rs:83-93 | Label sets without `=` in a key or a quote in a value are rendered alike exactly when they are the same. |
| LabelRendering.QuotesCollide | crates/nmbrs-metrics/src/labels.rs:83-93 | With a quote in a value two different ones can be rendered alike. |
| ComponentLabels.RunInherits | crates/nmbrs-metrics/src/component.rs:920 | In every run, effective labels are what was inherited at the last attachment, kept or refused, then the own. |
| ComponentLabels.EffectiveLabels | crates/nmbrs-metrics/src/component.rs:920 | In every run they are the own labels along the path if and only if the root was never given to a parent or last to one without labels; no name twice. |
| ComponentLabels.GrowingTreeLabels | crates/nmbrs-metrics/src/component.rs:901-957 | So they always are while nothing is detached and no attachment is refused for a live sibling. |
| ComponentLabels.StaleAfterDetach | crates/nmbrs-metrics/src/component.rs:962-967 | A run with a detach after which they are not. |
| ComponentTree.RefusedIffClaimed | crates/nmbrs-metrics/src/component.rs:901-957 | An attachment stops at the ownership check exactly when a label is set above, and is refused as a duplicate exactly when it is not and the parent's bucket for the label set holds a live handle. |
| ComponentTree.ReattachRefused | crates/nmbrs-metrics/src/component.rs:962-967 | So a live child that was detached is refused by the same parent. |
| ComponentTree.StopReleases | crates/nmbrs-metrics/src/component.rs:235-240 | Stopping the live claimant of a label set lets another component with those labels in, refused before. |
| Components.SetStateOf | crates/nmbrs-metrics/src/component.rs:235-240 | The object's state change is the tree's. |
| Components.Attach | crates/nmbrs-metrics/src/component.rs:901-957 | Attaching objects in place is the tree's attach, with its two refusals; the tree stays sound if the child is a parentless leaf. |
| Components.Detach | crates/nmbrs-metrics/src/component.rs:962-967 | Detaching objects in place is the tree's detach; the tree stays sound if it is from the parent it has. |
| ControlSearch.FindUpNearest | crates/nmbrs-metrics/src/component.rs:586-618 | The search finds a control if and only if the component declares it or one above does for its subtree, and then the nearest of those. |
| Components.ControlSnapshot | crates/nmbrs-metrics/src/component.rs:633-659 | The flattened map gives every name exactly what the recursive search finds. |
| Controls.StepKeeps | crates/nmbrs-metrics/src/controls.rs:376-455 | Every step of every writer keeps the protocol's invariant. |
| Controls.ConfirmedApply | crates/nmbrs-metrics/src/controls.rs:376-455 | In every interleaving revisions strictly increase, written values were validated and acknowledged by as many appliers as were registered at their fan-out, a pinned control holds only launch values, and with no writer inside the gauge shows the newest projecting value. |
| Controls.ReturnedMeansCommitted | crates/nmbrs-metrics/src/controls.rs:376-455 | A returned call wrote its value exactly when it returned a revision. |
| Controls.FailureChangesNothing | crates/nmbrs-metrics/src/controls.rs:376-431 | From taking the lock to returning, a call that fails changes neither value nor gauge, no revision is allocated, and it gives up the lock. |
| ControlOutcomes.ReturnedAs | crates/nmbrs-metrics/src/controls.rs:376-455 | In every interleaving a returned call succeeded if and only if the control is not pinned or it was from launch, the validator accepts and no applier replied false; it fails on the pin, on the validator, or with exactly the nonempty set of refusing appliers, each exactly in its case. |
| ControlOutcomes.AnsweredInFull | crates/nmbrs-metrics/src/controls.rs:399-431 | A call that succeeded, or failed for its appliers, had a reply from every applier registered at its fan-out. |
| ControlOutcomes.Uninterrupted | crates/nmbrs-metrics/src/controls.rs:376-455 | A call nobody interrupts runs to the result and the state that `ControlCell.Set` promises. |
| Controls.BuildHolds | crates/nmbrs-metrics/src/controls.rs:632-668 | A new control satisfies the invariant, its gauge seeded from the initial value. |
| ControlCells.ControlCell.Set | crates/nmbrs-metrics/src/controls.rs:376-455 | One uninterrupted write: which error when, which appliers refused, and the whole new state. |
| ControlCells.ControlCell.RegisterApplier | crates/nmbrs-metrics/src/controls.rs:341-353 | A new applier comes last and changes nothing else. |
| ControlCells.RevAllocator.Next | crates/nmbrs-metrics/src/controls.rs:70-72 | Each revision is one more than the last. |

## Left out

- CombineInto: exemplars are modelled on their own in `Exemplars`; the floating-point sums of histograms and bucketed histograms are not modelled.
- Metrics with more than one point, and families whose type changes between snapshots: the second is the error branch of `CombineValues`, the first is not modelled.
- HDR precision, quantiles, bucket projection and `combine_hdr`'s failure on differing ranges: a reservoir is the multiset of bucket indices its samples fell in.
- InsertMetricWithMode: the result's `interval`, which the source doubles on each merge, is left as it was; rates derived from it are not claimed.
- `distribution_over`, `cadence_window`, `now` and `finest_cadence_covering`: the same gathering as `session_lifetime` over other sources; they would add only easy members.
- SessionLifetime: reads one published state; components are given by their paths, the label filter by a predicate on series.
- Threads, tokio, locks, weak memory order and real clocks: the models keep the atomic steps, and the order in which separately spawned fibres run is left open.
- Owner: a layer no window has reached yet is not told apart from a new window; dropping the reporter, which aborts the owner task, is not modelled.
- Fanout: one subscriber; subscribers share nothing but the owner, which serves them in turn. Unsubscribing and the context wrapper are not modelled.
- Build: assembles the tree as a value, not on the heap; `ScheduleNodes.ScheduleNode` is the node on the heap. The scheduler's tick loop, divergence warnings and final flush are not modelled.
- Synthesize: logarithms, roots and rounding are exact, where the source uses doubles; the list of insertions it returns, which nobody reads, and the log line are left out.
- `Cadences::parse`, duration parsing and printing, `align_to_declared`: would add only easy members.
- Clause matching by a selector other than its glob: lookups in a label set, easy.
- `identity_hash`: a hash, of which nothing but its input order matters; that part is `Sorted` in `CanonicalLabels`.
- AttachSound: stated for parentless leaves that nobody points at, which is how callers attach; attaching a component that already has children leaves their effective labels stale.
- `scope_close`, which stops a component without releasing its liveness token, instruments, dynamic capture and property walk-up: not modelled.
- ControlSnapshot: the tree does not change during the walk; the source takes one lock at a time and says so.
- Controls: a `set` whose future is dropped midway, the 64-bit wrap of revisions, type-erased writes and the registry are not modelled; a timeout is a refusal.
- Adapters, exposition, error routing, cells, log sinks and thread pools: input and output or thin glue.
