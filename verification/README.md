# WhatsNewDock: verified models

WhatsNewDock watches the containers of several Docker and Podman hosts, tells their operators when a newer
image exists, and replaces containers (its own included) on request. This project models the logic under its
HTTP, SQL and Docker plumbing and proves what that logic keeps.

**Replacing a container** (`PullProgress`, `Docker`, `Recreate`, `Respawn`, `Systemd`, `Swarm`, `Dispatch`).
`Docker.Daemon` is the host: a map from container id to name, state, image and configuration, with unique
names. A script decides which calls are lost and when the caller gives up; from then on every ordinary call
is lost, but not the recovery calls. A lost call reports an error; whether it took effect all the same is up to
the script too. Containers that a systemd unit owns may change between any two calls. The daemon records every
call and every state it was in.

**Rolling out a new build of WhatsNewDock itself** (`AgentRows`, `SelfUpdateRun`, `CommandQueue`, `Protocol`,
`ProtocolWorld`, `Checker`). `Protocol` puts controller, queue, agents and reports together as a transition
system in which replies are lost, delayed or repeated and commands are executed more than once.
`SelfUpdateRun` holds the tracker, planning, the wait loop and the final decision as imperative code that runs
inside that system: `ProtocolWorld.World` lets agents, operators and request handlers take any steps between
two of its calls, and each of its own calls is shown to be a step of the protocol. `CommandQueue` holds the
durable queue, its handlers and the agent's poll.

**Merging a host's report** (`Tables`, `Merge`, `SnapshotStore`, `StoreRuns`). `Merge` has the loops of
`ReplaceServerSnapshot`, `Tables.Snapshot` says in set terms what they must achieve, and `StoreRuns`
follows ids, pins, update rows and server names over any interleaving of calls. Unless a store is marked reliable,
any of its statements may fail.

**Choosing a version** (`Strings`, `Semver`, `Tags`, `Updater`, `CheckCycle`, `ImageRef`, `Versions`).
`Semver` is the precedence of section 11 of Semantic Versioning 2.0.0; `Versions` is the different, home-grown
order that WhatsNewDock uses for its own builds. The library's parser is any function from text to a version
or nothing.

**Client cache and migrations** (`Endpoints`, `Migrations`).

## What does not hold

Each of these is stated as a lemma, with the exact condition where there is one.

- When the servers cannot be listed, the controller is replaced at once although no agent was told
  anything, so "agents first" holds only for runs that could list them (`Protocol.FailedListingLaunches`;
  `internal/server/selfupdate_run.go:179-183`, against the comment at lines 15-19).
- A release tag with a slash sends every agent to the controller's own image rather than to the mirror the
  agent runs from (`Checker.SlashTagLeavesTheMirror`), against the comment at
  `internal/server/selfupdate_run.go:139-141`.
- A build past a tag whose own suffix is folded away, such as `v1.0.0-dirty`, compares older than its tag;
  `Versions.DescribedAgainstItsTag` says exactly when, `Versions.PastADirtyTag` that every version has such a
  tag, against `internal/selfupdate/selfupdate.go:210-213`.
- CompareVersions is transitive through parseable versions only (`Versions.TransitiveThroughIffParseable`).
- A failed update is rolled back, if the recovery calls take effect, exactly when no stop, rename or create
  before them took effect while reporting an error (`Recreate.BreaksOff`, in `Recreate.RecreateDirect`). A stop
  that did so leaves the workload stopped, against `internal/dockerx/recreate.go:108-110`. A start that did so
  is undone like any other.
- A rollout that the daemon undoes between the last status read and the re-read before the rollback is
  rolled back a second time: `Swarm.RollsBackAgainIff` says exactly when, `Swarm.RollbackRace` is such a run,
  against the comment at `internal/dockerx/swarm.go:340-341`.
- In the systemd flow success does not mean a changed image: `Systemd.ProofOfChange` says exactly when it
  does, and `Systemd.UpdatedOnTheOldImage` is a run that succeeds on the old image.
- The percentages of a pull are the exact ones precisely when its byte sums fit
  (`PullProgress.ReportsExactIff`); the stream of `PullProgress.OverflowReportsNegative` reports -99. An error
  message after an undecodable line is never seen, so such a pull counts as complete (`PullProgress.Drain`).
- Sources with the same repository on different hosts share one cache key (`CheckCycle.KeysAgreeIff`), so a
  container's row is computed from its own upstream exactly when the first container with its key has the
  same source (`CheckCycle.OwnReleasesIff`); `CheckCycle.TwoHostCycle` leaves a row that is wrong.
- Fingerprints identify connection settings only when these are free of NULs
  (`Endpoints.FingerprintIdentifiesIff`).
- A migration recorded without its columns is never repaired (`Migrations.CompleteIff`).
- A report that carries ids of another host's stacks or containers overwrites those rows; exactly when it
  leaves them alone is part of `SnapshotStore.Store.ReplaceServerSnapshot`, and `SnapshotStore.ForeignIdReported`
  is a report that overwrites one.
- A cycle of update checks ignores a failed delete, so a pinned or ignored container may keep being offered an
  update after a cycle that succeeded: `CheckCycle.PinnedKeepsItsRow` is one. Each such container loses its row
  exactly when its own delete gets through (`CheckCycle.FirstPass`), so all do exactly when none of these
  deletes is lost (`CheckCycle.NoneOfferedIff`); against the comment at `internal/updater/updater.go:73`.

One more place where code and prose differ, followed here as coded: recreateDirect starts the replacement even
when the original was stopped (`Recreate.Replacement` is always running).

## Model

| member | source | states |
|---|---|---|
| PullProgress.Drain | internal/dockerx/recreate.go:333-385 | A pull fails exactly when a message carrying an error comes before anything undecodable; the reports are the percentages over the last positive current and total of each layer |
| PullProgress.Absorb | internal/dockerx/recreate.go:359-366 | After each message the layer table holds every layer's last positive numbers; a number that is not positive says nothing |
| PullProgress.LastPositive | internal/dockerx/recreate.go:359-366 | The number kept of a layer is its last positive one, or zero if it reported none |
| PullProgress.AddUp | internal/dockerx/recreate.go:369-373 | The int64 sum over the layer map is the same in whatever order the map is walked, wrapping as Go does |
| PullProgress.SumAnyOrder | internal/dockerx/recreate.go:369-373 | The sum over the layers does not depend on the order of visiting them |
| PullProgress.ReportsExact | internal/dockerx/recreate.go:374-381 | Within an explicit byte bound every percentage ever reported is min(100, floor(100 * current / total)), hence in 0..100 |
| PullProgress.PercentIs | internal/dockerx/recreate.go:374-381 | The exact percentage is a hundred once all is there, and before that the whole number of hundredths that are |
| PullProgress.GoPercentExactIff | internal/dockerx/recreate.go:374-381 | The percentage computed in wrapping int64 arithmetic is the exact one precisely when the product fits, or more is done than there is to do and the wrapped product still reads as a hundred percent |
| PullProgress.ReportsExactIff | internal/dockerx/recreate.go:359-381 | The percentages reported for a stream are the exact ones precisely when the sums fit at every report |
| PullProgress.OverflowReportsNegative | internal/dockerx/recreate.go:376 | The stream of one layer of 92233720368547759 bytes, all downloaded, is read to its end and reports -99 where 100 is due |
| Docker.Daemon.FindByName | internal/dockerx/recreate.go:268-284 | The prefiltered list plus the exact match finds a container exactly when the list call gets through and one has that name, and reports its state truthfully |
| Docker.MatchMeansNamed | internal/dockerx/respawn.go:76-83 | The exact match accepts a listed container exactly when that is its name, the leading slash aside |
| Docker.Sanitize | internal/dockerx/recreate.go:295-304 | A swappiness of zero is dropped and nothing else of the host configuration changes |
| Recreate.RecreateDirect | internal/dockerx/recreate.go:111-172 | Under every schedule of lost calls and cancellation, whether or not a lost call takes effect: a failure whose recovery calls take effect leaves the host exactly as it was, unless a stop, rename or create before them took effect while reporting an error, and then it never does; at every moment the original with its configuration or a running replacement that took it all over exists and no other container changed; success exactly when the backup name is free and every forward call gets through, and then exactly one container is new: it runs under the name on the image that the target resolved to when it was created, with the environment, labels, networks and host configuration of the original, which is gone or stopped under the backup name |
| Recreate.ReplacementTakesOver | internal/dockerx/recreate.go:148-153 | The replacement runs under the same name on the target, with the environment, labels, other configuration, networks and host configuration of the original; only a swappiness of zero is not handed on |
| Recreate.Restore | internal/dockerx/recreate.go:125-134 | The recovery gives the original its name and state back when its calls take effect, and keeps it whatever happens |
| Recreate.MoveAside | internal/dockerx/recreate.go:115-144 | The original is stopped and under the backup name, or the attempt failed and, recovery calls permitting, everything is as before exactly when neither the stop nor the rename took effect while reporting an error; such a stop leaves the original stopped |
| Recreate.SwapIn | internal/dockerx/recreate.go:146-171 | From the moved-aside original: success exactly when create and start get through, and then the image that runs is the one the target resolved to; otherwise the host is back where it was if recovery calls take effect, exactly unless the create took effect while reporting an error; no moment of outage |
| Recreate.AnyNumberOfFailures | internal/dockerx/recreate.go:105-110 | Any number of failed attempts in a row leaves the original with its image and configuration and other containers untouched, and changes nothing at all if each could be rolled back |
| Respawn.Decide | internal/dockerx/respawn.go:62-70 | A poll succeeds exactly on a running container under another id, deadline or not; it waits only before the deadline and gives up only after it |
| Systemd.RecreateManaged | internal/dockerx/recreate.go:183-238 | Success needs a container with exactly that name and a new id, seen running, and says whether its image was seen; giving up comes only after the window has passed; nothing is renamed, created, started or removed; each poll shows the world it was made in; the loop ends within a computed number of polls (181 as shipped); a stopped container fails before any call, and a failed stop right after it |
| Systemd.AwaitRespawn | internal/dockerx/recreate.go:215-237 | How each way of ending the wait follows from the polls made, that a poll is late exactly from the deadline on, and that polls stop once their intervals add up to the window |
| Systemd.VerifyImage | internal/dockerx/recreate.go:244-265 | "Same image" is reported exactly when the image before was known and an inspection that got through shows it again |
| Systemd.ProofOfChange | internal/dockerx/recreate.go:244-265 | Success shows a changed image exactly when the image before was known, the verifying inspection got through and its answer was not blank; "same image" is reported exactly when it then showed the old one |
| Systemd.UpdatedOnTheOldImage | internal/dockerx/recreate.go:248-252 | A run of the whole flow that succeeds with the container on the very image it had before |
| Swarm.ServiceApi.UpdateService | internal/dockerx/swarm.go:273-338 | Every outcome is explained by the calls made, in order, each answered as the daemon answered it; success means that the last listing has the service completed with its running tasks at least the desired ones; reads are late exactly from the deadline on and an interval apart; the pull failed exactly when its call was lost or its stream broken off |
| Swarm.ServiceApi.AwaitConvergence | internal/dockerx/swarm.go:313-337 | The polls before the last read are all failed or pending ones, each followed by a sleep, a late read comes after the window and no earlier, and the outcome is the one the last read calls for |
| Swarm.ServiceApi.SendBack | internal/dockerx/swarm.go:322-330 | A failed rollout is rolled back with the spec and version re-read, or reported as not re-readable |
| Swarm.RolloutSafety | internal/dockerx/swarm.go:273-366 | Success means a finished pull, an accepted update and a last read of completed with running at least desired; at most one update and one rollback are sent, the update with the version and spec just read |
| Swarm.ReadingMeans | internal/dockerx/swarm.go:200-250 | In terms of the listed service: done exactly when its update is completed with at least as many tasks running as desired, rolled back exactly when the daemon says so, failed exactly at the deadline of any other rollout that is not completed |
| Swarm.NoRollbackAfterReadRollback | internal/dockerx/swarm.go:317-330 | A rollback never follows a status read saying that the daemon rolled back |
| Swarm.RollsBackAgainIff | internal/dockerx/swarm.go:322-330 | A service re-read as rolled back is rolled back again exactly when a late read said neither done nor rolled back just before |
| Swarm.RollbackRace | internal/dockerx/swarm.go:313-330 | With the shipped window and interval, a run of updateService that rolls a service back twice, whatever the polls cost in time |
| Swarm.SubmittedAlwaysRolls | internal/dockerx/swarm.go:294-301 | The submitted spec always differs from the stored one, in the image or the force counter and in nothing else |
| Swarm.ShortRolloutsAreAwaited | internal/dockerx/swarm.go:201-215 | While every read fails or shows a rollout completed short of tasks, the deadline does not count: the wait ends only when the caller gives up |
| Dispatch.RecreateContainer | internal/dockerx/recreate.go:68-103 | A lost inspection, then exactly a lost or broken-off pull, end the update with the host as it was; after that unit-owned containers are handed to the unit, tasks to their service, everything else to the direct flow, each with its promises: for the direct flow the exact success condition, the running replacement on the image the target resolved to, exactly when a failure is rolled back, and no outage; for the unit a new container seen running, an unchanged host for one that was not running, what the lost stop left, or the passed window; for the service the calls explained as the daemon answered them, with their clock |
| Dispatch.StartSelfUpdate | internal/dockerx/selfupdate.go:184-226 | A launch means one running helper built from the image id being run, with the access given and told which container to replace by which target; "already current" needs the very reference to resolve to that image after a full pull; a lost or broken-off pull is a failure that touches nothing; every other container is left alone, and a failure leaves no helper behind unless the clean-up takes no effect or the create did while reporting an error |
| Dispatch.LaunchHelper | internal/dockerx/selfupdate.go:212-225 | A leftover helper is cleared, and exactly one helper is added or none |
| ImageRef.TagOfRetag | internal/selfupdate/selfupdate.go:167-180 | The tag read back from a retagged reference is the tag exactly when that is free of slash, colon and at-sign, for every image, ports and digests included |
| ImageRef.RetagTwice | internal/selfupdate/selfupdate.go:167-180 | Retagging twice is retagging once exactly when the first tag has no slash and no colon before its first at-sign |
| ImageRef.RetagKeepsBase | internal/selfupdate/selfupdate.go:167-180 | Retagging keeps registry and repository |
| ImageRef.NothingReadBackIff | internal/selfupdate/selfupdate.go:167-180 | Nothing is read back from a retagged reference exactly when the tag, up to its first at-sign, is blank, ends in a colon or has a slash after its last colon |
| ImageRef.MadeUpOf | internal/selfupdate/selfupdate.go:289-301 | A reference is its base, its tag after a colon and its digest after an at-sign; a tag has no slash and no colon, and a colon before the last slash belongs to the base |
| Checker.UpdateChecker.Check | internal/selfupdate/selfupdate.go:110-163 | A release is offered exactly when a strictly newer one is published, a rebuild exactly when no release is and the registry moved the tag; the target is the running reference retagged or itself; what is published and the digest moved to are named; a check that could not run says so, and no other does |
| Checker.PlainReleaseKeepsRepository | internal/server/selfupdate_run.go:142-155 | For a plain release tag every agent is told its own registry and repository with exactly that tag |
| Checker.RebuildKeepsTheReference | internal/server/selfupdate_run.go:142-155 | For a rebuild an agent is told its own reference; one that reported none is told the controller's |
| Checker.AgentFollowsReleaseIff | internal/server/selfupdate_run.go:142-155 | An agent's target is its own reference with the release tag exactly when the tag is plain, or is one that nothing is read back from (ImageRef.Unreadable) while the agent shares the controller's repository |
| Checker.SlashTagLeavesTheMirror | internal/server/selfupdate_run.go:149-154 | For a tag with a slash the target is the controller's image instead |
| Versions.ReadVersion | internal/selfupdate/selfupdate.go:250-287 | The code of parseVersion, its component loop included, computes the reading that the laws below are about |
| Versions.CompareAntisymmetric | internal/selfupdate/selfupdate.go:214-241 | Swapping the arguments negates the comparison, on all strings |
| Versions.CompareTransitive | internal/selfupdate/selfupdate.go:214-241 | The comparison is transitive on parseable versions |
| Versions.CompareIsTheOrder | internal/selfupdate/selfupdate.go:214-241 | On parseable versions the numbers decide in order, then a prerelease is older than its release and is compared as text; every other pair is equal |
| Versions.TransitiveThroughIffParseable | internal/selfupdate/selfupdate.go:217-219 | Transitivity through a version holds exactly when it is parseable |
| Versions.ParsePrintRoundTrip | internal/selfupdate/selfupdate.go:250-287 | parseVersion undoes printing exactly for versions whose numbers fit an int and whose prerelease is not describe- or dirty-shaped, has no plus and does not end in space |
| Versions.StableIff | internal/selfupdate/selfupdate.go:262-270 | Which prereleases survive the round trip: those without a plus, a space at the end, a dirty mark or the shape of a commit count and abbreviated commit |
| Versions.LeadIsDropped | internal/selfupdate/selfupdate.go:253 | A v, a V or both in front of a version change nothing |
| Versions.DottedNumbersRead | internal/selfupdate/selfupdate.go:271-287 | Dotted numbers read as a version: a missing one is zero, any beyond the third is ignored, and one of the three that no int can hold spoils all |
| Versions.DescribeIsItsTag | internal/selfupdate/selfupdate.go:210-213 | A build of a plain release tag reads exactly as that tag, for every commit count and hash, the tag itself or commits past it, dirty or not |
| Versions.DescribedAgainstItsTag | internal/selfupdate/selfupdate.go:257-270 | For every parseable tag, commit count and hash, dirty or not: the described build equals its tag exactly when describing changes nothing, is older exactly when the tag's own suffix is folded away while what describe makes of it is not, and is newer otherwise |
| Versions.PastADirtyTag | internal/selfupdate/selfupdate.go:257-270 | For every version in range, every build any commits past its tag with a dirty mark compares older than that tag |
| Semver.Antisymmetric | internal/updater/updater.go:371 | Precedence (section 11 of Semantic Versioning 2.0.0) is antisymmetric |
| Semver.Transitive | internal/updater/updater.go:371 | Precedence is transitive, prereleases included |
| Semver.CompareIsPrecedence | internal/updater/updater.go:371 | The comparison is the precedence of section 11 in both directions: numbers in order, a prerelease before its release, identifiers compared one by one with numbers before text and the longer list higher |
| Tags.ReadVer | internal/updater/updater.go:257-312 | The code of parseVer, its loops included, computes the reading that the choice of updates is about |
| Tags.CoercedPartsAreNumbers | internal/updater/updater.go:286-303 | Numeric components reach the library as the decimal notation of their values, exactly three of them, a missing one as zero |
| Tags.LooseReading | internal/updater/updater.go:257-312 | A dotted number of two or more components, at the front or after a separator, reaches the library as exactly three numbers in decimal notation with its prerelease and build metadata |
| Tags.LeadReadsAlike | internal/updater/updater.go:262-264 | A v or V in front changes neither the loose reading nor the precision |
| Tags.VariantDigitsAreNotAVersion | internal/updater/updater.go:269-274 | A tag whose first digit follows a non-separator has a version only if the library itself reads one |
| Tags.PrecisionIff | internal/updater/updater.go:317-338 | A tag tracks a line by one or two components exactly when it spells out that many numbers, after text without digits and before a suffix |
| Updater.SortNewestFirst | internal/updater/updater.go:371 | The result is a newest-first permutation |
| Updater.VersionedReleases | internal/updater/updater.go:362-373 | Exactly the releases with a version, newest first, as often as they occur |
| Updater.OrderBySemver | internal/updater/updater.go:375-396 | A permutation of the releases: newest first when every release has a version, and the upstream order when some release has none |
| Updater.PinMovesOnlyForACandidate | internal/updater/updater.go:175-199 | A version pin is told to leave its tag exactly when there is a candidate; without one it is offered its own tag again, exactly when the registry moved that tag |
| Updater.CountAndPick | internal/updater/updater.go:181-191 | The loop counts exactly the candidates and picks one that no other candidate is newer than |
| Updater.ComputeUpdate | internal/updater/updater.go:157-232 | The decision for every tag: a version pin gets the best candidate and the exact count, a placed tag its position, anything else what the registry digest says, labelled with the newest version there is |
| Updater.PinMovesOn | internal/updater/updater.go:175-199 | In terms of versions and precision: a pin of one component moves only to a greater major version, one of two only to a greater line of minor versions, a full one to any newer version, always of its own variant; it is told their number and a newest one; with none of them it gets the registry's word on its own tag |
| Updater.OfferedIff | internal/updater/updater.go:158-164 | A release is considered exactly when prereleases are wanted or it is none, as often as it is listed |
| Updater.CandidatesAreNewer | internal/updater/updater.go:345-354 | Whatever the precision of the pin, a candidate is a strictly newer version |
| Updater.OrderDoesNotMatter | internal/updater/updater.go:175-199 | Shuffling the releases changes neither the count nor the offered version |
| Updater.BestIsUnique | internal/updater/updater.go:182-191 | Two best candidates have the same version |
| Updater.AdoptingIsAFixpoint | internal/updater/updater.go:178-199 | After adopting the offered tag the same release list has no candidate left, whatever the precision of the old and the new tag |
| CheckCycle.CheckAll | internal/updater/updater.go:48-128 | It succeeds exactly when the context outlasts its looks at it and no statement of the second pass is lost. After success every considered container has the row computed from the releases of the first source with its key, which is the row it would get by itself if that source is its own. Successful or not, once begun, each pinned or ignored container loses its row exactly when its own delete gets through; every other row is untouched, and upstream is asked once per distinct key |
| CheckCycle.FirstPass | internal/updater/updater.go:67-92 | Each pinned or ignored container loses its row exactly when its own delete gets through, no other row changes, the items are exactly the considered containers and the sources seen are the first ones of each key |
| CheckCycle.NoneOfferedIff | internal/updater/updater.go:72-78 | No pinned or ignored container keeps a row exactly when none of the first pass's deletes is lost |
| CheckCycle.PinnedKeepsItsRow | internal/updater/updater.go:72-78 | A cycle that succeeds and leaves a pinned container its row |
| CheckCycle.FetchAll | internal/updater/updater.go:94-113 | Each key is fetched once, the cache holds what its first source gives, and it gets through exactly when the context outlasts one look for each key that gave no answer |
| CheckCycle.SecondPass | internal/updater/updater.go:115-127 | Each item's row is what recomputation gives, no other row changes, and it gets through exactly when the context lasts and no statement is lost |
| CheckCycle.Apply | internal/updater/updater.go:130-141 | One container's row becomes what recomputation gives in one statement, or nothing changes |
| CheckCycle.KeysAgreeIff | internal/updater/updater.go:428-440 | Exactly which sources share a key: kind and repository decide, or the joined registry and repository, never the host of a project |
| CheckCycle.OwnReleasesIff | internal/updater/updater.go:87-91 | A container is judged by its own upstream, whatever upstream answers, exactly when the first container listed with its key has the very same source |
| CheckCycle.TwoHostCycle | internal/updater/updater.go:87-126 | A cycle over two projects of one name on two hosts that succeeds and leaves the second container a row its own upstream does not support |
| Endpoints.FingerprintIdentifiesIff | internal/server/endpoints.go:49-51 | A fingerprint identifies its four settings exactly when they are free of NULs |
| Endpoints.ShiftedCollides | internal/server/endpoints.go:49-51 | Settings with a NUL share their fingerprint with other settings |
| Endpoints.Pool.Get | internal/server/endpoints.go:56-70 | The client or error handed out is the one built from settings with this fingerprint, is open, is remembered while the settings stay, and changed settings close and replace this server's entry only |
| Endpoints.Pool.Forget | internal/server/endpoints.go:73-82 | One entry goes and its client is closed once |
| Endpoints.Pool.CloseAll | internal/server/endpoints.go:85-94 | No entry is left and every client ever opened has been closed |
| Endpoints.NothingLeaks | internal/server/endpoints.go:85-94 | With no entries left, the closed clients are the opened ones, each closed exactly once |
| Endpoints.OpenOne | internal/server/endpoints.go:66-69 | Adding an entry keeps every opened client held once or closed once |
| Endpoints.CloseOne | internal/server/endpoints.go:73-82 | Closing an entry's client keeps every opened client held once or closed once |
| Migrations.Store.Migrate | internal/store/store.go:249-280 | A run stops after some committed step or completes the whole sequence |
| Migrations.CrashResumable | internal/store/store.go:249-280 | Stopping after any committed step and running again reaches the database of one uninterrupted run; a further run changes nothing |
| Migrations.VersionsAfter | internal/store/store.go:262-277 | The versions recorded are the earlier ones and those of the steps made |
| Migrations.MigratingKeepsData | internal/store/store.go:186-247 | Every row and value survives, except that kind becomes local on local rows |
| Migrations.ColumnsAfter | internal/store/store.go:284-294 | The columns added are those of the migrations not yet recorded |
| Migrations.CompleteIff | internal/store/store.go:254-261 | A finished run has every column exactly when the versions recorded beforehand implied theirs |
| Migrations.EndsWithEveryColumn | internal/store/store.go:184-247 | From a database without a record a finished run adds exactly the seventeen later columns, each to its table |
| Migrations.NewDatabaseIsComplete | internal/store/store.go:249-252 | A new database has them all from its schema, and the migrations add nothing to it |
| Migrations.NewColumnsAreFilled | internal/store/store.go:186-247 | Wherever a run stopped, a column has its old values, and its default in rows that had none |
| Migrations.LocalServersAreMarked | internal/store/store.go:188-202 | Once the first migration is made, every local server is of kind local, and the others keep theirs or are agents |
| Tables.SnapshotConsistent | internal/store/store.go:70-121 | A merged report keeps both uniqueness constraints and both references |
| Tables.InItsStack | internal/store/entities.go:607-676 | A merged container has the columns last reported and belongs to the server's stack of the reported name, or to none |
| Tables.ReportIsIdempotent | internal/store/entities.go:530-689 | Sending the same report again changes no stack, container or update row |
| Merge.MergeStacks | internal/store/entities.go:563-611 | With blank ids a successful merge makes the server's stacks exactly the reported ones, known names keeping their ids; what each name stands for in the name table follows from the table and the report; short of a failing statement it is rejected exactly when a new name is reported twice; for any report, other servers' stacks are kept exactly when none is claimed by id |
| Merge.MergeContainers | internal/store/entities.go:613-686 | With blank ids a successful merge makes the server's containers exactly the reported ones, known docker ids keeping id and pin, and drops exactly the updates of vanished containers; short of a failing statement it is rejected exactly when a new docker id is reported twice; for any report, other servers' containers read as the last claim on their id says, hence are kept exactly when none is claimed or the claim says the same |
| Merge.UpsertReportedStack | internal/store/entities.go:580-597 | The id a reported stack is written under, and that a clash on the name fails |
| Merge.UpsertReportedContainer | internal/store/entities.go:638-676 | A known docker id wins over the id the report carries, and a clash on the docker id fails |
| Merge.DropStacks | internal/store/entities.go:598-606 | Of the known stacks exactly those not reported go |
| Merge.DropContainers | internal/store/entities.go:679-686 | Of the known containers exactly those not reported go, each with its update |
| SnapshotStore.Store.ReplaceServerSnapshot | internal/store/entities.go:530-689 | All or nothing; the server's own row takes the reported columns and, unless chosen by hand, the reported name, keeps its kind and endpoint, and no other server's row changes; with blank ids and complete reads the new database is the merged one, and short of a failing statement the report is rejected exactly when a new stack name or docker id occurs twice in it; for any report uniqueness and the update reference hold, other hosts' containers keep all but stack and columns, which read as the last claim on their id says, and other hosts' stacks and containers are kept exactly when the tables and the report alone say that none is claimed with other contents |
| SnapshotStore.ForeignIdReported | internal/store/entities.go:620-676 | A report of one host after which another host's container row reads as the first one said |
| SnapshotStore.Store.SetContainerPinned | internal/store/entities.go:206-209 | Only that container's pin changes; the constraints are kept |
| SnapshotStore.Store.UpsertUpdate | internal/store/entities.go:322-335 | An update row needs its container; the constraints are kept |
| SnapshotStore.Store.DeleteUpdate | internal/store/entities.go:338-341 | Only that container's update row goes |
| SnapshotStore.Store.UpdateServerName | internal/store/extra.go:56-59 | The name is set and marked as chosen by hand |
| SnapshotStore.Store.CreateServer | internal/store/extra.go:31-52 | A new server is added, never one that exists |
| SnapshotStore.Store.DeleteServerCascade | internal/store/extra.go:95-115 | The server goes with its stacks, containers and their updates, or nothing does; the constraints are kept |
| StoreRuns.RemovedIsExact | internal/store/extra.go:95-115 | Removing a server takes its own stacks and containers, with the updates of these, and no other row |
| StoreRuns.RunConsistent | internal/store/store.go:70-121 | Over any interleaving of calls the constraints hold in every state |
| StoreRuns.IdentityIsStable | internal/store/entities.go:613-676 | A container reported without interruption keeps its id; its pin is the last one set meanwhile, its update row the last one written |
| StoreRuns.AppearsAsReported | internal/store/entities.go:638-676 | A container appears only through a report of its host, with the reported pin, an unused id and no update row |
| StoreRuns.ServerIsStable | internal/store/entities.go:537-561 | A server's kind never changes while it exists, and a name chosen by hand changes only by a rename |
| StoreRuns.ServerFollowsItsEvents | internal/store/entities.go:537-561 | Over any run a server's row is what its reports, renames and endpoint changes make of it in their order, and nothing else |
| StoreRuns.RenameSticks | internal/store/extra.go:54-59 | After a rename the name stands until the next rename, whatever hosts report |
| SelfUpdateRun.Run.Counts | internal/server/selfupdate_run.go:57-69 | Done, failed and pending add up to the number of rows; none pending means none queued; some failed means some row failed |
| SelfUpdateRun.Tracker.UpdateAgent | internal/server/selfupdate_run.go:97-109 | Exactly the first row of that server changes |
| SelfUpdateRun.Tracker.Get | internal/server/selfupdate_run.go:82-95 | The copy handed out is a separate object |
| SelfUpdateRun.PlanAgents | internal/server/selfupdate_run.go:178-216 | One row per agent in list order, with its last digest: skipped exactly when it is offline, failed exactly when it is online and its command could not be queued, and else queued with a command of its own addressed to its target; no rows at all when the list cannot be read |
| SelfUpdateRun.AgentsInOrder | internal/server/selfupdate_run.go:184-187 | The agents are those servers of that kind, each as often as listed and in list order |
| SelfUpdateRun.JudgeOne | internal/server/selfupdate_run.go:297-327 | A queued row becomes what the agent's digest, and only then its command, says; every change rests on something read |
| AgentRows.JudgedIff | internal/server/selfupdate_run.go:293-327 | A queued row is updated exactly when its agent is listed with another, non-blank digest or its command was answered done, failed exactly when it was refused and no such digest is there, and stays queued otherwise |
| SelfUpdateRun.JudgeAll | internal/server/selfupdate_run.go:291-328 | One poll judges every row by its digest in the list and, where that says nothing, by the reply to its own command; a failed read changes nothing |
| SelfUpdateRun.WaitForAgents | internal/server/selfupdate_run.go:270-329 | It reads the servers once per poll, ends within 61 polls even if every read fails, leaves no row queued, changes each row at most once from queued to updated or failed for a reason, and gives up only strictly after the deadline or once the context is done |
| SelfUpdateRun.Orchestrate | internal/server/selfupdate_run.go:220-264 | The controller's replacement is attempted exactly when this instance knows itself and force is set or no row failed; anything but a launch ends the run as failed |
| SelfUpdateRun.StartSelfUpdateRun | internal/server/selfupdate_run.go:160-173 | Whatever others do meanwhile, the run is a run of the protocol, ending launched or stopped with the same rows; a launch without force means that every agent online when listed is accounted for, and that its digest or its own command was read to say so; offline agents, and only these, stay skipped, and once every other one is updated the launch is tried, however many are offline |
| ProtocolWorld.ReachedIsSound | internal/server/selfupdate_run.go:178-329 | Whatever the protocol's invariant says holds in every state that the code and its surroundings reach |
| CommandQueue.Queue.ListPendingCommands | internal/store/extra.go:143-165 | Exactly the server's unanswered commands, oldest first, each once |
| CommandQueue.Queue.HandleResult | internal/server/agent_handlers.go:120-157 | Only the sender's own unanswered command can change, and only its answer: done for "done", refused for any other status; the queue changes as the protocol's Deliver step says |
| CommandQueue.Queue.UpdateCommandResult | internal/store/extra.go:168-172 | The status of that one command is overwritten |
| CommandQueue.Queue.DeleteServer | internal/store/extra.go:95-103 | The server's commands go, as in the protocol's Remove step |
| CommandQueue.Agent.SelfUpdate | internal/agent/agent.go:166-185 | Done exactly when a target is given, the agent knows its container, and the helper was started or the image is already current |
| CommandQueue.Agent.Execute | internal/agent/agent.go:124-144 | One result is posted per execution, and says what happened |
| CommandQueue.Agent.PollCommands | internal/agent/agent.go:111-122 | Every fetched command is carried out once, in order, whatever becomes of the replies |
| Protocol.QueueStep | internal/server/agent_handlers.go:120-157 | In every step: commands stay as issued but for their answer, and whatever counts as answered done was posted by the addressee after carrying it out |
| Protocol.DigestsStep | internal/server/agent_handlers.go:36-94 | In every step: a digest the controller knows that is neither blank nor the planned one was reported since planning |
| Protocol.InvStep | internal/server/selfupdate_run.go:178-329 | Every step of planner, wait loop, handlers, agents and operators keeps the invariant |
| Protocol.NoLaunchBeforeTheAgents | internal/server/selfupdate_run.go:218-264 | In every reachable state where the replacement was started without force and the agents had been listed, every agent online at planning reported a non-blank digest other than the planned one, or was sent its own self-update, carried it out and had its answer done accepted |
| Protocol.FailedListingLaunches | internal/server/selfupdate_run.go:179-183 | From any state a failed listing leads straight to the replacement, and the claim then holds exactly if no agent was online |
| Protocol.OfflineAgentsHoldNobodyUp | internal/server/selfupdate_run.go:195-199 | In every reachable state, once the rows of all agents that were online are updated, the replacement can be started |
| Protocol.ReportTells | internal/server/agent_handlers.go:48-66 | A report says that its server is online and what it runs; what it leaves blank stays as known |
| Protocol.FirstReplyStands | internal/server/agent_handlers.go:136-153 | Over any run the first reply to a command stands, however often it is executed and answered again |
| Protocol.RowsOnlyMove | internal/server/selfupdate_run.go:270-329 | Once planned, rows move only from queued to updated or failed |

## Left out

- HTTP routing, JSON, authentication, the web interface, deployment files: plumbing without deep functional properties.
- Upstream release fetchers and the registry: `FetchReleases`, the digest check and reference parsing are parameters.
- The semantic version library's grammar is a parameter; it is assumed to read no version out of an empty tag.
- Events, jobs, progress callbacks other than the percentage, log lines and error texts.
- Real time, goroutines and locks: the clock is monotone, each handler and store call is one atomic step, and `waitForAgents` reading rows without the lock is not modelled.
- Overlapping self-update runs and two results racing between ownership check and write: one run and atomic handlers are assumed.
- Writing resolved ids and pins back into the structs passed to `ReplaceServerSnapshot`: ids are returned instead.
- PullProgress.GoPercentExactIff: stated for totals below 2^64 bytes; beyond that the wrapped total is an arbitrary number and no closed condition is given.
- PullProgress.ReportsExactIff: stated for streams whose totals stay below 2^64 bytes, for the same reason.
- Columns that a report simply overwrites are one opaque value; so is everything of a server but its name, kind, name flag and connection settings.
- The store's releases table, users, settings and schema text: only the tables and constraints the merge relies on.
- Image pulls and service updates that take effect while reporting an error: only calls that change containers may.
- Swarm.ServiceApi.UpdateService: ends for a caller that gives up some time; no bound is claimed otherwise, because a failed status read skips the deadline check and "completed but short of tasks" stays pending for ever.
- SnapshotStore.Store.ReplaceServerSnapshot: the refinement of the server's own rows is stated for reports with blank ids and for reads of known rows that run to their end; an iteration that ends early without an error is not noticed by the code, and then only uniqueness, the update reference and, with blank ids, other hosts' rows are promised.
- SelfUpdateRun.StartSelfUpdateRun: an answer of done counts as evidence before the agent is back, as the code has it; that the new build works is not claimed.
- Updater.OrderDoesNotMatter: stated for tags with a version; a tag placed by position depends on the upstream order by design.
- Dispatch.StartSelfUpdate: the mounts and networks copied for the helper are one parameter.
