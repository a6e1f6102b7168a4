# MongoDB Kubernetes operator: a verified model

This project models the decisions by which the operator scales, upgrades and reconfigures a MongoDB replica set, and proves
what they keep over whole runs. It has five parts.

1. **The reconcile protocol** (`Scale`, `Protocol`, `ProtocolInvariant`, `ProtocolCounts`, `ProtocolDecisions`, `ProtocolOrdering`,
   `ProtocolReversal`, `ProtocolProgress`, `ProtocolCompletion`, `ProtocolUpgrade`, `ProtocolConfigs`, `WrittenConfig`, `Reconciler`). The store holds the spec, the two
   status counts and the phase, the saved spec, the automation config secret, the StatefulSet and the pod annotations. Every
   write is a step of its own; between any two steps the operator can crash, give up or lose a write, the user can edit the
   spec, and pods and StatefulSet controller can move. A run is any legal sequence of steps. `Reconciler` is one call of
   `Reconcile` as a program whose every path is such a run.
2. **The automation config** (`SemVer`, `AutomationConfig`, `ConfigEquality`, `Builder`, `ConfigHistory`, `ConfigMeaning`): votes and arbiters, the feature
   compatibility version carried from config to config, and the version number raised on a change of contents.
   `ProtocolConfigs` shows that the configs stored by a protocol run, crashes included, are such a history.
3. **SCRAM** (`ScramCredentials`, `Secrets`, `Scram`, `ScramEnable`, `Stability`, `UserSecrets`): the in-place HMAC iteration
   against `Hi` of section 2.2 of RFC 5802, and the protocol around the stored credentials, stable although fresh salts,
   passwords and keyfiles are drawn every time.
4. **The StatefulSet override merge** (`Ordering`, `Arrangement`, `KeyedMerge`, `ExtendMerge`, `PodMerge`,
   `PodMergeLaws`, `MountLaws`, `VolumeLaws`, `StatefulSetLaws`, `StatefulSetOnce`, `StatefulSetFixpoint`, `MergeLoops`,
   `MergeMeaning`, `SpecMeaning`): which side every part of the result comes from; keyed merges through maps of arbitrary iteration order give a fixed list, and merging the same override again and again
   reaches a fixpoint, with the exact point at which it does.
5. **The goal-state gate and the generic state machine** (`GoalState`, `ProtocolGate`, `StateMachine`).

`dafny verify dfyconfig.toml` checks everything.

## Assumptions

- Reads are current and one reconciliation runs per resource. The StatefulSet is not deleted, and the user's StatefulSet
  override replaces neither `replicas` nor `updateStrategy`
  (controllers/replica_set_controller.go:558 would let it).
- Hash functions have HMACs of fixed length, and base64 decoding undoes encoding. SASLprep, MD5 and UTF-8 are arbitrary
  functions. A formatted `major.minor` followed by `.0` parses as that release, and `.0` alone does not parse.
- JSON encoding is faithful apart from `omitempty`.
- An agent achieves only config versions that were published.

## Where the code and what is said about it differ

- The comment on votes says seven; `>` admits an eighth voter (pkg/automationconfig/automation_config.go:139-149).
- TLS puts the StatefulSet first even when scaling down (controllers/replica_set_controller.go:346 against :357):
  `TlsScaleDownBreaksOrdering`; `ReconciliationKeepsOrderIff` has the exact condition for keeping the order.
- Horizons are listed for the desired members but looked up by the members of the step
  (pkg/automationconfig/automation_config_builder.go:239), so scaling down by two or more can never complete:
  `HorizonsBlockScaleDown`; `CompletesIff` has the exact condition for completing.
- `LabelSelectors` drops the override when the original is nil (pkg/util/merge/merge_statefulset.go:67-68):
  `OverrideReachesSelectorIff`.
- `HasAllKeys` is asked for the SHA-1 server key twice and never for the SHA-1 stored key
  (pkg/authentication/scram/scram.go:283): `ReturnsFieldsIff`.
- The user validation message says `<resource name>-<user>-<db>`; the code joins `<resource>-<db>-<user>`
  (controllers/validation/validation.go:62 against pkg/authentication/scram/scram.go:342-344).
- The not-found check after the config is ensured (controllers/replica_set_controller.go:321) looks at a reassigned error and
  never fires; a missing StatefulSet passes by the check behind it, with the same result.
- A server version below 3.4.0 stores an empty feature compatibility version, after which no config can be built until the
  spec sets one (`ConfigHistory.SecondPass`).
- The third merge of an override does not always equal the second: an override that names a volume twice, with different
  kinds and a repeated item key, needs one more (`SlowOverride`; `MergeFixpointIff` has the exact condition).
- Joining the parts of a mount point with `_` (pkg/util/merge/merge.go:441-443) is not injective, and merging mounts that
  collide can change the key of the result. Then one merge is never final (`MountsTwiceIff`), two need not be
  (`UnsettledMounts`, `CollidingMounts`), and the order of mounts with one key is left to the map (`MountsDeterminedIff`).

## Model

| member | source | states |
|---|---|---|
| ProtocolCounts.CountsStayClose | controllers/replica_set_controller.go:185-228 | In every reachable state, whatever edits, crashes and lost writes: both status counts are equal, and once they are at least 1, the config's members and the StatefulSet's replicas are each at least 1 and within 1 of them. |
| ProtocolCounts.CountStaysPositive | controllers/replica_set_controller.go:211-228 | Once deployed, the count never returns to 0. |
| ProtocolCounts.CountsMove | controllers/replica_set_controller.go:202-228 | Only the final status write moves the counts, by at most 1 after first deployment; config, StatefulSet and both counts then agree, the strategy is RollingUpdate, and Running is written exactly when the count is the desired one. |
| ProtocolCounts.PublishedCounts | controllers/replica_set_controller.go:306-339 | Consecutive published member counts differ by at most 2, and by 2 exactly when the published and the desired count lie on opposite sides of the status count. |
| ProtocolReversal.ReversalPublishesJump | controllers/replica_set_controller.go:343-383 | From every settled, scalable deployment a run leads to such a jump of 2. |
| ProtocolDecisions.FirstWriteIff | controllers/replica_set_controller.go:343-370 | In every run, the first write of every reconciliation is the StatefulSet exactly when it exists and TLS is on, or a deployed replica set grows, or its size stays and a non-empty applied version differs from the spec; otherwise the config. |
| ProtocolDecisions.ImagesBeforeConfig | controllers/replica_set_controller.go:362-367 | When the version changes and the size does not, no config is published before the StatefulSet has the image of that version. |
| ProtocolDecisions.BeginsIff | controllers/validation/validation.go:18-78 | A reconciliation begins exactly for a valid spec with fewer arbiters than members that does not switch TLS off after it was saved as enabled. |
| ProtocolDecisions.StatefulSetGateIff | controllers/replica_set_controller.go:286-302 | In every run a rolling StatefulSet lets the reconciliation pass exactly when all replicas asked for are updated and ready and the spec was observed; one with OnDelete at once. |
| ProtocolDecisions.FreshWriteWaits | pkg/kube/statefulset/statefulset.go:166-171 | A write that changes the StatefulSet and lets it roll is not taken for ready before it was observed; one that changes nothing leaves it as it was. |
| ProtocolDecisions.StatefulSetWritten | api/v1/mongodbcommunity_types.go:580-597 | In every run the written StatefulSet has the version of the spec, one replica nearer to the target, and OnDelete exactly while the version changes. |
| ProtocolOrdering.ConfigNeverOutgrowsStatefulSet | controllers/replica_set_controller.go:343-370 | Ordering safety: after first deployment, if every reconciliation begins in a state that is safe for it, every state of the run has config members <= StatefulSet replicas. |
| ProtocolOrdering.ReconciliationKeepsOrderIff | controllers/replica_set_controller.go:343-383 | From every ordered idle state a reconciliation keeps the order at all its steps, whatever happens meanwhile, exactly when it is safe to begin: its first write is the config with no more members than replicas (or a config that cannot be built), or the StatefulSet with no fewer replicas than members. |
| ProtocolOrdering.UnsafeBreaksOrdering | controllers/replica_set_controller.go:343-383 | A reconciliation that begins in an unsafe state breaks the order with its first write. |
| ProtocolOrdering.CarefulIsSafe | controllers/replica_set_controller.go:351-360 | Every reconciliation is safe in a run that edits members only while no step is in flight and never scales down with TLS on. |
| ProtocolOrdering.TurningScaleUpRoundIsSafe | controllers/replica_set_controller.go:357-369 | Turning a scale-up round in mid-step keeps the order as long as TLS is off and the version stays. |
| ProtocolOrdering.TlsScaleDownBreaksOrdering | controllers/replica_set_controller.go:344-360 | With TLS on, every scale-down from a settled state is unsafe and breaks the order at its first write. |
| ProtocolOrdering.ReversalBreaksOrdering | controllers/replica_set_controller.go:351-369 | Taking back a scale-down whose two writes are done is unsafe: the config grows first. |
| ProtocolReversal.ReversalReachesBadOrder | controllers/replica_set_controller.go:343-383 | With TLS off that state is reachable from every settled, scalable deployment. |
| ProtocolInvariant.Reachable | controllers/replica_set_controller.go:113-249 | The inductive invariant of the protocol holds in every reachable state: what each point of a reconciliation may rely on about config, StatefulSet, counts and saved spec. |
| ProtocolInvariant.StepKeepsInv | controllers/replica_set_controller.go:113-249 | Every step of operator, user and cluster keeps it. |
| ProtocolProgress.CountAfter | pkg/util/scale/scale.go:12-37 | In a run without edits the count after k completed reconciliations is k steps towards the target, whatever fails in between. |
| ProtocolProgress.RunningWhen | controllers/replica_set_controller.go:211-228 | Running is first written by completed reconciliation number max(1, distance) (number 1 from nothing), the distance drops by exactly 1 per completed one, and Running is never written with another count. |
| ProtocolCompletion.Converges | controllers/replica_set_controller.go:185-249 | With enough horizons and a lasting compatibility version, a valid spec has a run from every idle state to Running with everything at the target and the spec saved, in exactly max(1, distance) reconciliations. |
| ProtocolCompletion.CompletesIff | pkg/automationconfig/automation_config_builder.go:173-245 | A completing run exists exactly when there are horizons for the first step and for the target, and the compatibility version is explicit, or nothing is stored yet, or it and the server version parse and, if more than one build is needed, it is below the server version or the server version is at least 3.4.0. |
| Scale.ReplicasThisReconciliation | pkg/util/scale/scale.go:12-25 | Jumps from 0, otherwise stays exactly at the target and else moves one nearer to it, never below 1. |
| Scale.TowardDistance | pkg/util/scale/scale.go:12-25 | k reconciliations reduce the distance by k until it is 0. |
| Scale.ScalingEnds | pkg/util/scale/scale.go:27-29 | Scaling is over for the first time at reconciliation max(1, distance). |
| ProtocolUpgrade.RollingOnlyWhenGated | pkg/kube/statefulset/statefulset.go:309-319 | Whenever the StatefulSet's image differs from a non-empty last applied version and its strategy is RollingUpdate, an earlier reconciliation that was changing to that version, with the StatefulSet in place, had the goal-state gate accept a config all of whose processes run it (every agent at it, or no pod there) and then had both gates behind it, and no deployment has written the StatefulSet since. |
| ProtocolUpgrade.TlsLatch | controllers/validation/validation.go:18-23 | Once a saved configuration has TLS on, at every later point: the stored config carries the operator's TLS settings in all processes, every reconciliation under way has TLS on, and none with TLS off begins. |
| WrittenConfig.TlsAfterUserConfig | controllers/mongodb_tls.go:154-177 | The TLS settings win over the user's additional configuration in every process. |
| WrittenConfig.InputsBenign | controllers/replica_set_controller.go:486-537 | The operator's modifications neither read nor change the version number, nor touch replica sets, process count or process versions. |
| WrittenConfig.PutAcWrites | controllers/replica_set_controller.go:411-445 | One config write stores a config with this step's processes and members, the snapshot's version, TLS and arbiters, and is one step of the config's history. |
| ConfigMeaning.PutAcDescribes | controllers/replica_set_controller.go:426-445 | What the secret then holds, field by field: names and hosts of processes and members, versions, explicit compatibility version, votes, arbiters, horizons, the given authentication, roles, and arguments with TLS over the user over the operator. |
| ConfigMeaning.StoredDescribesLast | controllers/replica_set_controller.go:411-445 | In every run the secret holds a config that says just what the last config write was given. |
| ConfigMeaning.DecimalReads | pkg/automationconfig/automation_config_builder.go:302-304 | The numbers in names read as themselves. |
| ProtocolConfigs.StoredIsRun | controllers/replica_set_controller.go:411-424 | In every run, crashes and edits included, the secret holds what the run's config writes alone produce. |
| ProtocolConfigs.VersionIdentifiesConfig | pkg/automationconfig/automation_config_builder.go:291-299 | Over every run the config version never falls, and two states with equal versions hold the same config. |
| ProtocolConfigs.FcvOverRuns | pkg/automationconfig/automation_config_builder.go:173-198 | Over every run without explicit settings, every process has the least major.minor ever published. |
| ProtocolConfigs.InFlightDataBearing | pkg/automationconfig/automation_config.go:138-159 | A config in flight has a data-bearing member exactly when arbiters are at most 8 and fewer than its members. |
| ProtocolConfigs.ScalingRunDataBearing | controllers/validation/validation.go:69-78 | In a scaling run without edits every config in flight holds data if arbiters are at most 8 and fewer than the first step's members; otherwise the first one holds none. |
| ProtocolCompletion.HorizonsBlockScaleDown | pkg/automationconfig/automation_config_builder.go:233-245 | With fewer horizons than this step's members, no run without edits ever completes a reconciliation or changes the config. |
| ProtocolCompletion.UnbuildableBlocks | controllers/replica_set_controller.go:497-525 | The same for whatever keeps the config from being built. |
| ProtocolCompletion.FcvRunsOutAfterOne | pkg/automationconfig/automation_config_builder.go:173-198 | With a server version below 3.4.0 and not above the stored compatibility version, one config can still be built, and after it none. |
| WrittenConfig.PutAcLasts | pkg/automationconfig/automation_config_builder.go:173-226 | A compatibility version from which configs can go on being built survives every config write. |
| Reconciler.ReplicaSetReconciler.Reconcile | controllers/replica_set_controller.go:113-249 | Every path is a legal run that ends idle. Rejected exactly for a spec that does not validate, and then only the phase changes. When no call fails, it stops early only at a config that cannot be built or a closed gate; otherwise both counts take their step, with the spec saved and Running at the target and Pending before it. |
| Reconciler.ReplicaSetReconciler.Conclude | controllers/replica_set_controller.go:202-249 | When no call fails, both counts take their step, and the ending, phase and saved spec say whether it was the last one. |
| Reconciler.ReplicaSetReconciler.RunSequentially | pkg/util/functions/functions.go:7-38 | Runs the two deployments forwards or backwards; stopping in the first leaves the other's object as it was, and when no call fails it stops only where it is stuck. |
| Reconciler.ReplicaSetReconciler.DeployAutomationConfig | controllers/replica_set_controller.go:306-339 | Publishes and waits; Ready only through the goal-state gate, and the pass's counts and saved spec are untouched. |
| Reconciler.ReplicaSetReconciler.DeployStatefulSet | controllers/replica_set_controller.go:286-302 | Writes and waits; Ready only when ready or OnDelete. |
| Reconciler.GoalStateReached | pkg/agent/agent_readiness.go:23-69 | The loop over the pods decides exactly the protocol's gate. |
| GoalState.AllReachedGoalState | pkg/agent/agent_readiness.go:23-69 | Accepts exactly when all pods report the version or none exists; errs exactly at an unreadable pod that nothing before it rejected. |
| GoalState.ReadCurrentAgentInfo | pkg/readiness/headless/headless.go:33-53 | Reports some plan's version, else the target when in goal state or without any health, else -1, for any map iteration order. |
| GoalState.GateIsSound | pkg/agent/agent_readiness.go:23-69 | In every interleaving of publications, probes, pods and checks: a passing check that saw a pod saw all of them, each having reported exactly the awaited version after it was published. |
| GoalState.StaleNeverMatches | pkg/readiness/headless/headless.go:17-31 | An annotation written before a version was published never equals it. |
| ProtocolGate.GateSeesThisConfig | controllers/replica_set_controller.go:306-339 | In every protocol run whose probes report only published versions: a config gate passed with the StatefulSet and any of its pods present has all of them present, each having come to report the awaited version when the secret already held the very config let through. |
| ProtocolGate.ProbesAreHonest | pkg/readiness/headless/headless.go:33-53 | In every interleaving an annotation names no version above the latest published. |
| ConfigEquality.AreEqualIffSame | pkg/automationconfig/automation_config.go:289-305 | AreEqual holds exactly when all fields but the version agree, where only the omitempty lists and horizons may be nil on one side and empty on the other. |
| ConfigEquality.EnsureStoresDesired | pkg/automationconfig/automation_config_secret.go:30-64 | The secret then holds the desired config field by field, and so does the result; it stays as it is exactly when it held the same before, and otherwise gets the desired version. |
| AutomationConfig.AreEqualIffContent | pkg/automationconfig/automation_config.go:289-305 | AreEqual is equality of contents: an equivalence blind to the version and to nil against empty. |
| AutomationConfig.EightVote | pkg/automationconfig/automation_config.go:138-159 | Exactly min(n, 8) votes, forming a prefix, with priority 0 on all others. |
| AutomationConfig.ArbitersArePrefix | pkg/automationconfig/automation_config.go:138-159 | Up to 8 arbiters are the first members; more make every member an arbiter. |
| AutomationConfig.DataBearingIff | pkg/automationconfig/automation_config.go:138-159 | A data-bearing member exists exactly when arbiters are at most 8 and fewer than the members. |
| AutomationConfig.MembersVotedInOrder | pkg/automationconfig/automation_config_builder.go:233-245 | The members Build makes are those of the vote-counting loop. |
| AutomationConfig.ProcessNamesDistinct | pkg/automationconfig/automation_config_builder.go:302-304 | Processes with different numbers have different names. |
| Builder.ConfigBuilder.SetFcvIfUpgradeIsHappening | pkg/automationconfig/automation_config_builder.go:173-198 | Keeps the previous compatibility version exactly when the server version is above it; errors leave it alone. |
| Builder.ConfigBuilder.BuildMembers | pkg/automationconfig/automation_config_builder.go:200-245 | The loop equals the closed form and panics exactly when horizons run out. |
| Builder.ConfigBuilder.Build | pkg/automationconfig/automation_config_builder.go:200-300 | Computes the outcome the history lemmas are about, errors and panic included. |
| Builder.EnsureSecret | pkg/automationconfig/automation_config_secret.go:30-64 | Returns what is stored up to contents, and keeps an equal config as it is. |
| Builder.ConfigSecret.Ensure | pkg/automationconfig/automation_config_secret.go:30-83 | The secret afterwards, for missing, keyless and existing configs. |
| ConfigHistory.AdvanceVersion | pkg/automationconfig/automation_config_builder.go:291-299 | One pass raises the version by exactly 1 when it changes the contents and otherwise changes nothing. |
| ConfigHistory.VersionIdentifiesContent | pkg/automationconfig/automation_config_secret.go:30-64 | The version never falls, and while it stands still the stored config is the same. |
| ConfigHistory.VersionCountsChanges | pkg/automationconfig/automation_config_builder.go:257-299 | The version is the number of changes stored so far, starting at 1. |
| ConfigHistory.FcvIsRunningMinimum | pkg/automationconfig/automation_config_builder.go:173-226 | Without explicit settings and from 3.4.0 on, prereleases included, the compatibility version is the least major.minor built so far. |
| SemVer.LessTotal | pkg/util/versions/versions.go:10-22 | Version precedence is total and irreflexive. |
| SemVer.LessTransitive | pkg/util/versions/versions.go:10-22 | Version precedence is transitive. |
| SemVer.ReleaseOrder | pkg/util/versions/versions.go:10-22 | Numbers decide first, and a pre-release precedes its release. |
| ConfigHistory.FcvNeverRises | pkg/automationconfig/automation_config_builder.go:173-198 | Without an explicit setting in the spec a build keeps, lowers or empties it. |
| ConfigHistory.SecondPass | pkg/automationconfig/automation_config_builder.go:200-300 | A second build over unchanged inputs succeeds exactly when the spec sets the compatibility version or the stored one parses; it then has equal contents and the same version, and nothing is written. |
| Stability.SecondReconcileWritesNothing | controllers/replica_set_controller.go:497-525 | A successful pass stores the authentication it configured; after it, a second pass over the same resource writes no secret and no config, whatever either drew at random. |
| ScramCredentials.HmacIteration | pkg/authentication/scramcredentials/scram_credentials.go:65-102 | The in-place xor loop is Hi of section 2.2 of RFC 5802 for every input and count (below 1 counts as 1), has the hash's length, and fails exactly for a salt of the wrong size. |
| ScramCredentials.HiBytes | pkg/authentication/scramcredentials/scram_credentials.go:72-98 | Byte by byte, Hi is the exclusive or of the chain of HMACs that starts from the salt and INT(1). |
| ScramCredentials.XorInto | pkg/authentication/scramcredentials/scram_credentials.go:92-98 | Byte-wise xor into the buffer. |
| ScramCredentials.GenerateSaltedPassword | pkg/authentication/scramcredentials/scram_credentials.go:52-63 | SaltedPassword of section 3 of RFC 5802; fails exactly when preparation or the salt size does. |
| ScramCredentials.ComputeScramCredentials | pkg/authentication/scramcredentials/scram_credentials.go:104-169 | Stored and server keys are those of section 3 of RFC 5802. |
| ScramCredentials.ComputeScramShaCredentials | pkg/authentication/scram/scram.go:245-258 | Both credential sets of a user, or an error exactly when one cannot be computed. |
| ScramCredentials.ComputedAgain | pkg/authentication/scram/scram.go:245-258 | The salts can be read back from computed credentials. |
| Scram.EnsureScramCredentials | pkg/authentication/scram/scram.go:143-185 | Result and secrets afterwards equal the specification the lemmas below are about. |
| Scram.NeedToGenerateNewCredentials | pkg/authentication/scram/scram.go:187-229 | Decides between fresh, keep and error as specified. |
| Scram.ReadExistingCredentials | pkg/authentication/scram/scram.go:276-303 | Reads stored credentials when the keys it asks for are present. |
| Scram.StoredEncoded | pkg/authentication/scram/scram.go:261-303 | Storing and reading credentials is a round trip. |
| Scram.EnsureVerifies | pkg/authentication/scram/scram.go:143-185 | With the password present, success returns exactly what is stored, and that is the recomputation from the password and the stored salts. |
| Scram.RegeneratesIff | pkg/authentication/scram/scram.go:187-229 | Regenerates exactly when no secret exists or intact stored credentials differ from recomputation; otherwise writes nothing. |
| Scram.ReturnsFieldsIff | pkg/authentication/scram/scram.go:276-303 | What a successful call returns is what the secret then holds exactly when the secret had the SHA-1 stored key before the call or new credentials are generated; without a password, success depends only on the other five keys, and a missing stored key is handed out as an empty one. |
| Scram.RunRemembers | pkg/authentication/scram/scram.go:143-229 | Over every run of password edits, deletions and calls, what is stored is what the last success returned and verifies for its password. |
| Scram.RunReturnsLast | pkg/authentication/scram/scram.go:143-229 | While that password is unchanged or deleted, every call returns the same credentials and writes nothing. |
| ScramEnable.ConvertUsers | pkg/authentication/scram/scram.go:305-340 | Users in order, each seeing the secrets left by the previous, stopping at the first failure. |
| ScramEnable.DistinctMechanisms | pkg/authentication/scram/scram_enabler.go:33-72 | Each mechanism once, in order. |
| ScramEnable.EnableScram | pkg/authentication/scram/scram.go:107-139 | The configured authentication and the secrets afterwards. |
| ScramEnable.EnablesIff | pkg/authentication/scram/scram_enabler.go:74-89 | Enabling succeeds exactly when every user succeeds and no option is missing. |
| ScramEnable.EnablesAgent | pkg/authentication/scram/scram_enabler.go:33-72 | The agent has the password and keyfile that their secrets hold afterwards, and the name, mechanisms and file of the options. |
| ScramEnable.EnablesUsers | pkg/authentication/scram/scram.go:305-340 | With distinct names every user is configured under its own name, database and roles, with the credentials stored for it afterwards. |
| ScramEnable.EnsureAgain | pkg/authentication/scram/scram.go:143-185 | After a success the same call gives the same credentials and writes nothing, whatever is drawn. |
| ScramEnable.EnableStable | pkg/authentication/scram/scram.go:107-139 | With distinct secret names a second pass writes no credential, password or keyfile secret and configures the same authentication. |
| Secrets.EnsureKey | pkg/kube/secret/secret.go:116-135 | An existing secret is never touched, and no other secret changes. |
| Secrets.SecretStore.EnsureSecretWithKey | pkg/kube/secret/secret.go:116-135 | The method realises it on the store. |
| Secrets.HasAllKeys | pkg/kube/secret/secret.go:105-113 | True exactly when every key asked for is present. |
| UserSecrets.ValidateUsers | controllers/validation/validation.go:43-66 | Accepts exactly the lists whose joined secret names are pairwise distinct. |
| UserSecrets.DashCollision | pkg/authentication/scram/scram.go:342-344 | Different users can have the same joined name. |
| UserSecrets.UpdateConnectionStringSecrets | controllers/mongodb_users.go:40-64 | For a validated list with passwords kept elsewhere: succeeds exactly when all passwords can be read, and leaves under `<resource>-<db>-<user>` exactly that user's name, password and two connection strings. Other secrets are never touched. |
| StateMachine.Machine.Reconcile | pkg/util/state/statemachine.go:89-136 | The stored name moves exactly as the graph and the call's outcomes say, and the error result is exact. |
| StateMachine.Machine.AddTransition | pkg/util/state/statemachine.go:160-174 | Appends behind the transitions already leaving the state, registers both ends, keeps the graph consistent. |
| StateMachine.Machine.DetermineState | pkg/util/state/statemachine.go:139-151 | Succeeds exactly for a loadable, registered name. |
| StateMachine.Machine.TransitionForState | pkg/util/state/statemachine.go:177-185 | The first-added transition whose predicate holds, or none exactly when none does. |
| StateMachine.RunIsWalk | pkg/util/state/statemachine.go:89-136 | The stored names of any run walk in the graph: they stay unless the state completes without error, and then follow the first-added edge whose predicate holds, or become empty exactly when none does. |
| StateMachine.RunStaysRegistered | pkg/util/state/statemachine.go:160-174 | A run stays on registered names until, perhaps, the empty one. |
| StateMachine.EmptyNameIsFinal | pkg/util/state/statemachine.go:139-151 | After the empty name the stored name stays empty and is not that of a state, for which every call fails, unless a state has that name. |
| StateMachine.MovesDetermined | pkg/util/state/statemachine.go:177-185 | A call determines the next name. |
| SpecMeaning.SpecMeans | pkg/util/merge/merge_statefulset.go:28-59 | For all specs and overrides: every field the override sets has its value, every other field the original's, nothing else appears; lists, selectors, claims and the template are merged as below. |
| SpecMeaning.TemplateMeans | pkg/util/merge/merge_podtemplate_spec.go:10-135 | The same for the pod template, part by part. |
| SpecMeaning.VolumesMean | pkg/util/merge/merge.go:514-603 | Every original volume with the last override of its name over it (the first shared kind merged, otherwise replaced), every new override once, in order. |
| SpecMeaning.RequirementsMean | pkg/util/merge/merge_statefulset.go:80-128 | Every original requirement with the first override of its key over it, every new one added, values and keys in order. |
| SpecMeaning.SelectorMeans | pkg/util/merge/merge_statefulset.go:61-78 | Both selectors merged, or the original as it is. |
| SpecMeaning.ClaimsMean | pkg/util/merge/merge_statefulset.go:130-204 | Every claim name once, with the original, the override or the two merged field by field and access modes joined. |
| SpecMeaning.TolerationsMean | pkg/util/merge/merge.go:484-504 | Every key once, with the override's toleration where it has one. |
| SpecMeaning.AliasesMean | pkg/util/merge/merge_podtemplate_spec.go:184-218 | Every address once, with exactly the host names given for it, the original's first. |
| SpecMeaning.TopologyMeans | pkg/util/merge/merge_podtemplate_spec.go:130-172 | Every topology key once, merged field by field; a nil override changes nothing. |
| SpecMeaning.DnsMeans | pkg/util/merge/merge_podtemplate_spec.go:220-244 | The side that is there, or both field by field with lists joined. |
| MergeMeaning.ContainersMean | pkg/util/merge/merge.go:38-132 | Every container name once and in order, with the original, the override or the two merged. |
| MergeMeaning.ContainerMeans | pkg/util/merge/merge.go:76-132 | Every field the override sets has its value, every other the original's; ports, variables, mounts, devices and probes likewise, commands and arguments joined. |
| MergeMeaning.MountsMean | pkg/util/merge/merge.go:411-482 | For any map iteration order: every mount key of either side represented once, by the mount, or by the two merged field by field. |
| MergeMeaning.StringsJoined | pkg/util/merge/merge.go:13-24 | The first list, then what only the second has, each once and in its order. |
| MergeMeaning.KeysAre | pkg/util/merge/merge.go:402-448 | What identifies the elements of each merged list. |
| MergeMeaning.MergeMeans | pkg/util/merge/merge.go:237-335 | A keyed merge has every key once and in order, with the last element of either side or the two merged. |
| StatefulSetFixpoint.MergeFixpointIff | pkg/util/merge/merge_statefulset.go:28-59 | For all specs and overrides the third merge equals the second exactly when override-only volumes share a kind with the last override of their name or that one repeats no item key, and, in every container both sides have, the mounts merged once keep their keys when merged again. |
| StatefulSetFixpoint.KeptKeysSettle | pkg/util/merge/merge_statefulset.go:28-59 | If the first merge keeps the keys of all mounts, the condition on mounts holds for the third merge and for the fourth. |
| StatefulSetFixpoint.ContainersSettleIff | pkg/util/merge/merge.go:38-132 | For all containers: they settle at the second merge exactly when the mounts of the shared ones do. |
| StatefulSetFixpoint.MergeFixpointLate | pkg/util/merge/merge_statefulset.go:28-59 | For all specs and overrides the fourth merge equals the third, whatever the volumes, exactly when the mounts merged twice keep their keys. |
| StatefulSetOnce.MergeOnceIff | pkg/util/merge/merge_statefulset.go:28-59 | For all specs and overrides the second merge equals the first exactly when: in shared containers no new variable has both a value and a source and merging keeps the keys of mounts, new containers list everything in key order with single-source variables, the last override of a volume's name is of a kind the volume shares or repeats no item key and adds nothing to volumes the original lacks, and the first requirement for a key adds nothing to new ones. |
| StatefulSetOnce.TidyIsOrderly | pkg/util/merge/merge_statefulset.go:28-59 | Unique volume, item and requirement keys are enough for the part of that condition about volumes and selectors. |
| StatefulSetFixpoint.CollidingMounts | pkg/util/merge/merge.go:441-443 | A concrete spec and override whose mounts join to the same keys and whose third merge differs from the second. |
| StatefulSetFixpoint.SlowOverride | pkg/util/merge/merge.go:541-595 | A concrete override whose third merge differs from its second. |
| StatefulSetOnce.EnvsAbsorbIff | pkg/util/merge/merge.go:286-327 | Environments absorb a repeated override exactly when no new variable has both a value and a source. |
| StatefulSetOnce.ContainersOnceIff | pkg/util/merge/merge.go:38-66 | For all containers: exactly when one merge is final. |
| StatefulSetLaws.RequirementsSettle | pkg/util/merge/merge_statefulset.go:80-119 | Selector requirements settle at the second merge. |
| StatefulSetLaws.LabelSelectorsSettle | pkg/util/merge/merge_statefulset.go:61-78 | Label selectors settle at the second merge. |
| StatefulSetLaws.OverrideReachesSelectorIff | pkg/util/merge/merge_statefulset.go:61-78 | The override's labels and its first requirement for each key reach the merged selector exactly when the original is not nil. |
| StatefulSetLaws.HostAliasesAbsorb | pkg/util/merge/merge_podtemplate_spec.go:184-218 | Host aliases absorb a repeated override. |
| StatefulSetLaws.TolerationsAbsorb | pkg/util/merge/merge.go:484-504 | Tolerations absorb a repeated override. |
| StatefulSetLaws.TopologyAbsorbs | pkg/util/merge/merge_podtemplate_spec.go:137-172 | Topology constraints absorb a repeated override. |
| StatefulSetLaws.DNSConfigAbsorbs | pkg/util/merge/merge_podtemplate_spec.go:220-244 | DNS settings absorb a repeated override. |
| StatefulSetLaws.ClaimsAbsorb | pkg/util/merge/merge_statefulset.go:130-204 | Claim templates absorb a repeated override. |
| VolumeLaws.VolumesSettleIff | pkg/util/merge/merge.go:514-603 | Exactly when volumes settle at the second merge. |
| VolumeLaws.ReplacedQuietIff | pkg/util/merge/merge.go:541-595 | A volume replaced by another kind is final exactly when the new one repeats no item key. |
| VolumeLaws.ItemsTidy | pkg/util/merge/merge.go:605-627 | The order of items does not influence what a merge makes of them. |
| VolumeLaws.ItemsWithSelf | pkg/util/merge/merge.go:605-627 | Merging items with themselves only drops repeated keys. |
| MountLaws.MountsTwiceIff | pkg/util/merge/merge.go:411-438 | For all mounts and any map iteration orders, the second merge equals the first exactly when the first kept the keys of the mounts it merged. |
| MountLaws.MountsDeterminedIff | pkg/util/merge/merge.go:425-437 | The result does not depend on map iteration order exactly when no two different merged mounts have the same key. |
| MountLaws.KeptIsDetermined | pkg/util/merge/merge.go:411-438 | If merging keeps the keys, there is one result only. |
| MountLaws.UnsettledMounts | pkg/util/merge/merge.go:411-482 | Concrete mounts whose third merge differs from the second in any map iteration order. |
| MountLaws.InjectiveKeepsKeys | pkg/util/merge/merge.go:441-443 | Mount points with different joined keys keep them. |
| Arrangement.UniqueIff | pkg/util/merge/merge.go:425-435 | Ranging over a map and sorting by key gives one list only exactly when no two different values have the same key. |
| Arrangement.KeyedArrangement | pkg/util/merge/merge.go:425-435 | For a map whose values have their own keys that is the one strictly sorted list of its entries. |
| PodMergeLaws.ContainerAbsorbs | pkg/util/merge/merge.go:76-132 | Everything of a container but its environment and its mounts absorbs a repeated override. |
| PodMerge.StringSlices | pkg/util/merge/merge.go:13-24 | Keeps the first list and appends exactly the missing elements of the second, each once. |
| KeyedMerge.MergeIsListing | pkg/util/merge/merge.go:38-66 | A keyed merge is strictly sorted, has exactly the union of the keys, and each entry is the original's, the override's or the two merged. |
| KeyedMerge.MergeDetermined | pkg/util/merge/merge.go:38-66 | Any strictly sorted list of the merged entries is the result, so iteration order cannot show. |
| KeyedMerge.MergeSettles | pkg/util/merge/merge.go:237-335 | If elements settle at the second merge, so does the list. |
| KeyedMerge.MergeTwiceIff | pkg/util/merge/merge.go:237-335 | Exactly when the second merge changes nothing. |
| ExtendMerge.ExtendSettlesIff | pkg/util/merge/merge.go:514-539 | The same for merges that keep the originals in place and append the rest. |
| MergeLoops.UnionOfStrings | pkg/util/merge/merge.go:13-24 | The loop computes the union in order. |
| MergeLoops.ContainerPortSlicesByName | pkg/util/merge/merge.go:375-409 | For any map iteration order, the merged and sorted ports. |
| MergeLoops.MergeEnvs | pkg/util/merge/merge.go:286-335 | For any map iteration order, the merged and sorted environment. |
| MergeLoops.MergeVolumeDevices | pkg/util/merge/merge.go:237-284 | For any map iteration order, the merged and sorted devices. |
| MergeLoops.MergeVolumeMounts | pkg/util/merge/merge.go:411-482 | For any map iteration order, the merged mounts each once and in key order; one fixed list when merging keeps the keys. |
| MergeLoops.MergeOneContainer | pkg/util/merge/merge.go:76-132 | Every part of the container comes from the side that sets it, the override first; fixed but for the order of mounts with one key. |
| MergeLoops.MergeContainers | pkg/util/merge/merge.go:38-74 | For any map iteration order, each container name once and in order, with the original, the override or the two merged, fixed but for the order of mounts with one key. |
| MergeLoops.ContainersDetermined | pkg/util/merge/merge.go:38-74 | Where merging keeps the keys of mounts, that is the one list the other laws are about. |
| MergeLoops.MergeTolerations | pkg/util/merge/merge.go:484-512 | For any map iteration order, the override's tolerations over the original's, sorted. |
| MergeLoops.MergeHostAliases | pkg/util/merge/merge_podtemplate_spec.go:184-218 | For any map iteration order, aliases by address with united host names, sorted. |
| MergeLoops.MergeVolumeClaimTemplates | pkg/util/merge/merge_statefulset.go:130-204 | For any map iteration order, the merged and sorted claims. |
| MergeLoops.MergeRequirements | pkg/util/merge/merge_statefulset.go:80-128 | Originals merged in place, new requirements behind, sorted. |
| MergeLoops.MergeKeyToPathItems | pkg/util/merge/merge.go:605-651 | For any map iteration order, the merged items up to order. |
| MergeLoops.MergeTopologyConstraints | pkg/util/merge/merge_podtemplate_spec.go:130-158 | For any map iteration order, the merged constraints up to order; a nil override returns the original. |
| MergeLoops.MergeOneVolume | pkg/util/merge/merge.go:541-595 | Shared kinds are merged, other kinds replaced. |
| MergeLoops.MergeVolumes | pkg/util/merge/merge.go:514-539 | Originals merged in place, new volumes behind, sorted by name. |
| PodMerge.RequirementByKey | pkg/util/merge/merge_statefulset.go:121-128 | Finds the first requirement with the key, exactly when there is one. |
| Ordering.SortIsListing | pkg/util/merge/merge.go:60-64 | Sorting a list with distinct keys gives the one strictly sorted list of its entries. |

## Left out

- Network, clocks and API errors other than not-found and failed writes; a failed write of the Failed phase after a rejected
  spec leaves the store as it was and is not a step.
- Conflicts on status writes: the model lets a status write succeed although the user edited the spec meanwhile, so its runs
  include all real ones.
- Services, watches, TLS and user resources prepared before the deployment: they appear as one step that may fail.
- StatefulSets from before the readiness probe init container, for which the gate is skipped.
- The interleaving of single pod reads inside a protocol run: the protocol's gate reads all pods at once, `GoalState` models
  the reads one by one.
- StatefulSetFixpoint.MergeFixpointIff: where two merged mounts have one key, the merge function stands for one of the orders
  the map may give them; `MountsTwiceIff` says the same of all orders.
- StatefulSetFixpoint.MergeFixpointLate: the same.
- MergeLoops.MergeKeyToPathItems: the result is compared as a multiset and in key order, because the source leaves it in map
  iteration order.
- MergeLoops.MergeVolumes: compared with items in key order, for the same reason; so are topology constraints.
- Pointer aliasing in the volume merge and in-place sorting of the caller's slices: merges work on values.
- Fields merged by "override unless zero" are grouped in one map per struct, zero values absent; fields the code never takes
  from the override, and ephemeral containers, are not represented.
- Nested mongod configuration: process arguments are a map by dotted path, and additional configuration has no empty values.
- The fluent builders and setters of pods, containers and StatefulSets, custom role conversion, monitoring and backup versions,
  download builds, SSL settings and process modifications of the builder.
- Validation of authentication modes: part of one flag saying that the spec is otherwise valid.
- URI formatting: a parameter of the user secrets. The probe's and version hook's programs around the annotation report.
- Build metadata in semantic versions, parsing itself, cryptographic primitives and encodings.
