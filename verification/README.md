# Verification of the Kubewarden add-on provider

This project models the two reconcilers of the Cluster API add-on provider for Kubewarden and proves how they
behave together. A management cluster holds `Cluster` objects, `KubewardenAddon`s and `KubewardenPolicy`s; each
workload cluster has an object store of its own. The addon controller installs Kubewarden on the clusters an addon
selects and records that in an annotation; the policy controller takes the annotation as the evidence of an
installation and creates or updates one policy object on each cluster a policy selects.

Every remote call has a fault chosen by the environment: it goes through, it is refused, or it takes effect and its
reply is lost. Cluster lists may be stale and in any order. Theorems about failures quantify over all such choices.

| file | contents |
|---|---|
| `Api.dfy` | clusters, policies, objects of a workload cluster |
| `Remote.dfy` | calls, faults, runs of calls |
| `Manifest.dfy` | documents and the law of `applyManifest` |
| `Install.dfy` | the install pipeline, crash and resume |
| `AddonPass.dfy` | a pass of the addon controller, runs of passes, the Ready field, a repaired variant |
| `Labels.dfy` | selectors, selection, watch maps |
| `Admission.dfy` | defaulting, validation, conversion of a policy |
| `PolicyPass.dfy` | a pass of the policy controller, runs of passes, deletion, status |
| `System.dfy` | both controllers interleaved call by call, safety over all runs |
| `Interleaving.dfy` | policy passes in flight at once come to passes in turn |
| `MergePatch.dfy` | RFC 7396 and the two merge patches |
| `DeepCopy.dfy` | the generated copies on the heap |
| `Fleet.dfy` | API servers and remote clients as classes |
| `AddonController.dfy`, `PolicyController.dfy` | the reconcilers as loops over those classes, proved against the pass functions |
| `TextUtils.dfy` | the two text helpers |

## How the parts fit

The pass functions (`AddonPass.Loop`, `PolicyPass.Loop`, `PolicyPass.DeleteLoop`) are connected on both sides. The
methods of `AddonController` and `PolicyController`, which follow the loops and early returns of the source, are proved
to leave the servers as those functions say. `System` cuts a pass into single calls, and the lemmas
`InstallPassIsItsCalls`, `DeployPassIsItsCalls` and `DeletePassIsItsCalls` prove that a pass left alone does, call by
call, what the functions say. Theorems about passes are proved for the functions; safety is proved for the calls. For
passes of the policy controller that run at the same time, `Interleaving.InterleavingIsSerial` carries what is
proved about the stores after such passes over to their interleaved calls.

## Where the code and its stated intent part

The code is modelled as written. These are the places where a comment, a document or the other controller says
something else.

- An annotated cluster ends the addon's pass instead of being skipped
  (`internal/controller/kubewardenaddon_controller.go:138-141`). `AddonPass.AllAnnotatedIff` gives the exact lists on
  which a pass still completes the selection. Over runs whose passes see the annotations as they are,
  `AddonPass.OnePassDecides` shows that one pass decides the outcome for good, `AddonPass.CleanRunCompletesIff` when
  that outcome is the promised one, and `AddonPass.StuckOccurs` that it need not be. `AddonPass.RepairedConverges` is
  about a variant with `continue`, which is not the code.
- As a consequence a Ready value whose status patch was refused is never sent again (`AddonPass.LostReadyStaysLost`,
  with an instance in `AddonPass.LostReadyOccurs`), although the comment at
  `internal/controller/kubewardenaddon_controller.go:216` calls the failure harmless.
- A document without a kind ends its file, although the comment says that it is skipped
  (`internal/controller/kubewardenaddon_controller.go:507-510`). `Manifest.SkipsIff` says on which files that makes no
  difference to any run, `Manifest.KindlessHidesObject` gives one on which it does.
- The addon's snapshot is taken after the matching clusters were set, so they never reach the server
  (`internal/controller/kubewardenaddon_controller.go:126`, `206-214`): `MergePatch.StatusPatchEffect`.
- The addon controller wants one of two readiness signals, the policy controller both
  (`internal/controller/kubewardenaddon_controller.go:134`, `internal/controller/kubewardenpolicy_controller.go:133`):
  `System.OneSignalGap`.
- A policy that no cluster matches any more keeps its old list of matching clusters
  (`internal/controller/kubewardenpolicy_controller.go:113-121`): `PolicyPass.MatchingClustersCurrentIff`.
- Uncommenting ignores the scanner's error, so behind a line too long for its buffer the rest of the block is dropped
  without an error (`test/utils/utils.go:226-250`): `TextUtils.UncommentRoundTripIff`, `TextUtils.TailIsLost` and
  `TextUtils.TailLossOccurs`.

Ready on a policy promises a successful deployment (`api/v1alpha1/kubewardenpolicy_types.go:125-126`), not an active
policy. `PolicyPass.ActiveIff` and `PolicyPass.ReadyAndActiveIff` say when it is also reported as active.

## Model

| member | source | states |
|---|---|---|
| `System.Safety` | internal/controller/kubewardenaddon_controller.go:130-203 | along every run from an unannotated start, with passes of both controllers interleaved call by call, any call refused or its reply lost, passes crashing and lists arbitrarily stale: every annotated cluster has its namespace, every object of every CRD file and of both charts, and the two tolerated objects; and a cluster to which a policy object is written is annotated and installed so in the state of the write and in every later state, the last included |
| `System.StepKeepsInv` | internal/controller/kubewardenpolicy_controller.go:129-164 | the invariant behind safety is kept by every step of either controller and of the environment |
| `System.OnlyWritesWrite` | internal/controller/kubewardenpolicy_controller.go:272-286 | outside the install pipeline no step of a pass adds or changes an object except the create or update of the policy's own target, so the writes of the safety theorem are all of them |
| `System.AnnotationIsForEver` | internal/controller/kubewardenaddon_controller.go:185-202 | once annotated, a cluster stays annotated to the end of the run |
| `System.InstallPassIsItsCalls` | internal/controller/kubewardenaddon_controller.go:130-203 | an addon pass that runs alone, one call at a time, ends in the world that the pass function gives |
| `System.DeployPassIsItsCalls` | internal/controller/kubewardenpolicy_controller.go:129-164 | the same for a policy pass, with the object that was read carried from the get to the create or update |
| `System.DeletePassIsItsCalls` | internal/controller/kubewardenpolicy_controller.go:188-201 | the same for a deletion |
| `System.NoLostUpdate` | internal/controller/kubewardenpolicy_controller.go:272-286 | along every run, if the next call of a policy pass after it has read its target changes that object, the object is then still exactly what was read, and only its spec is replaced |
| `Interleaving.InterleavingIsSerial` | internal/controller/kubewardenpolicy_controller.go:126-164 | passes of policies with different targets may be in flight at once: in whatever order their calls come and whichever fail or lose their reply, the workload stores end as if the same passes, failing alike, had run one after the other, in any order |
| `Interleaving.MoveKeepsInvariant` | internal/controller/kubewardenpolicy_controller.go:254-321 | along an interleaving every object is at all times what the one pass that has written it wants, or what it was; and what a pass has read and will replace is still what it read |
| `Interleaving.ApartIsSerial` | internal/controller/kubewardenpolicy_controller.go:254-321 | the same for given faults and passes of which no two in fact write the same object, which policies with one target may also satisfy |
| `System.OneSignalGap` | internal/controller/kubewardenpolicy_controller.go:132-137 | a cluster with exactly one readiness signal, with no annotation and no annotated or signal-less cluster in front of it in the addon's list, is installed and annotated; then no policy pass over any list with that cluster writes to it or reports Ready |
| `System.OneSignalGetsNoPolicy` | internal/controller/kubewardenpolicy_controller.go:132-137 | whatever is listed with it and whatever fails, a policy pass leaves the store of a cluster with exactly one readiness signal alone, reports no entry for it and is not Ready |
| `Install.CrashResume` | internal/controller/kubewardenaddon_controller.go:149-183 | any number of installations broken off at any call, followed by one without failures, leave the store and verdict of a single failure-free installation on the original store |
| `Install.SuccessHidesOnlyAudit` | internal/controller/kubewardenaddon_controller.go:459-477 | an installation that reports success has left the store of a failure-free one, but for the toleration of the optional audit scanner |
| `Install.InstallSucceedsIff` | internal/controller/kubewardenaddon_controller.go:373-437 | an installation succeeds on a store exactly if no call but perhaps the last fails, every document that is read is an object, and both objects that must be patched are there or among the documents |
| `Install.InstallableIff` | internal/controller/kubewardenaddon_controller.go:286-371 | a set of manifests can be installed from every store exactly if every document that is read is an object and both objects to be patched are among them |
| `Install.InstallCompletes` | internal/controller/kubewardenaddon_controller.go:149-183 | a reported success means that the namespace, every object of every CRD file and of both charts are there and both mandatory patches applied, whatever was swallowed on the way |
| `Install.InstallLaw` | internal/controller/kubewardenaddon_controller.go:149-183 | whatever fails, the store is the old one with a prefix of the documents applied, of namespace, CRD files, controller chart and default chart in this order, existing objects and then the first document for a key winning over all files; on success with all of them, and with the tolerations of exactly the three patched objects |
| `Install.NothingUnfetched` | internal/controller/kubewardenaddon_controller.go:286-371 | an object comes into the store only if the cluster was reached, the CRDs were downloaded, and for those of a chart that chart was rendered |
| `Remote.FaultyRunIsAbsorbed` | internal/controller/kubewardenaddon_controller.go:518-523 | for every list of calls in which only the last may be an optional patch: a failure-free run after a run with any faults ends like one on the original store, because creation never overwrites and the patches are idempotent |
| `Remote.RunExtends` | internal/controller/kubewardenaddon_controller.go:518-523 | no run removes an object or changes its content or status, and a toleration only ever becomes the control-plane one |
| `Remote.SuccessLeavesMarks` | internal/controller/kubewardenaddon_controller.go:395-437 | a run that succeeds has left the mark of each of its calls |
| `Manifest.ManifestLaw` | internal/controller/kubewardenaddon_controller.go:492-526 | whatever fails, the store is the old one extended by a prefix of the documents before the first without a kind, with existing objects and then earlier documents winning; by all of them if no error is reported; without failures it stops early only in front of a document that is no object |
| `Manifest.FilesLaw` | internal/controller/kubewardenaddon_controller.go:313-319 | the same for a row of files: whatever fails, a prefix of all their documents has been applied, all of them if no error is reported, and the first document for a key over all files counts |
| `Manifest.EarliestIsFirst` | internal/controller/kubewardenaddon_controller.go:518-523 | of several documents for one object the one with the least position counts |
| `Manifest.ManifestRerun` | internal/controller/kubewardenaddon_controller.go:492-526 | applying a manifest again after any broken-off attempt ends like applying it once |
| `Manifest.NothingBehindKindless` | internal/controller/kubewardenaddon_controller.go:506-510 | nothing behind a document without a kind is ever applied |
| `Manifest.SkipsIff` | internal/controller/kubewardenaddon_controller.go:506-510 | whatever the store and whatever fails, the file ends as if documents without a kind were passed over, as the comment says, exactly if a document that is no object stands in front of the first without a kind, so that an error ends the file there, or only documents without a kind follow that first one |
| `Manifest.KindlessHidesObject` | internal/controller/kubewardenaddon_controller.go:506-510 | an input on which the code and its comment differ: a missing object behind a document without a kind stays missing, and no error is reported |
| `AddonPass.ExactEffect` | internal/controller/kubewardenaddon_controller.go:130-203 | a failure-free pass installs and annotates exactly the clusters in front of the first that has neither readiness signal or is already annotated, touches nothing else, and ends as that cluster demands |
| `AddonPass.PassLaw` | internal/controller/kubewardenaddon_controller.go:130-203 | the exact effect of any pass, whatever fails: a first part of the list is installed and annotated; at the next cluster the pass ends for want of a signal, at an annotation, or giving up, which leaves there what the failed installation left and an annotation only if its reply was lost; nothing else is touched |
| `AddonPass.LoopGrows` | internal/controller/kubewardenaddon_controller.go:130-203 | whatever fails, a pass removes no annotation and no object of any workload cluster |
| `AddonPass.ProgressBound` | internal/controller/kubewardenaddon_controller.go:130-141 | the number of unannotated clusters never rises in a pass, and falls only if the first listed cluster is ready and not annotated |
| `AddonPass.ProgressOverRuns` | internal/controller/kubewardenaddon_controller.go:130-203 | over any run of passes the number never rises |
| `AddonPass.ProgressExact` | internal/controller/kubewardenaddon_controller.go:130-203 | on a list that shows the annotations as they are, a failure-free pass lowers the number by exactly the length of the front part |
| `AddonPass.AllAnnotatedIff` | internal/controller/kubewardenaddon_controller.go:138-141 | with all clusters ready and no failure, a pass completes the selection exactly if no unannotated cluster is listed behind an annotated one |
| `AddonPass.AnnotatedIsPrefix` | internal/controller/kubewardenaddon_controller.go:130-203 | for a selection in fixed order that starts unannotated the annotated clusters are at all times a prefix of the order that never shrinks, with any failures and however stale the lists |
| `AddonPass.OnePassDecides` | internal/controller/kubewardenaddon_controller.go:130-217 | for a selection that starts unannotated, one pass decides a fresh run (one whose passes list the selection in a fixed order and see annotations and Ready as they are): before it nothing is annotated, after it nothing changes, and the addon ends Ready exactly if that pass finished and its status patch was not refused |
| `AddonPass.FrozenOnceStarted` | internal/controller/kubewardenaddon_controller.go:138-141 | over any fresh run, once one cluster of the selection is annotated nothing changes any more: no cluster, no workload store, not the addon's Ready |
| `AddonPass.CleanRunCompletesIff` | api/v1alpha1/kubewardenaddon_types.go:27-28 | when a fresh run meets the promise: if no installation call fails, the selection is completed exactly if the first pass that finds the first cluster ready finds all of them ready, and the addon ends Ready exactly if that pass's status patch was not refused either |
| `AddonPass.StuckForEver` | internal/controller/kubewardenaddon_controller.go:138-141 | a selection that a fresh run from an unannotated start has left partly annotated is the same after every fresh continuation, and the addon is never Ready |
| `AddonPass.StuckOccurs` | internal/controller/kubewardenaddon_controller.go:138-141 | such fresh runs exist for every selection of two or more clusters and every installable bundle, with no call and no status patch failing: the second cluster becomes ready one pass later than the first, and only the first is ever annotated |
| `AddonPass.FinishedMeansInstalled` | internal/controller/kubewardenaddon_controller.go:130-207 | a pass that finishes has itself found every listed cluster with a readiness signal and unannotated, installed it from start to end and annotated it |
| `AddonPass.ReadyIsEarned` | internal/controller/kubewardenaddon_controller.go:205-219 | Ready turns true on the server only through such a pass over at least one cluster |
| `AddonPass.LostReadyStaysLost` | internal/controller/kubewardenaddon_controller.go:212-217 | in a fresh run, if the pass that installs the whole selection finishes and its status patch is refused, then after every fresh continuation all clusters are annotated and the addon is not Ready |
| `AddonPass.LostReadyOccurs` | internal/controller/kubewardenaddon_controller.go:212-217 | such fresh runs exist for every selection, with nothing else failing |
| `AddonPass.RepairedConverges` | internal/controller/kubewardenaddon_controller.go:138-141 | repaired variant, not the code: with `continue` for an annotated cluster one failure-free pass over ready clusters installs and annotates exactly the missing ones |
| `AddonPass.RepairedCompletes` | api/v1alpha1/kubewardenaddon_types.go:27-28 | repaired variant, not the code: and so completes the selection |
| `AddonController.ApplyManifest` | internal/controller/kubewardenaddon_controller.go:480-527 | the document loop carries out the calls of the manifest in order and reports their verdict |
| `AddonController.CreateKubewardenNamespace` | internal/controller/helpers.go:43-57 | creates the namespace, an existing one counting as success |
| `AddonController.InstallKubewardenCRDs` | internal/controller/kubewardenaddon_controller.go:286-320 | fetches the release and applies its files in turn up to the first error |
| `AddonController.InstallChart` | internal/controller/kubewardenaddon_controller.go:322-371 | renders and applies a chart |
| `AddonController.ApplyControlPlaneTolerations` | internal/controller/kubewardenaddon_controller.go:373-478 | two patches that must succeed and one whose failure is swallowed |
| `AddonController.InstallOnServer` | internal/controller/kubewardenaddon_controller.go:143-183 | the stages together leave the store of a run of the whole plan, whichever call fails |
| `AddonController.Reconciler.InstallOnClusters` | internal/controller/kubewardenaddon_controller.go:130-203 | the loop with its early returns leaves the clusters and all workload stores as the pass function says |
| `AddonController.Reconciler.ReconcileNormal` | internal/controller/kubewardenaddon_controller.go:110-220 | listing, selection, status in memory, loop, status patch: the complete new state and the answer to the work queue in every case |
| `AddonController.KubewardenAddon.SetMatchingClusters` | api/v1alpha1/kubewardenaddon_types.go:107-119 | one reference for each cluster, in order |
| `AddonController.SelectClusters` | internal/controller/kubewardenaddon_controller.go:257-272 | an invalid selector is an error, and what makes it invalid; else exactly the matching clusters are returned in order |
| `AddonController.ClusterToKubewardenAddon` | internal/controller/kubewardenaddon_controller.go:222-255 | namespace and name of every addon are enqueued in order, and none if the listing fails |
| `Labels.SelectedByLabels` | internal/controller/kubewardenaddon_controller.go:264-271 | on the labels alone: matchLabels selects exactly the listed clusters that have each label with that value |
| `Labels.SelectedByOperator` | config/crd/bases/addon.cluster.x-k8s.io_kubewardenaddons.yaml:46-74 | on the labels alone: what each of In, NotIn, Exists and DoesNotExist selects, an absent label being selected by NotIn |
| `Labels.SelectedByAll` | config/crd/bases/addon.cluster.x-k8s.io_kubewardenaddons.yaml:46-48 | a selector selects what all its parts select |
| `Labels.SelectMultiplicity` | internal/controller/kubewardenaddon_controller.go:264-271 | a cluster is selected as often as it is listed if its labels match, else never |
| `Labels.SelectKeepsOrder` | internal/controller/kubewardenaddon_controller.go:264-271 | the selection is the list with exactly the clusters left out whose labels do not match |
| `Labels.FiltersCommute` | internal/controller/kubewardenpolicy_controller.go:453-458 | filtering by label and then by namespace gives the list of filtering by namespace and then by label, so the addon's own filter and the server-side query agree |
| `Labels.MatchingClustersIff` | internal/controller/kubewardenpolicy_controller.go:441-463 | an error exactly for a misspelt selector, an unknown operator, or one with values where it must have none or none where it must have some; else the clusters of the policy's namespace that the selector selects |
| `Labels.MatchingKeepsOrder` | internal/controller/kubewardenpolicy_controller.go:453-458 | and the result is the list with exactly the others left out |
| `Labels.MatchLabelsAsIn` | config/crd/bases/addon.cluster.x-k8s.io_kubewardenaddons.yaml:80-87 | matchLabels selects, and is valid, like its translation to In requirements |
| `Labels.RequirementShrinks` | config/crd/bases/addon.cluster.x-k8s.io_kubewardenaddons.yaml:46-48 | a further requirement keeps exactly the selected clusters that meet it |
| `Labels.OppositesPartition` | config/crd/bases/addon.cluster.x-k8s.io_kubewardenaddons.yaml:59-63 | In and NotIn, and Exists and DoesNotExist, part every list in two |
| `Labels.WatchInvertsSelection` | internal/controller/kubewardenpolicy_controller.go:465-498 | an event for a listed cluster enqueues a policy exactly if the policy's matching clusters contain that cluster |
| `Labels.PolicyMapKeepsOrder` | internal/controller/kubewardenpolicy_controller.go:480-498 | an event enqueues, once each and in listing order, namespace and name of the policies in the cluster's namespace with a valid selector that matches |
| `Labels.NoChangeMissed` | internal/controller/kubewardenpolicy_controller.go:465-498 | whenever a change, addition or removal of a cluster changes what a policy's query returns, the old or the new version enqueues the policy |
| `Labels.AddonMapEnqueuesAll` | internal/controller/kubewardenaddon_controller.go:240-253 | namespace and name of every listed addon are enqueued, once each and in order, so in particular each that selects the cluster |
| `Admission.DefaultsReachTheCluster` | docs/kubewardenpolicy-guide.md:164-175 | the documented defaults in the workload cluster: kind, name and namespace of the deployed object, policy server and failure policy of its spec, and the rest of the spec as built without defaulting |
| `Admission.DefaultCompletes` | api/v1alpha1/kubewardenpolicy_webhook.go:43-70 | a defaulted policy lacks nothing that has a default, and defaulting changes exactly the policies that lack something |
| `Admission.DefaultIsIdempotent` | api/v1alpha1/kubewardenpolicy_webhook.go:43-70 | defaulting twice is defaulting once |
| `Admission.VerdictIsUnique` | api/v1alpha1/kubewardenpolicy_webhook.go:99-146 | what validation promises leaves one verdict, so a rule error names the least failing rule and its first failing check |
| `Admission.RuleErrorNames` | api/v1alpha1/kubewardenpolicy_webhook.go:113-135 | a rule error names the first thing missing in that rule, or its first operation that is not CREATE, UPDATE, DELETE or CONNECT |
| `Admission.DefaultedAdmittedIff` | api/v1alpha1/kubewardenpolicy_webhook.go:99-146 | a defaulted policy is admitted exactly if it has a module and rules, and every rule has versions, resources and operations, all of the latter CREATE, UPDATE, DELETE or CONNECT |
| `Admission.EmptyIsLeftOut` | internal/controller/kubewardenpolicy_controller.go:323-379 | what a policy leaves empty is left out of the deployed spec, except for operations, which are always sent |
| `Admission.RecoverIff` | internal/controller/kubewardenpolicy_controller.go:323-379 | reading a deployed object back gives the policy unchanged exactly for the representable policies |
| `Admission.AdmittedIsRecovered` | internal/controller/kubewardenpolicy_controller.go:323-379 | an admitted policy comes back whole: rules in order, scopes, failure policy, settings, match conditions; only nil and empty of absent parts, and an ignored target namespace, are forgotten |
| `PolicyController.KubewardenPolicy.Default` | api/v1alpha1/kubewardenpolicy_webhook.go:43-70 | the defaulting webhook gives the defaulted spec |
| `PolicyController.Validate` | api/v1alpha1/kubewardenpolicy_webhook.go:99-146 | the scan returns the verdict that the promise determines |
| `PolicyController.BuildPolicySpec` | internal/controller/kubewardenpolicy_controller.go:323-363 | the loops build the spec that the conversion function gives, nil and empty told apart |
| `PolicyController.ConvertAll` | internal/controller/kubewardenpolicy_controller.go:365-371 | operations come out in order, nil as empty |
| `PolicyController.KubewardenPolicy.SetMatchingClusters` | api/v1alpha1/kubewardenpolicy_types.go:203-215 | one reference for each cluster, in order, and no other status field changed |
| `PolicyController.ClusterToKubewardenPolicy` | internal/controller/kubewardenpolicy_controller.go:465-498 | the loop enqueues the policies of the cluster's namespace whose valid selector matches, in order, and none if the listing fails |
| `PolicyController.CreateOrUpdate` | internal/controller/kubewardenpolicy_controller.go:254-321 | not found leads to a create, found to an update of the content alone, any other error to none |
| `PolicyController.DeployPolicy` | internal/controller/kubewardenpolicy_controller.go:206-252 | store, error and activity after deployment and probe, for every fault of the three calls |
| `PolicyController.DeletePolicy` | internal/controller/kubewardenpolicy_controller.go:406-439 | the target is gone, and a target that was not there is no error |
| `PolicyController.Reconciler.DeployOnClusters` | internal/controller/kubewardenpolicy_controller.go:126-164 | the loop leaves all stores, the entries and the verdict as the pass function says; no failure stops it |
| `PolicyController.Reconciler.ReconcileNormal` | internal/controller/kubewardenpolicy_controller.go:103-175 | the complete new state and the answer to the work queue in every case |
| `PolicyController.Reconciler.ReconcileDelete` | internal/controller/kubewardenpolicy_controller.go:177-204 | the loop leaves the stores as the deletion function says |
| `PolicyPass.PassIsPointwise` | internal/controller/kubewardenpolicy_controller.go:126-168 | for distinct clusters every store, entry and verdict is a function of the cluster's own store before the pass and its own faults |
| `PolicyPass.EntryCount` | internal/controller/kubewardenpolicy_controller.go:126-168 | the status names each listed cluster's own entry exactly once if its visit gives one, and no other entry for it |
| `PolicyPass.OrderIrrelevant` | internal/controller/kubewardenpolicy_controller.go:126-168 | permuting the list permutes the entries and leaves the stores and Ready the same |
| `PolicyPass.FailureIsolation` | internal/controller/kubewardenpolicy_controller.go:129-164 | one cluster's store and its entries in the status, with their number, are the same whatever the other clusters, their stores and their failures |
| `PolicyPass.JobEffect` | internal/controller/kubewardenpolicy_controller.go:254-321 | the whole effect of a pass is its one object on the clusters it reaches |
| `PolicyPass.ReconcilesCommute` | internal/controller/kubewardenpolicy_controller.go:103-175 | passes that never write the same object on the same cluster end in the same stores in every order |
| `PolicyPass.LastWriterWins` | internal/controller/kubewardenpolicy_controller.go:282-286 | where passes share a target the spec of the last that wrote stands, and an object none wrote is unchanged |
| `PolicyPass.Convergence` | internal/controller/kubewardenpolicy_controller.go:103-175 | from any stores, one failure-free pass over reachable clusters with both signals and the annotation gives each target the built spec, keeps the rest of it and every other object, reports Ready, and a second pass changes nothing |
| `PolicyPass.DeployThenDelete` | internal/controller/kubewardenpolicy_controller.go:177-204 | deployment with any failures and then failure-free deletion equals removing the target, and is idempotent |
| `PolicyPass.OrphansExactly` | internal/controller/kubewardenpolicy_controller.go:177-204 | after any history of deployment and deletion passes, with edits and failures, a failure-free deletion leaves exactly what was deployed, or there before, and not deleted since, outside the clusters that match now and the key the policy has now |
| `PolicyPass.CleanDeletionIff` | internal/controller/kubewardenpolicy_controller.go:177-204 | so, where there was no policy object to begin with, it leaves none exactly if nothing deployed and not deleted since is elsewhere |
| `PolicyPass.ReadyIff` | internal/controller/kubewardenpolicy_controller.go:113-168 | Ready is reported exactly if there are matching clusters and every one has both readiness signals and the annotation, is reachable, and had none of its calls fail, and then each holds the wanted spec |
| `PolicyPass.EntriesSound` | internal/controller/kubewardenpolicy_controller.go:126-168 | the entries name, once each and in order, exactly the clusters with both readiness signals, the annotation and a client; when Ready, all of them |
| `PolicyPass.ActiveIff` | internal/controller/kubewardenpolicy_controller.go:236-251 | on any list, a cluster with both signals, the annotation and a client has one entry, and it says active exactly if no call of the deployment failed and the target was there and active before the pass; any other cluster has none |
| `PolicyPass.ReadyAndActiveIff` | internal/controller/kubewardenpolicy_controller.go:236-251 | a policy reported Ready is reported active on all its clusters exactly if it was active on all of them before the pass |
| `PolicyPass.MatchingClustersCurrentIff` | internal/controller/kubewardenpolicy_controller.go:113-124 | the reported matching clusters are the current ones exactly if some cluster matches or the old list was empty |
| `MergePatch.PatchRoundTripIff` | internal/controller/kubewardenaddon_controller.go:195-200 | the difference of two JSON objects, applied to the first by section 2 of RFC 7396, gives the second exactly if the second has no null member where they differ |
| `MergePatch.AnnotationDiff` | internal/controller/kubewardenaddon_controller.go:190-200 | the patch computed for an unannotated snapshot is the annotation and nothing else |
| `MergePatch.StaleAnnotationPatch` | internal/controller/kubewardenaddon_controller.go:190-202 | that patch, from however stale a snapshot, annotates the cluster the server has and changes nothing else of it |
| `MergePatch.AnnotationOnTheWire` | internal/controller/kubewardenaddon_controller.go:138 | a cluster has an annotation exactly if it has it in its metadata on the wire |
| `MergePatch.StatusPatchIsReadyOnly` | internal/controller/kubewardenaddon_controller.go:205-214 | the status patch is Ready if that changed, else empty |
| `MergePatch.StatusPatchEffect` | internal/controller/kubewardenaddon_controller.go:205-214 | on any server version it leaves the matching clusters as they are |
| `MergePatch.EarlierSnapshotWouldCarryThem` | internal/controller/kubewardenaddon_controller.go:125-126 | a snapshot taken before would have sent the matching clusters exactly when they changed |
| `MergePatch.AnnotateIsMerge` | internal/controller/kubewardenaddon_controller.go:199-202 | the annotation step of the pass functions is that merge patch applied to the server's cluster |
| `MergePatch.ReadyIsMerge` | internal/controller/kubewardenaddon_controller.go:205-214 | the Ready field the pass functions give the server is what the status patch makes of it |
| `DeepCopy.CopyRule` | api/v1alpha1/zz_generated.deepcopy.go:289-311 | an equal rule in new memory only |
| `DeepCopy.CopySelector` | api/v1alpha1/zz_generated.deepcopy.go:211-213 | an equal label selector, values of its requirements included, in new memory only |
| `DeepCopy.CopySpec` | api/v1alpha1/zz_generated.deepcopy.go:211-227 | an equal spec, label selector, nested rules and nil slices included, whose whole reachable memory is new |
| `DeepCopy.SpecKeptApart` | api/v1alpha1/zz_generated.deepcopy.go:211-227 | whatever is written between two moments, a spec none of whose memory is written keeps its value |
| `DeepCopy.CopyPolicyStatus` | api/v1alpha1/zz_generated.deepcopy.go:240-261 | an equal status, transition times included, in new memory only |
| `DeepCopy.PolicyStatusKeptApart` | api/v1alpha1/zz_generated.deepcopy.go:240-261 | the same for the policy status |
| `DeepCopy.CopyDeployed` | api/v1alpha1/zz_generated.deepcopy.go:30-36 | an equal entry with a time cell of its own |
| `DeepCopy.CopyAddonStatus` | api/v1alpha1/zz_generated.deepcopy.go:125-139 | an equal status in new memory only |
| `DeepCopy.PrepareAnnotation` | internal/controller/kubewardenaddon_controller.go:190-197 | the annotation is written through the map shared with the listed cluster, and the snapshot taken before keeps the old value |
| `TextUtils.UncommentRoundTripIff` | test/utils/utils.go:206-251 | uncommenting a block of prefixed lines restores the lines and leaves all text outside the first occurrence unchanged exactly if every commented line fits into the scanner's 64 KiB buffer and none ends in a carriage return |
| `TextUtils.UncommentsEachLine` | test/utils/utils.go:206-251 | uncommenting any block of lines that fit, blank ones included: each line loses a carriage return at its end and then the prefix if it has it, and the text outside the first occurrence stays |
| `TextUtils.TailIsLost` | test/utils/utils.go:226-250 | the first commented line that does not fit into the buffer is lost with all lines of the block behind it, without an error |
| `TextUtils.TailLossOccurs` | test/utils/utils.go:226-250 | a file of three commented lines, the second longer than the buffer, is left with the first line alone |
| `TextUtils.EditContent` | test/utils/utils.go:206-246 | the scanner loop gives the text that the function gives, for any target, found or not |
| `TextUtils.UncommentCode` | test/utils/utils.go:206-251 | the file holds that text afterwards; if it cannot be read, does not hold the target or cannot be written, that is an error and it is as before |
| `TextUtils.NonEmptyLinesRoundTripIff` | test/utils/utils.go:182-192 | joined lines come back exactly if none of them is empty |
| `TextUtils.JoinSplit` | test/utils/utils.go:182-192 | every text is its lines joined |
| `TextUtils.NonEmptyKeepsOrder` | test/utils/utils.go:182-192 | exactly the empty lines are left out |
| `TextUtils.GetNonEmptyLines` | test/utils/utils.go:182-192 | the loop returns the non-empty lines in order |

## Left out

- System.Safety: assumes that only the controller sets the install annotation, that nothing outside removes installed objects or their tolerations, and that no cluster is removed and created again under its old name; policy objects among the manifests are not counted as installed, because their owners may delete them.
- PolicyPass.OrphansExactly: the history consists of the controller's own deployment and deletion passes; objects that others create or delete in between are not part of it.
- Interleaving.InterleavingIsSerial: is about deployment passes that end; crashes, deletions, installations and steps of others do not occur in between.
- Labels.NoChangeMissed: takes a change of one cluster at a time, as the events come.
- TextUtils.UncommentCode: the file holds characters of one byte each, and a write that fails leaves it as it was, not half written.
- DeepCopy.CopySpec: settings are their raw bytes, without a decoded object; metadata and conditions, whose copies belong to libraries, are values here.
- Downloading, unpacking and Helm rendering: a manifest is a given sequence of documents, and fetching or rendering it is one call that can fail.
- The Kubernetes client, its cache and the work queue: a list is a given sequence of clusters of any age; requeueing is the returned answer only.
- Fetching the reconciled object, its deletion timestamp and the dispatch between normal and delete passes.
- The resource version of a status update: a conflict is one of the ways a call can be refused. Between the get and the update of a policy object it is modelled, as a failure if the object is no longer the one read.
- Checks of label syntax are a given verdict on each selector.
- Conditions, timestamps, log lines and the wording of messages: they carry no decision.
- Sharing of slices between a policy and the spec built from it: `BuildPolicySpec` works on values.
- The addon webhook, metrics, TLS, leader election, the entry point, scripts and cluster-level manifests: these parts are constants and wiring.
- How Kubewarden decides whether a policy is active: the workload cluster writes that field, the controllers only read it.
