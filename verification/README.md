# Grafana operator: a verified model

A Dafny model of the parts of the Grafana operator that carry state, loops and string algebra, with
proofs of what they keep and of where exactly they fall short of their comments. Check it with
`dafny verify dfyconfig.toml`.

## What is modelled

| module | behaviour |
|---|---|
| `Substitution`, `Variables`, `Inputs` | repeated byte replacement as one simultaneous substitution: secrets in data sources, data source inputs in dashboards |
| `Ini` | the grafana.ini printer whose hash restarts the pods, and a reader for its text |
| `Resources` | the "namespace/name/uid" lists of an instance's status as finite maps |
| `Cluster`, `Sync`, `Deletion`, `Creation` | instances, Grafana servers and dashboard resources; the batch-limited startup sync, deletion, import |
| `World`, `Uniqueness`, `Recording` | runs in which all of them interleave with users and failures; when a resource is listed once, and when a lost answer is made up for |
| `Reconciler` | the dashboard controller as a class, method by method, proved against those specifications |
| `SemVer`, `Plugins`, `PluginsConfig` | version precedence, the consolidation of plugin lists as written and as intended, the config map between producers and consumer |
| `UrlCache` | the timed content cache and its origin |
| `Pipeline` | the nine installation stages, the data that flows between them, the admin URL |
| `Strings`, `Wrappers` | string order, sorting, option and result types |

Classes and methods follow the code's loops and updates. Each method is proved equal to a function of the
old state; the lemmas are about these functions, so they hold of the methods.

## Conventions

- Go strings are sequences of characters, one per byte. Integers are unbounded; the conversion to `int32` in
  the service URL is written out.
- SHA-256, JSON, gzip, `strconv.Atoi` and `semver.Parse` are function parameters. A theorem that needs an
  injective hash or a round trip says so in its `requires`.
- The order of a Go map iteration is a parameter that may be any permutation of the keys.
- Calls to Kubernetes and to Grafana answer through a parameter: a call works, fails, or takes effect although
  the caller sees an error. The last two also stand for an operator that stops around the call, so that
  theorems about every `Faults` value cover every cut-off.
- A status update of a dashboard resource may or may not copy the stored resource back into memory
  (`Library.refresh`); the theorems hold either way.
- A dashboard's `Folder` and `Meta.Folder` are taken to agree, listings to be complete, and a Grafana server to
  delete the dashboards of a folder with the folder.
- Splitting an entry with fewer than two slashes panics in Go. `Splittable` is the precondition of every method
  that splits, and `World.StepKeepsInv` shows that every list in a run meets it.
- Kubernetes does not hand out a uid twice, so that no list holds the uid of a resource before it is created.
- A Grafana server saves a dashboard under the uid that was sent, answers with it, and touches no dashboard with
  another uid, also one of the same title in the same folder.

## Where the code differs from its comments

- The batch limit returns before the status list is saved (controllers/dashboard_controller.go:102-104), so an
  instance with more than 100 stale entries is worked on again from the start for ever, where the comment expects
  it only to take longer. `Sync.FinishesIffBounded` gives the exact condition.
- The hash is saved on the shared resource inside the loop over instances (lines 187-219 and 409), so
  that a later instance that holds an old copy is taken to be up to date. `Creation.RawUpToDateIff` and
  `Creation.AllListedIff` give the exact conditions for a fault-free reconcile, `Recording.ListedLaterIff` the one
  for an instance to be listed after any failures, and `Recording.LostAnswerRecoveredIff` the case of one lost answer.
- The first instance fills `Spec.Json` in memory (line 307). For a dashboard with another source the next
  instance then finds two sources and refuses it: `Creation.RemoteSucceedsIff` says when.
- A resource that is re-created before the deletion of its predecessor is through is listed beside it, and its
  own deletion then finds one entry only: `Uniqueness.PredecessorIsOrphaned`. Lists have one entry per resource
  exactly under the conditions of `Uniqueness.RunUniqueIff`.
- `PluginList.Update` assigns to a copy (api/v1beta1/plugin_list.go:42-44). Both readings are modelled;
  `Plugins.LiteralNewestIffAgreed` says when the code as written installs the newest versions, and
  `Plugins.LiteralIgnoresOrderIff` when its result does not depend on Go's random map order.
- The key of a plugin request has no namespace (lines 206 and 273), so that resources of the same kind and name
  overwrite each other's requests: `PluginsConfig.RequestStoredIff`.
- An OpenShift route without a host leaves the admin URL of an earlier specification in place
  (controllers/reconcilers/grafana/ingress_reconciler.go:89-93): `Pipeline.UrlIndependentOfPastIff`.
- `DeleteFolderIfEmpty` answers 423 for a folder in use and its caller compares with 432; only a log line depends
  on it.

## Model

| member | source | states |
|---|---|---|
| Substitution.PassesAreSimultaneous | api/v1beta1/grafanadatasource_types.go:177-182 | Passing over the text once per pattern gives the single simultaneous scan, whenever the scan's result holds no pattern |
| Substitution.SettledIffPatternFree | controllers/dashboard_controller.go:369-376 | The passes give the simultaneous scan and a second round changes nothing, if and only if the scan leaves no pattern behind |
| Substitution.PassesConsumeDollars | controllers/dashboard_controller.go:369-376 | A round either finds no pattern and changes nothing or lowers the number of '$' characters |
| Variables.GrafanaDatasource.ExpandVariables | api/v1beta1/grafanadatasource_types.go:167-185 | The nested loop gives the order-free expansion when keys are prefix-free and every '$' begins a known reference; it fails exactly on a nil data source or one that cannot be marshalled |
| Variables.AnyOrderExpands | api/v1beta1/grafanadatasource_types.go:177-182 | For every map order the loop is the order-free expansion, if that leaves no reference behind |
| Variables.KnownReferencesExpand | api/v1beta1/grafanadatasource_types.go:177-182 | The same when every '$' of the text begins a known reference, and the result has no '$' |
| Variables.ExpandedRendersTokens | api/v1beta1/grafanadatasource_types.go:177-182 | On a template of texts and references the expansion is the token-wise substitution |
| Variables.OrderIndependentIffPrefixFree | api/v1beta1/grafanadatasource_types.go:177-182 | Go's random map order is invisible, for all values without '$' and all templates in which every '$' begins a known reference, if and only if no key is a proper prefix of another |
| Variables.PrefixMakesOrderMatter | api/v1beta1/grafanadatasource_types.go:177-182 | For any two keys with a common prefix of this kind there are values, a template and two orders with different results |
| Inputs.ResolveDatasources | controllers/dashboard_controller.go:364-379 | The loop over the mappings gives the passes of their rules, and an error exactly if an input or a data source name is empty |
| Inputs.ResolveIsSimultaneous | controllers/dashboard_controller.go:364-379 | The loop is one simultaneous substitution, and resolving its own output again changes nothing |
| Inputs.ScanMapsPieces | controllers/dashboard_controller.go:369-376 | On a text of literals and references the first mapping of a name wins and unmapped references survive |
| Inputs.FirstMatchIsLookup | controllers/dashboard_controller.go:369-376 | The rule that fires on a reference is that of the first mapping with its name |
| Inputs.RenderIsClosed | controllers/dashboard_controller.go:374 | Texts of literals and references meet the condition of the two theorems above |
| Ini.WriteIni | controllers/config/grafana_ini.go:11-43 | The method returns the text of the configuration and its hash, and leaves the forced configuration in the caller's map |
| Ini.WriteSections | controllers/config/grafana_ini.go:26-37 | The loop over the sorted section names prints exactly the nonempty sections |
| Ini.WriteSection | controllers/config/grafana_ini.go:45-60 | The section's lines in key order, whatever order the map hands out |
| Ini.ReadBack | controllers/config/grafana_ini.go:11-60 | Reading the text back returns the configuration with the four paths forced and empty sections dropped |
| Ini.ReadsAsConfigured | controllers/config/grafana_ini.go:20-24 | In the text read back the four paths have their fixed values whatever is configured for them, and all other settings of nonempty sections are as configured, with no others |
| Ini.TextIsOrdered | controllers/config/grafana_ini.go:26-58 | Sections stand in bytewise increasing order in the text, and so do the settings of a section |
| Ini.SameTextIffSameMeaning | controllers/config/grafana_ini.go:11-60 | Two clean configurations print the same text if and only if they agree after this normalisation |
| Ini.SecondCallSameText | controllers/config/grafana_ini.go:16-24 | A second call on the changed map prints the same text |
| Ini.PrintDropsEmpty | controllers/config/grafana_ini.go:33-35 | Empty sections leave no trace |
| Ini.AmbiguousKeyCollides | controllers/config/grafana_ini.go:56 | Every key that contains the separator shares its text with a different configuration |
| Ini.LineBreakCollides | controllers/config/grafana_ini.go:56-57 | A value in which a line break is followed by a setting line with a later key shares its text with a configuration of two settings |
| Resources.Split | api/v1beta1/namespaced_resource.go:12-15 | The three parts are those that the specifications use as key and uid |
| Resources.SplitUndoesPrint | api/v1beta1/namespaced_resource.go:12-15 | Splitting undoes the printed form exactly when no part contains a slash |
| Resources.PrintedParts | api/v1beta1/namespaced_resource.go:53 | An entry is namespace, name and uid in this order between slashes |
| Resources.PrintIsSplittable | api/v1beta1/namespaced_resource.go:53 | What Add prints can always be split |
| Resources.KeyOfPrint | api/v1beta1/namespaced_resource.go:12-15 | Slash-free namespace and name are read back whatever the uid |
| Resources.Find | api/v1beta1/namespaced_resource.go:32-40 | The uid of the first entry of the key, or none |
| Resources.Add | api/v1beta1/namespaced_resource.go:52-62 | The list itself if it holds the entry, else the entry in front of it |
| Resources.Remove | api/v1beta1/namespaced_resource.go:64-74 | The list without any entry of the key |
| Resources.FoundIsLookup | api/v1beta1/namespaced_resource.go:32-40 | Find is lookup in the finite map of the list |
| Resources.RemovedIsDeletion | api/v1beta1/namespaced_resource.go:64-74 | Remove is deletion in that map |
| Resources.RemovedMembers | api/v1beta1/namespaced_resource.go:64-74 | Exactly the entries of other keys stay |
| Resources.AddedIsUpdate | api/v1beta1/namespaced_resource.go:52-62 | Add is update in that map; keys stay unique if and only if the key is new or keeps its uid |
| Resources.FoundAfterAdded | api/v1beta1/namespaced_resource.go:32-62 | Find after Add returns the added uid and the old answer for other keys |
| Sync.DeleteEntriesFilters | controllers/dashboard_controller.go:98-118 | Removing the stale entries one by one is filtering the list by the resources that exist |
| Sync.CycleIsSafe | controllers/dashboard_controller.go:61-132 | Whatever fails: at most 100 delete requests, each for an entry without a resource; every saved list is the old one or the filtered one; a cycle that ends normally has filtered all |
| Sync.CycleDeletes | controllers/dashboard_controller.go:92-126 | Whatever fails: entries leave a saved list only if every stale one of the instance was requested and its dashboard is gone; a cycle that ends normally has done so on every instance with no call failing; a dashboard that was not requested stays |
| Sync.CycleProgress | controllers/dashboard_controller.go:92-126 | A fault-free cycle from a bounded state ends with nothing stale or clears an instance completely |
| Sync.LoopConverges | controllers/dashboard_controller.go:515-534 | Once calls have stopped failing, with at most 100 stale entries per instance the loop stops within max(1, number of instances with stale entries) cycles, for every map order, with nothing stale saved |
| Sync.OversizedNeverFinishes | controllers/dashboard_controller.go:99-104 | With one instance over the limit no cycle ends normally, whatever fails, and every cycle leaves the saved list of that instance as it was |
| Sync.FinishesIffBounded | controllers/dashboard_controller.go:515-534 | If calls fail in finitely many cycles only, the loop ends if and only if no instance is over the limit, and then nothing stale is saved |
| Sync.RanMeans | controllers/dashboard_controller.go:515-534 | However far the loop has run: if it has ended, nothing stale is left and no instance was over the limit; without failing calls enough cycles do end it |
| Deletion.DeletionIsComplete | controllers/dashboard_controller.go:229-288 | After a deletion without an error no instance lists the key, all other entries stay in order, and of the dashboards exactly the one that the first entry of the key records is gone |
| Deletion.FoldersFollow | controllers/dashboard_controller.go:259-270 | A deletion without an error has removed the folder of the recorded dashboard exactly where no other dashboard was in it, no other folder, and no call has failed |
| Deletion.NoRecordedUidSurvives | controllers/dashboard_controller.go:237-257 | A deletion without an error leaves no recorded dashboard of the key on a server if and only if no later entry of the key has its dashboard there |
| Deletion.DeletionIsSafe | controllers/dashboard_controller.go:229-288 | Also a deletion that fails half way leaves other entries, dashboards and used folders alone |
| Deletion.DeletionIsResumable | controllers/dashboard_controller.go:229-288 | After any number of failed runs a successful one reaches the lists of a single successful run |
| Deletion.DeletionSucceeds | controllers/dashboard_controller.go:229-288 | Under the folder invariant a fault-free deletion returns without an error |
| Deletion.DeletionKeepsFolderInv | controllers/dashboard_controller.go:259-270 | Deletions keep titles and ids unique and every dashboard in an existing folder |
| Creation.WriteSet | controllers/dashboard_controller.go:187-219 | For every kind of source, changed or not: the targets that are neither skipped nor blocked receive the text in the requested folder and list it, all other instances stay as they are, and the hash is saved as soon as there is a target |
| Creation.ImportedIntoFolder | controllers/dashboard_controller.go:329-342 | Where folders are sound, each instance that receives the dashboard has it in the general folder if no title is requested, else in the one folder of this title, the old one where there was one |
| Creation.SuccessMeansFaultFree | controllers/dashboard_controller.go:186-226 | Whatever calls fail, a reconcile that reports success has had no failing call and left no eligible instance out, and has done what the fault-free one does |
| Creation.LeftAlone | controllers/dashboard_controller.go:187-200 | Whatever fails, an import does not touch an instance in another namespace without permission, one that is not ready, or an external one if plugins are requested |
| Creation.NewDashboardArrives | controllers/dashboard_controller.go:187-219 | Every other matching instance without the dashboard gets raw JSON and lists it |
| Creation.FetchedIff | controllers/dashboard_controller.go:383-406 | A text is fetched exactly if one source is configured and it delivers |
| Creation.SucceedsIff | controllers/dashboard_controller.go:186-226 | A fault-free reconcile succeeds if and only if every eligible instance is ready, takes plugins, is not blocked, and the text is valid unless skipped |
| Creation.RemoteSucceedsIff | controllers/dashboard_controller.go:305-321 | For a URL, gzip or Jsonnet source: if and only if every eligible instance is ready and, of any two targets, the earlier one is written and the update copies the stored resource back |
| Creation.AllUpToDateIff | controllers/dashboard_controller.go:315-321 | All targets hold the new text if and only if those that receive nothing already held it |
| Creation.RawUpToDateIff | controllers/dashboard_controller.go:315-321 | For changed raw JSON: if and only if each later target that holds the uid already held this text |
| Creation.AllListedIff | controllers/dashboard_controller.go:319-360 | All targets list the resource after a fault-free reconcile if and only if those that receive nothing already list it |
| Creation.UnchangedRemoteSourceBlocksRest | controllers/dashboard_controller.go:305-321 | An unchanged dashboard from another source than raw JSON fails whenever there is a second target, and no instance changes |
| Creation.WrittenIntoItsFolder | controllers/dashboard_controller.go:329-345 | A written dashboard is in a folder with the requested title |
| Creation.FolderForKeepsInv | controllers/dashboard_controller.go:426-445 | Finding or creating a folder keeps titles unique and returns an existing folder |
| Creation.CreatedKeepsFolderInv | controllers/dashboard_controller.go:290-361 | An import cut off anywhere keeps the folder invariant |
| World.StepKeepsInv | controllers/dashboard_controller.go:148-227 | Every reconcile, sync, edit and out-of-band deletion, failing anywhere, keeps folders sound, lists printed, present uids first and hashes recorded |
| World.SkippedIsRecorded | controllers/dashboard_controller.go:315-360 | In every state of every run a dashboard that would be skipped as unchanged is listed by its one matching instance, and Find returns its uid |
| World.FoldersStaySound | controllers/dashboard_controller.go:426-501 | In every run folder titles stay unique, dashboards stay in existing folders, and a folder that goes was empty |
| Recording.ListedLaterIff | controllers/dashboard_controller.go:187-219 | In any saved state, whatever failed before, and for every kind of source: any number of fault-free reconciles list an instance if and only if it lists the resource already or receives the text next |
| Recording.LostAnswerRecoveredIff | controllers/dashboard_controller.go:346-360 | For every kind of source: a dashboard whose write took effect with its answer lost is listed by later fault-free reconciles if and only if the text was changed and no other target saves its hash |
| Recording.SecondInstanceStaysUnrecorded | controllers/dashboard_controller.go:187-219 | With any two targets that are not blocked, in any cluster, it stays on the server unlisted through any number of fault-free reconciles |
| Uniqueness.RunUniqueIff | api/v1beta1/namespaced_resource.go:52-62 | In every run each list has one entry per resource exactly as long as no import lists a resource beside an entry of a predecessor of the same name |
| Uniqueness.ImportKeepsUniqueIff | controllers/dashboard_controller.go:354 | Before a fault-free import: the lists stay so if and only if no instance that receives the dashboard lists a predecessor |
| Uniqueness.PatientRunsStayUnique | controllers/dashboard_controller.go:229-288 | If resources are re-created only after the deletion of their predecessor is through, lists have one entry per resource, the present one, in every state |
| Uniqueness.DeletionLeavesNothing | controllers/dashboard_controller.go:229-288 | In such runs a deletion without an error leaves no recorded dashboard on any server |
| Uniqueness.PredecessorIsOrphaned | controllers/dashboard_controller.go:237-281 | Otherwise, in any cluster: re-created, imported and deleted with no call failing, the predecessor stays on the server and no list knows of it |
| Reconciler.GetDashboardsToDelete | controllers/dashboard_controller.go:135-146 | Exactly the instances with stale entries, each with these entries in order |
| Reconciler.GrafanaDashboardReconciler.SyncDashboards | controllers/dashboard_controller.go:61-132 | One sync cycle as specified, with its bound on requests and its filtered lists |
| Reconciler.GrafanaDashboardReconciler.SyncInOrder | controllers/dashboard_controller.go:92-126 | The loop over the map of stale entries agrees with the specification for every order |
| Reconciler.GrafanaDashboardReconciler.DeleteStale | controllers/dashboard_controller.go:98-118 | The delete requests of one instance, counted against the batch limit before each one |
| Reconciler.GrafanaDashboardReconciler.SyncUntilDone | controllers/dashboard_controller.go:515-534 | The loop runs the specified cycles, also after failed ones, until one ends normally or the context is cancelled; it ends with nothing stale, and without failing calls within the bound on cycles |
| Reconciler.GrafanaDashboardReconciler.OnDashboardDeleted | controllers/dashboard_controller.go:229-288 | The deletion as specified; without an error no list holds the key |
| Reconciler.GrafanaDashboardReconciler.DeleteFolderIfEmpty | controllers/dashboard_controller.go:464-501 | The folder step of a deletion as specified |
| Reconciler.GrafanaDashboardReconciler.GetFolderID | controllers/dashboard_controller.go:447-462 | The id of the first folder with the title, 0 if there is none |
| Reconciler.GrafanaDashboardReconciler.GetOrCreateFolder | controllers/dashboard_controller.go:426-445 | The folder step of an import as specified |
| Reconciler.GrafanaDashboardReconciler.OnDashboardCreated | controllers/dashboard_controller.go:290-361 | The import on one instance as specified: server, list, in-memory resource and saved hash |
| Reconciler.GrafanaDashboardReconciler.UpdateStatus | controllers/dashboard_controller.go:408-411 | The hash of the in-memory JSON is saved and nothing else of the resource |
| Reconciler.GrafanaDashboardReconciler.ReconcileOn | controllers/dashboard_controller.go:187-219 | One round of the instance loop: namespace and readiness guards, plugins, import |
| Reconciler.GrafanaDashboardReconciler.ReconcileMatching | controllers/dashboard_controller.go:186-219 | The loop over the matching instances of an object that was just read is the specified import |
| Reconciler.GrafanaDashboardReconciler.Reconcile | controllers/dashboard_controller.go:148-227 | A reconcile is the specified import if the resource exists and the specified deletion if not |
| SemVer.ComparePreorder | api/v1beta1/plugin_list.go:96-118 | Version precedence (section 11 of Semantic Versioning 2.0.0) is a total preorder; ties differ in build metadata only |
| SemVer.NumbersDecide | api/v1beta1/plugin_list.go:113 | A higher major, minor or patch number makes a higher version, whatever follows it |
| SemVer.PreReleaseIsLower | api/v1beta1/plugin_list.go:113 | A version with pre-release identifiers is below the one without |
| SemVer.IdentifiersDecide | api/v1beta1/plugin_list.go:113 | With the same numbers the first different identifier decides, and further identifiers make a nonempty list higher |
| SemVer.LargerTextRaises | api/v1beta1/plugin_list.go:113 | Of two alphanumeric identifiers the bytewise larger one is higher |
| Plugins.HasSomeVersionOf | api/v1beta1/plugin_list.go:67-74 | Whether an entry has the name |
| Plugins.HasExactVersionOf | api/v1beta1/plugin_list.go:87-94 | Whether the list contains the plugin |
| Plugins.HasNewerVersionOf | api/v1beta1/plugin_list.go:97-118 | Whether an entry of the name is newer, or the error of the first version that does not parse |
| Plugins.NewerIff | api/v1beta1/plugin_list.go:96-118 | With parseable versions the answer is yes exactly if an entry of the name has higher precedence |
| Plugins.NewerFailsIff | api/v1beta1/plugin_list.go:103-111 | The question fails exactly at an entry of the name that cannot be compared, unless a newer one comes before it |
| Plugins.Update | api/v1beta1/plugin_list.go:41-48 | The code as written does not change the list |
| Plugins.UpdateInPlace | api/v1beta1/plugin_list.go:40-48 | The version its comment intends changes the first entry of the name |
| Plugins.JoinList | controllers/reconcilers/grafana/plugins_reconciler.go:69-97 | The inner loop with either update is the fold of single joins |
| Plugins.Consolidate | controllers/reconcilers/grafana/plugins_reconciler.go:60-98 | Both loops together are that fold over all stored requests in map order |
| Plugins.LiteralKeepsFirstSeen | controllers/reconcilers/grafana/plugins_reconciler.go:60-98 | As written, the first version seen stays, whatever the versions are |
| Plugins.LiteralResult | controllers/reconcilers/grafana/plugins_reconciler.go:60-98 | As written, for every order: distinct names, exactly the stored names, each with the earliest request |
| Plugins.IntendedResult | controllers/reconcilers/grafana/plugins_reconciler.go:60-98 | As intended, for every order: one entry per stored name, itself a request that no other exceeds |
| Plugins.IntendedHighest | controllers/reconcilers/grafana/plugins_reconciler.go:60-98 | As intended, no stored request for a plugin has higher precedence than the entry installed |
| Plugins.IntendedIgnoresOrder | controllers/reconcilers/grafana/plugins_reconciler.go:60-98 | As intended, two orders differ at most by a permutation and build metadata |
| Plugins.LiteralNewestIffAgreed | api/v1beta1/plugin_list.go:41-48 | As written, the newest versions are installed for every order if and only if all requests for a plugin agree in precedence |
| Plugins.OlderFirst | api/v1beta1/plugin_list.go:41-48 | For any two requests of different precedence there is an order in which the older one is installed and the newer one is not |
| Plugins.LiteralIgnoresOrderIff | controllers/reconcilers/grafana/plugins_reconciler.go:60-98 | As written, all map orders install the same plugins in the same versions if and only if all stored requests for a plugin are the same |
| PluginsConfig.Sanitize | api/v1beta1/plugin_list.go:51-64 | The loop keeps the first parseable entry of every name |
| PluginsConfig.SanitizedIsClean | api/v1beta1/plugin_list.go:50-64 | The result has distinct names and parseable versions, and no name with a parseable request is lost |
| PluginsConfig.FirstIsKept | api/v1beta1/plugin_list.go:51-64 | Of several parseable requests for a plugin in one list the first is kept |
| PluginsConfig.PluginsConfigMap.ReconcilePlugins | controllers/controller_shared.go:25-52 | The map changes at the resource's key only, exactly if the list differs and no call prevents it; the call succeeds exactly if the calls it needs do; the map stays clean |
| PluginsConfig.PluginsConfigMap.ConsolidatePlugins | controllers/reconcilers/grafana/plugins_reconciler.go:54-101 | The installed list is the consolidation of the stored bytes; it never fails on clean data and always on bytes that are no list |
| PluginsConfig.ListingReads | api/v1beta1/plugin_list.go:32-38 | Splitting the installed list at its commas gives every plugin with its version, in order |
| PluginsConfig.CleanDataConsolidates | controllers/reconcilers/grafana/plugins_reconciler.go:60-101 | On clean data the stage lists for every name the request it meets first |
| PluginsConfig.ConsumerNeverFails | controllers/controller_shared.go:25-52 | After any requests the data is clean, consolidation succeeds for every order, and repeating a request writes nothing |
| PluginsConfig.KeysCollideIff | controllers/dashboard_controller.go:206 | Two resources share a key of the config map if and only if they have the same kind and name, whatever their namespaces |
| PluginsConfig.RequestStoredIff | controllers/controller_shared.go:46-49 | The latest request of a resource is what is stored for it if and only if the last request from a resource of its kind and name is its own or one from another namespace for the same list |
| UrlCache.GrafanaDashboard.GetContentCache | api/v1beta1/grafanadashboard_types.go:171-192 | The cached content, or nothing after a change of URL, an expiry or a decoding error |
| UrlCache.GrafanaDashboard.FetchDashboardFromUrl | controllers/fetchers/url_fetcher.go:17-59 | The fetch as specified, with the three cache fields changed together or not at all |
| UrlCache.FetchOutcome | controllers/fetchers/url_fetcher.go:23-58 | A fetch of a valid URL succeeds exactly with a usable cache or an answer with status 200 that can be read and compressed, and says which content it returns and stores |
| UrlCache.CacheIsFromOrigin | controllers/fetchers/url_fetcher.go:49-56 | In every run the cache is empty or holds one answer of the origin with its URL and time |
| UrlCache.FetchAgreesWithOrigin | controllers/fetchers/url_fetcher.go:23-58 | A successful fetch returns what the current URL serves now or served within the current duration |
| UrlCache.RequestsAgainIffExpired | api/v1beta1/grafanadashboard_types.go:176-192 | In every run, once nonempty content is stored, later fetches of the URL return it until the duration then in force has run out, and the first one after that asks the origin again |
| Pipeline.ServiceUrlNamesPort | controllers/reconcilers/grafana/grafana_service_reconciler.go:49-80 | The service URL names the configured port if and only if the port fits into int32 |
| Pipeline.ServerDefaults | controllers/reconcilers/grafana/grafana_service_reconciler.go:58-80 | The protocol is the configured one, else http; the port is the configured one if it is a number, else 3000 |
| Pipeline.DigitsRead | controllers/reconcilers/grafana/grafana_service_reconciler.go:51-52 | The digits of the port in the URL read back as the number |
| Pipeline.GetIngressAdminURL | controllers/reconcilers/grafana/ingress_reconciler.go:99-150 | The first rule with a host, else the first load balancer name, else the last address; https if a TLS entry lists the rules' host |
| Pipeline.IngressUrlHasHost | controllers/reconcilers/grafana/ingress_reconciler.go:144-149 | The URL is empty if and only if nothing names a host; otherwise its host is one of those named |
| Pipeline.RuleUrl | controllers/reconcilers/grafana/ingress_reconciler.go:108-124 | The first rule with a host gives the URL, with https if a TLS entry lists this host and http otherwise |
| Pipeline.LoadBalancerUrl | controllers/reconcilers/grafana/ingress_reconciler.go:126-142 | Without one, the first load balancer with a name gives it, or else the last with an address |
| Pipeline.GrafanaReconciler.ReconcileConfig | controllers/reconcilers/grafana/config_reconciler.go:26-44 | The stage puts the configuration's text into the config map and its hash into the variables |
| Pipeline.GrafanaReconciler.ReconcileService | controllers/reconcilers/grafana/grafana_service_reconciler.go:30-56 | The stage sets the service URL unless an ingress is preferred |
| Pipeline.GrafanaReconciler.ReconcileIngress | controllers/reconcilers/grafana/ingress_reconciler.go:47-74 | The stage waits for a load balancer, fails without a URL, and else sets it |
| Pipeline.GrafanaReconciler.ReconcileRoute | controllers/reconcilers/grafana/ingress_reconciler.go:76-96 | The stage sets the route's URL if it has a host |
| Pipeline.GrafanaReconciler.ReconcilePlugins | controllers/reconcilers/grafana/plugins_reconciler.go:26-102 | The stage creates a missing config map and else passes the consolidated list on |
| Pipeline.GrafanaReconciler.ReconcileDeployment | controllers/reconcilers/grafana/deployment_reconciler.go:47-64 | The pods' environment is set from the variables of the pass |
| Pipeline.GrafanaReconciler.RunStages | controllers/grafana_controller.go:92-121 | The stage loop runs the stages in order up to the first that does not succeed |
| Pipeline.GrafanaReconciler.UpdateStatus | controllers/grafana_controller.go:129-151 | The status is written only if it differs, and the pass is repeated unless it succeeded |
| Pipeline.GrafanaReconciler.Reconcile | controllers/grafana_controller.go:63-127 | One pass as specified: stages run, status, config map, environment and writes |
| Pipeline.PassStopsAtFirstFailure | controllers/grafana_controller.go:92-121 | The stages run are a prefix of the fixed order; the pass ends successful exactly if all nine succeed, and else with the report of the first that does not, with a message |
| Pipeline.StagesRun | controllers/grafana_controller.go:162-174 | Each stage runs exactly if the one before it ran and the answers it needs are there |
| Pipeline.WaitsIff | controllers/reconcilers/grafana/ingress_reconciler.go:62-64 | A pass is in progress exactly while a preferred ingress has no load balancer |
| Pipeline.MessageIs | controllers/grafana_controller.go:103-119 | A refused call ends the pass at its stage, failed, with the error of the call as the message |
| Pipeline.ExternalPass | controllers/grafana_controller.go:85-90 | An external instance is complete at once under its own URL, and nothing is installed |
| Pipeline.DeploymentIsCurrent | controllers/reconcilers/grafana/deployment_reconciler.go:159-169 | The deployment always gets the hash and the plugins computed in the same pass |
| Pipeline.CompleteMeansInstalled | controllers/grafana_controller.go:92-121 | A complete pass leaves specification, config map, environment and plugins in agreement |
| Pipeline.InstalledPlugins | controllers/reconcilers/grafana/plugins_reconciler.go:37-58 | A complete pass installs no plugins before the first request, and else the consolidated list of what is stored |
| Pipeline.RestartIffMeaningChanges | controllers/reconcilers/grafana/config_reconciler.go:29-30 | Two complete passes give the pods the same hash if and only if the configurations mean the same |
| Pipeline.AdminUrlIsDerived | controllers/reconcilers/grafana/grafana_service_reconciler.go:49-53 | A complete pass ends with the admin URL of the current specification, except for a route without a host; other controllers' lists stay |
| Pipeline.AdminUrlText | controllers/reconcilers/grafana/ingress_reconciler.go:58-92 | The admin URL of a complete pass spelled out for a service, an ingress with a rule host, and a route |
| Pipeline.UrlIndependentOfPastIff | controllers/reconcilers/grafana/ingress_reconciler.go:89-93 | The URL of a complete pass is independent of the old one if and only if no route without a host is to give it |
| Pipeline.RepeatedPassChangesNothing | controllers/grafana_controller.go:129-138 | A second pass with the same answers changes neither status nor cluster, so that no status is written |
| Pipeline.AdminUrlHasASource | controllers/grafana_controller.go:82-89 | In every run the saved admin URL is the first one or was derived in some saved pass |

## Left out

- HTTP and Kubernetes clients, credentials, metrics, logging, autodetection: calls are answers of a parameter.
- `Merge` of type overrides, and the builders of deployments, services, ingresses, routes and volumes: the merged
  objects are parameters of `Pipeline`; of the deployment only the two environment variables that come from the
  pass are modelled.
- Administrator secret, persistent volume claim and service account reconcilers: only whether they succeed.
- Jsonnet evaluation and the embedded library: such a source delivers a text or an error.
- The insides of gzip, JSON, SHA-256 and the parser of versions: parameters.
- The data source and folder controllers, which repeat the dashboard controller with small deviations.
- Resync periods, the `NoMatchingInstances` flag and conflict details of status updates: they are read off one branch.
- Lists read through a stale cache: a reconcile starts from what is saved.
- In `World` the plugins config map is a call that may fail; its content is the subject of `PluginsConfig`.
- Sync.LoopConverges: is about dashboard resources and lists that nobody else edits in between, since new stale entries would need new cycles.
- World.SkippedIsRecorded: is about resources with one matching instance that stays the same; for more, `Recording.ListedLaterIff` tells from any saved state which instances are still going to be listed, and `Recording.LostAnswerRecoveredIff` works this out for one lost answer.
- Creation.WriteSet: is about fault-free reconciles; with failing calls `World.StepKeepsInv` says what is kept.
- Reconciler.GrafanaDashboardReconciler.OnDashboardCreated: lists the uid that was sent, while the code lists the one in the server's answer (controllers/dashboard_controller.go:354); they are taken to be the same.
- Uniqueness.PredecessorIsOrphaned: is about servers that keep the predecessor's dashboard beside the new one; a server that overwrites a dashboard of the same title would not orphan it.
- UrlCache.FetchAgreesWithOrigin: takes the clock readings of a run as given; nothing is assumed about their order.
